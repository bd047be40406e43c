/** The sftp side of the daemon: the commands written to the standard input of
    the `sftp` child process, and the dispatch loop that reads change events
    (or the quit signal) one at a time and writes the commands for each.
    livesyncd.go and sftp.go each run this loop, with their own choice of
    commands per event. */
module SftpSession {

  /** One command line written to sftp's standard input. */
  datatype Command =
    /** `! mkdir -p dir`: the leading `!` makes sftp hand the rest to a shell. */
    | Mkdir(dir: string)
    /** `put -p local remote`, or `put -Pr local remote` when `recursive`. */
    | Put(local: string, remote: string, recursive: bool)
    /** `rm remote`. */
    | Rm(remote: string)
    /** `exit`. */
    | Exit

  /** What the loop receives: an event on the events channel, or a value on the
      quit channel. */
  datatype Msg<E> = Deliver(event: E) | Quit

  predicate NoQuit<E>(inbox: seq<Msg<E>>) {
    forall i :: 0 <= i < |inbox| ==> inbox[i].Deliver?
  }

  /** The commands the loop writes for a sequence of messages: the commands of
      each event in order, up to the first quit, which writes `exit` and ends
      the loop. */
  function Transcript<E>(inbox: seq<Msg<E>>, commandsFor: E -> seq<Command>): (t: seq<Command>)
    ensures inbox != [] && inbox[0].Quit? ==> t == [Exit]
    decreases |inbox|
  {
    if inbox == [] then []
    else match inbox[0]
      case Quit => [Exit]
      case Deliver(e) => commandsFor(e) + Transcript(inbox[1..], commandsFor)
  }

  /** Once a quit has arrived the last command written is `exit`, whatever the
      events before it map to. */
  lemma {:induction false} TranscriptEndsWithExit<E>(inbox: seq<Msg<E>>, commandsFor: E -> seq<Command>)
    requires Quit in inbox
    ensures var t := Transcript(inbox, commandsFor); |t| >= 1 && t[|t| - 1] == Exit
    decreases |inbox|
  {
    if inbox[0].Deliver? {
      assert inbox == [inbox[0]] + inbox[1..];
      TranscriptEndsWithExit(inbox[1..], commandsFor);
    }
  }

  /** How many messages the loop takes off its channels: all of them up to and
      including the first quit. */
  function Consumed<E>(inbox: seq<Msg<E>>): (n: nat)
    ensures n <= |inbox|
    ensures NoQuit(inbox) ==> n == |inbox|
    ensures !NoQuit(inbox) ==> n >= 1 && inbox[n - 1].Quit? && NoQuit(inbox[..n - 1])
    decreases |inbox|
  {
    if inbox == [] then 0
    else if inbox[0].Quit? then 1
    else
      var n := 1 + Consumed(inbox[1..]);
      assert n > 1 ==> inbox[..n - 1] == [inbox[0]] + inbox[1..][..n - 2];
      n
  }

  /** Messages before any quit contribute their commands in order, and what
      follows them is processed as if on its own. */
  lemma {:induction false} TranscriptAppend<E>(a: seq<Msg<E>>, b: seq<Msg<E>>, commandsFor: E -> seq<Command>)
    requires NoQuit(a)
    ensures Transcript(a + b, commandsFor) == Transcript(a, commandsFor) + Transcript(b, commandsFor)
    decreases |a|
  {
    if a == [] {
      assert a + b == b;
    } else {
      assert (a + b)[1..] == a[1..] + b;
      TranscriptAppend(a[1..], b, commandsFor);
    }
  }

  /** After a quit nothing more is written: the transcript is the commands of the
      events before it followed by a single `exit`, whatever comes later. */
  lemma {:induction false} QuitEndsTranscript<E>(pre: seq<Msg<E>>, post: seq<Msg<E>>, commandsFor: E -> seq<Command>)
    requires NoQuit(pre)
    ensures Transcript(pre + [Quit] + post, commandsFor) == Transcript(pre, commandsFor) + [Exit]
  {
    TranscriptAppend(pre, [Quit] + post, commandsFor);
    assert pre + [Quit] + post == pre + ([Quit] + post);
  }

  /** When no event maps to `exit`, `exit` is written exactly when a quit arrives,
      and then it is the last command. */
  lemma {:induction false} ExitOnlyOnQuit<E>(inbox: seq<Msg<E>>, commandsFor: E -> seq<Command>)
    requires forall e :: Exit !in commandsFor(e)
    ensures var t := Transcript(inbox, commandsFor);
      (Exit in t <==> !NoQuit(inbox)) &&
      (Exit in t ==> t[|t| - 1] == Exit && Exit !in t[..|t| - 1])
    decreases |inbox|
  {
    if inbox != [] {
      match inbox[0]
      case Quit =>
      case Deliver(e) =>
        ExitOnlyOnQuit(inbox[1..], commandsFor);
        var rest := Transcript(inbox[1..], commandsFor);
        var t := commandsFor(e) + rest;
        assert !NoQuit(inbox) <==> !NoQuit(inbox[1..]) by {
          if !NoQuit(inbox[1..]) {
            var k :| 0 <= k < |inbox[1..]| && !inbox[1..][k].Deliver?;
            assert !inbox[k + 1].Deliver?;
          }
        }
        if Exit in rest {
          assert t[..|t| - 1] == commandsFor(e) + rest[..|rest| - 1];
        }
    }
  }

  /** Events as they arrive on the events channel, with no quit among them. */
  function Delivered<E>(events: seq<E>): (inbox: seq<Msg<E>>)
    ensures |inbox| == |events| && NoQuit(inbox)
    ensures forall i :: 0 <= i < |events| ==> inbox[i] == Deliver(events[i])
  {
    seq(|events|, i requires 0 <= i < |events| => Deliver(events[i]))
  }

  /** The commands of a run of events, one event after the other. */
  function Flatten<E>(events: seq<E>, commandsFor: E -> seq<Command>): seq<Command>
    decreases |events|
  {
    if events == [] then [] else commandsFor(events[0]) + Flatten(events[1..], commandsFor)
  }

  /** Delivered events are answered with their commands, in arrival order. */
  lemma {:induction false} DeliveredTranscript<E>(events: seq<E>, commandsFor: E -> seq<Command>)
    ensures Transcript(Delivered(events), commandsFor) == Flatten(events, commandsFor)
    decreases |events|
  {
    if events != [] {
      DeliveredTranscript(events[1..], commandsFor);
      assert Delivered(events)[1..] == Delivered(events[1..]);
    }
  }

  /** A whole session: the commands of the events before the quit, in order,
      then `exit` as the last and only `exit`; the messages after the quit are
      not read and write nothing. */
  lemma {:induction false} SessionEndsWithExit<E>(events: seq<E>, later: seq<Msg<E>>, commandsFor: E -> seq<Command>)
    requires forall e :: Exit !in commandsFor(e)
    ensures var inbox := Delivered(events) + [Quit] + later;
      var t := Transcript(inbox, commandsFor);
      t == Flatten(events, commandsFor) + [Exit] &&
      Exit !in t[..|t| - 1] &&
      Consumed(inbox) == |events| + 1
  {
    var inbox := Delivered(events) + [Quit] + later;
    QuitEndsTranscript(Delivered(events), later, commandsFor);
    DeliveredTranscript(events, commandsFor);
    ExitOnlyOnQuit(inbox, commandsFor);
    ConsumedUpToQuit(Delivered(events), later);
  }

  /** The loop reads the messages before the first quit and the quit itself. */
  lemma ConsumedUpToQuit<E>(pre: seq<Msg<E>>, post: seq<Msg<E>>)
    requires NoQuit(pre)
    ensures Consumed(pre + [Quit] + post) == |pre| + 1
  {
    var inbox := pre + [Quit] + post;
    assert inbox[|pre|] == Quit;
    assert inbox[..|pre|] == pre;
  }

  /** The write end of sftp's standard input, and the reply sent on the quit
      channel once the loop has written `exit`. */
  class Pipe {
    var written: seq<Command>
    var acknowledged: bool

    constructor ()
      ensures written == [] && !acknowledged
    {
      written := [];
      acknowledged := false;
    }

    /** The dispatch loop: takes messages in order, writes the commands of each
        event, and on quit writes `exit`, acknowledges and returns. Returns how
        many messages it took. */
    method Serve<E>(inbox: seq<Msg<E>>, commandsFor: E -> seq<Command>) returns (consumed: nat)
      modifies this
      ensures written == old(written) + Transcript(inbox, commandsFor)
      ensures acknowledged == (old(acknowledged) || !NoQuit(inbox))
      ensures consumed == Consumed(inbox)
    {
      var i := 0;
      while i < |inbox|
        invariant 0 <= i <= |inbox|
        invariant NoQuit(inbox[..i])
        invariant written == old(written) + Transcript(inbox[..i], commandsFor)
        invariant acknowledged == old(acknowledged)
      {
        match inbox[i]
        case Quit =>
          written := written + [Exit];
          acknowledged := true;
          assert inbox == inbox[..i] + [Quit] + inbox[i + 1..];
          QuitEndsTranscript(inbox[..i], inbox[i + 1..], commandsFor);
          assert inbox[..i + 1][..i] == inbox[..i];
          return i + 1;
        case Deliver(e) =>
          TranscriptAppend(inbox[..i], [inbox[i]], commandsFor);
          assert inbox[..i + 1] == inbox[..i] + [inbox[i]];
          written := written + commandsFor(e);
          i := i + 1;
      }
      assert inbox[..i] == inbox;
      consumed := i;
    }
  }
}
