/** The daemon of livesyncd.go around the watch installer and the exclusion
    filter: the ignore list read from the command line, the gate that keeps
    excluded events from the sync channel, and the first sftp backend, which
    maps raw notification records straight to sftp commands. */
module Livesyncd {
  import opened Paths
  import opened Notify
  import opened Exclusion
  import opened SftpSession

  /** The `--ignore` flag is a comma-separated list of patterns. An empty flag
      gives one empty pattern. */
  function IgnorePatterns(flag: string): (patterns: seq<string>)
    ensures |patterns| >= 1
    ensures forall i :: 0 <= i < |patterns| ==> ',' !in patterns[i]
    ensures JoinAll(patterns, ',') == flag
  {
    JoinSplit(flag, ',');
    Split(flag, ',')
  }

  /** Every comma-free list of patterns can be given on the command line. */
  lemma IgnoreFlagRoundTrip(patterns: seq<string>)
    requires |patterns| >= 1
    requires forall i :: 0 <= i < |patterns| ==> ',' !in patterns[i]
    ensures IgnorePatterns(JoinAll(patterns, ',')) == patterns
  {
    SplitJoin(patterns, ',');
  }

  /** Without `--ignore` nothing below the root is excluded, given that an empty
      glob pattern matches only the empty name. */
  lemma DefaultIgnoreExcludesNothing(root: string, glob: Glob, rel: string)
    requires forall s :: glob("", s).matched ==> s == ""
    requires rel != ""
    ensures !Excluded(root, IgnorePatterns(""), glob, Join(root, rel))
  {
    assert IgnorePatterns("") == [""];
    RelJoin(root, rel);
  }

  /** The gate in front of the sync channel: an excluded event is dropped, any
      other is sent on. */
  function Gate(root: string, patterns: seq<string>, glob: Glob, ev: FileEvent): (sent: seq<FileEvent>)
    ensures |sent| <= 1
    ensures sent == [] <==> Excluded(root, patterns, glob, ev.name)
    ensures forall e :: e in sent ==> e == ev
  {
    if Excluded(root, patterns, glob, ev.name) then [] else [ev]
  }

  /** The events that reach the sync channel out of a series of raw records:
      exactly the records whose path is not excluded (`ForwardedCounts` adds
      that each is sent as often as it was recorded). */
  function Forwarded(root: string, patterns: seq<string>, glob: Glob, events: seq<FileEvent>): (sent: seq<FileEvent>)
    ensures forall e :: e in sent <==> e in events && !Excluded(root, patterns, glob, e.name)
    decreases |events|
  {
    if events == [] then []
    else Gate(root, patterns, glob, events[0]) + Forwarded(root, patterns, glob, events[1..])
  }

  /** Each record that passes the gate reaches the sync channel once per time
      it was recorded, and an excluded one never does. */
  lemma {:induction false} ForwardedCounts(root: string, patterns: seq<string>, glob: Glob, events: seq<FileEvent>)
    ensures forall e :: multiset(Forwarded(root, patterns, glob, events))[e] ==
              (if Excluded(root, patterns, glob, e.name) then 0 else multiset(events)[e])
    decreases |events|
  {
    if events != [] {
      ForwardedCounts(root, patterns, glob, events[1..]);
      assert events == [events[0]] + events[1..];
    }
  }

  /** The commands for one raw record: a created or modified path is uploaded
      (recursively, with its attributes) to its root-relative path; otherwise a
      deleted or renamed path is removed there; a record with none of these
      flags writes nothing. */
  function CommandsFor(root: string, ev: FileEvent): (cmds: seq<Command>)
    ensures |cmds| <= 1
    ensures cmds == [] <==> !(ev.IsCreate() || ev.IsModify() || ev.IsDelete() || ev.IsRename())
    ensures Exit !in cmds
  {
    if ev.IsModify() || ev.IsCreate() then
      [Put(ev.name, Rel(root, ev.name), true)]
    else if ev.IsDelete() || ev.IsRename() then
      [Rm(Rel(root, ev.name))]
    else
      []
  }

  /** A created or modified path is uploaded once, even when the same record
      also says deleted or renamed. */
  lemma CreateOrModifyUploads(root: string, ev: FileEvent, rel: string)
    requires ev.IsCreate() || ev.IsModify()
    requires rel != "" && ev.name == Join(root, rel)
    ensures CommandsFor(root, ev) == [Put(ev.name, rel, true)]
  {
    RelJoin(root, rel);
  }

  /** A deleted or renamed path that was neither created nor modified is
      removed once and never uploaded. */
  lemma DeleteOrRenameRemoves(root: string, ev: FileEvent, rel: string)
    requires ev.IsDelete() || ev.IsRename()
    requires !ev.IsCreate() && !ev.IsModify()
    requires rel != "" && ev.name == Join(root, rel)
    ensures CommandsFor(root, ev) == [Rm(rel)]
  {
    RelJoin(root, rel);
  }

  /** An event on the sync root itself names the whole tree: a create or modify
      uploads everything below the root, a delete or rename removes `.`. */
  lemma RootEventTouchesWholeTree(root: string, ev: FileEvent)
    requires ev.name == root
    ensures ev.IsCreate() || ev.IsModify() ==> CommandsFor(root, ev) == [Put(root, ".", true)]
    ensures !ev.IsCreate() && !ev.IsModify() && (ev.IsDelete() || ev.IsRename()) ==>
              CommandsFor(root, ev) == [Rm(".")]
  {
  }

  /** An excluded record leads to no command, whatever its flags. */
  lemma ExcludedWritesNothing(root: string, patterns: seq<string>, glob: Glob, ev: FileEvent)
    requires Excluded(root, patterns, glob, ev.name)
    ensures Transcript(Delivered(Gate(root, patterns, glob, ev)), FileCommands(root)) == []
  {
  }

  /** A record that passes the gate leads to exactly its own commands. */
  lemma {:induction false} AdmittedWritesItsCommands(root: string, patterns: seq<string>, glob: Glob, ev: FileEvent)
    requires !Excluded(root, patterns, glob, ev.name)
    ensures Transcript(Delivered(Gate(root, patterns, glob, ev)), FileCommands(root)) == CommandsFor(root, ev)
  {
    var inbox := Delivered(Gate(root, patterns, glob, ev));
    assert inbox == [Deliver(ev)];
    assert inbox[1..] == [];
  }

  function FileCommands(root: string): FileEvent -> seq<Command> {
    ev => CommandsFor(root, ev)
  }

  /** A session of livesyncd.go's backend: the commands of the forwarded
      records in order, then a single `exit` as the last command. */
  lemma FileSessionEndsWithExit(root: string, events: seq<FileEvent>, later: seq<Msg<FileEvent>>)
    ensures var inbox := Delivered(events) + [Quit] + later;
      var t := Transcript(inbox, FileCommands(root));
      t == Flatten(events, FileCommands(root)) + [Exit] &&
      Exit !in t[..|t| - 1] &&
      Consumed(inbox) == |events| + 1
  {
    forall ev ensures Exit !in FileCommands(root)(ev) {
      var _ := CommandsFor(root, ev);
    }
    SessionEndsWithExit(events, later, FileCommands(root));
  }

  /** A worked case: with root `/sync` and the single pattern `*.tmp`, creating
      `/sync/a.txt` uploads `a.txt` once and creating `/sync/a.tmp` writes
      nothing. */
  lemma CreateWithTmpIgnored(glob: Glob)
    requires glob("*.tmp", "a.tmp").matched && !glob("*.tmp", "a.txt").matched
    ensures var patterns := IgnorePatterns("*.tmp");
      var txt := FileEvent("/sync/a.txt", true, false, false, false);
      var tmp := FileEvent("/sync/a.tmp", true, false, false, false);
      Transcript(Delivered(Forwarded("/sync", patterns, glob, [txt, tmp])), FileCommands("/sync"))
        == [Put("/sync/a.txt", "a.txt", true)]
  {
    var patterns := IgnorePatterns("*.tmp");
    var txt := FileEvent("/sync/a.txt", true, false, false, false);
    var tmp := FileEvent("/sync/a.tmp", true, false, false, false);
    TmpVerdicts(glob);
    ForwardedPair("/sync", patterns, glob, txt, tmp);
    assert Forwarded("/sync", patterns, glob, [txt, tmp]) == [txt];
    DeliveredTranscript([txt], FileCommands("/sync"));
  }

  /** Two records are gated one after the other. */
  lemma ForwardedPair(root: string, patterns: seq<string>, glob: Glob, a: FileEvent, b: FileEvent)
    ensures Forwarded(root, patterns, glob, [a, b]) == Gate(root, patterns, glob, a) + Gate(root, patterns, glob, b)
  {
    assert [a, b][1..] == [b];
    assert [b][1..] == [];
    assert Forwarded(root, patterns, glob, [b]) == Gate(root, patterns, glob, b) + [];
  }

  /** The verdicts of the worked case: `a.txt` passes the `*.tmp` filter and
      `a.tmp` does not. */
  lemma TmpVerdicts(glob: Glob)
    requires glob("*.tmp", "a.tmp").matched && !glob("*.tmp", "a.txt").matched
    ensures !Excluded("/sync", IgnorePatterns("*.tmp"), glob, "/sync/a.txt")
    ensures Excluded("/sync", IgnorePatterns("*.tmp"), glob, "/sync/a.tmp")
  {
    SplitNoSeparator("*.tmp", ',');
    assert IgnorePatterns("*.tmp") == ["*.tmp"];
    RelJoin("/sync", "a.txt");
    RelJoin("/sync", "a.tmp");
    assert Join("/sync", "a.txt") == "/sync/a.txt";
    assert Join("/sync", "a.tmp") == "/sync/a.tmp";
  }

  /** The backend loop of livesyncd.go over the messages it receives. */
  method SFTPSync(pipe: Pipe, root: string, inbox: seq<Msg<FileEvent>>) returns (consumed: nat)
    modifies pipe
    ensures pipe.written == old(pipe.written) + Transcript(inbox, FileCommands(root))
    ensures pipe.acknowledged == (old(pipe.acknowledged) || !NoQuit(inbox))
    ensures consumed == Consumed(inbox)
  {
    consumed := pipe.Serve(inbox, FileCommands(root));
  }
}
