/** The sftp backend of sftp.go: for each sync event, the commands written to
    sftp's standard input, and the dispatch loop that writes them until quit. */
module Sftp {
  import opened Paths
  import opened SyncEvents
  import opened SftpSession

  /** The commands for one sync event: a put creates the parent of its
      root-relative path and then uploads the file there, a delete removes the
      root-relative path, and every other kind (rename included) writes
      nothing. */
  function CommandsFor(root: string, e: SyncEvent): (cmds: seq<Command>)
    ensures |cmds| <= 2
    ensures e.IsPut() <==> |cmds| == 2
    ensures e.IsDelete() <==> |cmds| == 1
    ensures Exit !in cmds
    ensures forall c :: c in cmds ==> c.Put? ==> c.local == e.name
  {
    if e.IsPut() then
      var remote := Rel(root, e.name);
      [Mkdir(Dir(remote)), Put(e.name, remote, false)]
    else if e.IsDelete() then
      [Rm(Rel(root, e.name))]
    else
      []
  }

  /** A put uploads the event's file to its root-relative path, after creating
      that path's parent directory. */
  lemma PutCreatesParentFirst(root: string, e: SyncEvent)
    requires e.IsPut()
    ensures var cmds := CommandsFor(root, e);
      cmds[1] == Put(e.name, Rel(root, e.name), false) &&
      cmds[0] == Mkdir(Dir(cmds[1].remote))
  {
  }

  /** For a file `root/d/f` the parent created is `d`, and the upload goes to
      `d/f`. */
  lemma PutBelowRoot(root: string, e: SyncEvent, d: string, f: string)
    requires e.IsPut()
    requires d != "" && f != "" && Separator !in f
    requires e.name == Join(root, Join(d, f))
    ensures CommandsFor(root, e) == [Mkdir(d), Put(e.name, Join(d, f), false)]
  {
    RelJoin(root, Join(d, f));
    DirJoin(d, f);
  }

  /** For a file directly in the root the parent created is ".". */
  lemma PutTopLevel(root: string, e: SyncEvent, f: string)
    requires e.IsPut()
    requires f != "" && Separator !in f
    requires e.name == Join(root, f)
    ensures CommandsFor(root, e) == [Mkdir("."), Put(e.name, f, false)]
  {
    RelJoin(root, f);
  }

  /** A delete removes exactly the root-relative path, and nothing is uploaded. */
  lemma DeleteRemovesOnly(root: string, e: SyncEvent, rel: string)
    requires e.IsDelete()
    requires rel != "" && e.name == Join(root, rel)
    ensures CommandsFor(root, e) == [Rm(rel)]
  {
    RelJoin(root, rel);
  }

  /** A rename, or any kind other than put and delete, writes nothing. */
  lemma OtherKindsSilent(root: string, e: SyncEvent)
    requires !e.IsPut() && !e.IsDelete()
    ensures CommandsFor(root, e) == []
  {
  }

  function SyncCommands(root: string): SyncEvent -> seq<Command> {
    e => CommandsFor(root, e)
  }

  /** A session of sftp.go: the commands of the events before the quit, in
      order, then a single `exit` as the last command. */
  lemma SyncSessionEndsWithExit(root: string, events: seq<SyncEvent>, later: seq<Msg<SyncEvent>>)
    ensures var inbox := Delivered(events) + [Quit] + later;
      var t := Transcript(inbox, SyncCommands(root));
      t == Flatten(events, SyncCommands(root)) + [Exit] &&
      Exit !in t[..|t| - 1] &&
      Consumed(inbox) == |events| + 1
  {
    forall e ensures Exit !in SyncCommands(root)(e) {
      var _ := CommandsFor(root, e);
    }
    SessionEndsWithExit(events, later, SyncCommands(root));
  }

  /** The backend loop of sftp.go over the messages it receives. */
  method StartSFTPSync(pipe: Pipe, root: string, inbox: seq<Msg<SyncEvent>>) returns (consumed: nat)
    modifies pipe
    ensures pipe.written == old(pipe.written) + Transcript(inbox, SyncCommands(root))
    ensures pipe.acknowledged == (old(pipe.acknowledged) || !NoQuit(inbox))
    ensures consumed == Consumed(inbox)
  {
    consumed := pipe.Serve(inbox, SyncCommands(root));
  }
}
