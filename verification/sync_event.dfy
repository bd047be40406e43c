/** The semantic change event handed to the sync backend, with its integer
    type tag and the three kind tests (sync_event.go). */
module SyncEvents {
  import opened Notify

  const SyncPut: int := 1
  const SyncDelete: int := 2
  const SyncRename: int := 3

  datatype Option<T> = None | Some(value: T)

  /** `kind` is the Go field `Type`; `fileEvent` is the originating raw record,
      absent when the event was built without one. */
  datatype SyncEvent = SyncEvent(
    name: string,
    oldName: string,
    kind: int,
    fileEvent: Option<FileEvent>,
    dir: bool)
  {
    /** A put carries the put tag, so it is neither a delete nor a rename. */
    predicate IsPut()
      ensures IsPut() ==> kind != SyncDelete && kind != SyncRename
    {
      kind == SyncPut
    }

    /** A delete carries the delete tag, so it is neither a put nor a rename. */
    predicate IsDelete()
      ensures IsDelete() ==> kind != SyncPut && kind != SyncRename
    {
      kind == SyncDelete
    }

    /** A rename carries the rename tag, so it is neither a put nor a delete. */
    predicate IsRename()
      ensures IsRename() ==> kind != SyncPut && kind != SyncDelete
    {
      kind == SyncRename
    }
  }

  /** The three tests are named after the three tags and nothing else. */
  lemma KindTags(e: SyncEvent)
    ensures e.IsPut() <==> e.kind == 1
    ensures e.IsDelete() <==> e.kind == 2
    ensures e.IsRename() <==> e.kind == 3
  {
  }

  /** At most one kind test holds for any event. */
  lemma KindsExclusive(e: SyncEvent)
    ensures !(e.IsPut() && e.IsDelete())
    ensures !(e.IsPut() && e.IsRename())
    ensures !(e.IsDelete() && e.IsRename())
  {
  }

  /** An event whose tag is outside {1, 2, 3} passes none of the tests. */
  lemma UnknownKindMatchesNothing(e: SyncEvent)
    requires e.kind !in {SyncPut, SyncDelete, SyncRename}
    ensures !e.IsPut() && !e.IsDelete() && !e.IsRename()
  {
  }

  /** The tests look at the tag only: two events with the same tag agree on
      all three, whatever their names, directory flag or raw record. */
  lemma KindOnlyFromTag(e: SyncEvent, f: SyncEvent)
    requires e.kind == f.kind
    ensures e.IsPut() == f.IsPut()
    ensures e.IsDelete() == f.IsDelete()
    ensures e.IsRename() == f.IsRename()
  {
  }
}
