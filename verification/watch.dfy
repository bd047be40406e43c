/** The recursive watch installer of livesyncd.go: a depth-first walk that
    registers a watch on every directory it can list and descends into every
    sub-directory whose name does not start with ".". The file system is an
    immutable tree; the watcher records the directories it was asked to watch,
    in call order. */
module Watching {
  import opened Paths

  /** A directory entry as the walk sees it: its name, whether it is a
      directory, whether listing it succeeds, and the entries listing it
      returns, in listing order. */
  datatype Entry = Entry(name: string, isDir: bool, readable: bool, children: seq<Entry>)

  /** Listing the entry succeeds: it is a directory the process may read. */
  predicate Lists(n: Entry)
    ensures Lists(n) ==> n.isDir
  {
    n.isDir && n.readable
  }

  /** The walk descends into an entry: a directory whose name is not hidden. */
  predicate Descends(c: Entry)
    ensures Descends(c) ==> c.isDir && (c.name == "" || c.name[0] != '.')
  {
    c.isDir && !HasPrefix(c.name, ".")
  }

  /** The directories passed to `Watch` by a walk from `dir`, whose entry is `n`, in the
      order of registration. */
  function Watches(dir: string, n: Entry): (w: seq<string>)
    ensures !Lists(n) ==> w == []
    ensures Lists(n) ==> |w| >= 1 && w[0] == dir
    decreases n, |n.children| + 1
  {
    if !Lists(n) then [] else [dir] + ChildWatches(dir, n, |n.children|)
  }

  /** The directories passed to `Watch` below `dir` by the first `k` entries of `n`. */
  function ChildWatches(dir: string, n: Entry, k: nat): seq<string>
    requires k <= |n.children|
    decreases n, k
  {
    if k == 0 then []
    else
      var c := n.children[k - 1];
      ChildWatches(dir, n, k - 1) + (if Descends(c) then Watches(Join(dir, c.name), c) else [])
  }

  /** The count the walk reports: 0 for an entry it cannot list, otherwise one
      for the entry itself plus the counts of the sub-directories it descends
      into. */
  function Count(n: Entry): (k: nat)
    ensures !Lists(n) ==> k == 0
    ensures Lists(n) ==> k >= 1
    decreases n, |n.children| + 1
  {
    if !Lists(n) then 0 else 1 + ChildCount(n, |n.children|)
  }

  function ChildCount(n: Entry, k: nat): nat
    requires k <= |n.children|
    decreases n, k
  {
    if k == 0 then 0
    else
      var c := n.children[k - 1];
      ChildCount(n, k - 1) + (if Descends(c) then Count(c) else 0)
  }

  /** The reported count is the number of `Watch` calls made. */
  lemma {:induction false} CountIsWatchCount(dir: string, n: Entry)
    ensures Count(n) == |Watches(dir, n)|
    decreases n, |n.children| + 1
  {
    if Lists(n) {
      ChildCountIsWatchCount(dir, n, |n.children|);
    }
  }

  lemma {:induction false} ChildCountIsWatchCount(dir: string, n: Entry, k: nat)
    requires k <= |n.children|
    ensures ChildCount(n, k) == |ChildWatches(dir, n, k)|
    decreases n, k
  {
    if k > 0 {
      var c := n.children[k - 1];
      ChildCountIsWatchCount(dir, n, k - 1);
      if Descends(c) {
        CountIsWatchCount(Join(dir, c.name), c);
      }
    }
  }

  /** Independent description of the watched set: `p` is watched by a walk from
      `dir` when the entry can be listed and `p` is `dir` itself, or `p` is
      watched by the walk from one of its non-hidden sub-directories. */
  ghost predicate Reaches(dir: string, n: Entry, p: string)
    decreases n
  {
    Lists(n) &&
    (p == dir ||
     exists i :: 0 <= i < |n.children| && Descends(n.children[i]) &&
                 Reaches(Join(dir, n.children[i].name), n.children[i], p))
  }

  /** The walk registers exactly the listable directories reachable through
      non-hidden directory names. */
  lemma {:induction false} WatchesExactlyReached(dir: string, n: Entry, p: string)
    ensures p in Watches(dir, n) <==> Reaches(dir, n, p)
    decreases n, |n.children| + 1
  {
    if Lists(n) {
      ChildWatchesReached(dir, n, |n.children|, p);
    }
  }

  lemma {:induction false} ChildWatchesReached(dir: string, n: Entry, k: nat, p: string)
    requires k <= |n.children|
    ensures p in ChildWatches(dir, n, k) <==>
            exists i :: 0 <= i < k && Descends(n.children[i]) &&
                        Reaches(Join(dir, n.children[i].name), n.children[i], p)
    decreases n, k
  {
    if k > 0 {
      var c := n.children[k - 1];
      ChildWatchesReached(dir, n, k - 1, p);
      if Descends(c) {
        WatchesExactlyReached(Join(dir, c.name), c, p);
      }
    }
  }

  /** Every watched path is the starting directory or lies below it. */
  lemma {:induction false} WatchedBelowStart(dir: string, n: Entry, p: string)
    requires p in Watches(dir, n)
    ensures p == dir || HasPrefix(p, dir + [Separator])
  {
    WatchesExactlyReached(dir, n, p);
    ReachedBelow(dir, n, p);
  }

  lemma {:induction false} ReachedBelow(dir: string, n: Entry, p: string)
    requires Reaches(dir, n, p)
    ensures p == dir || HasPrefix(p, dir + [Separator])
    decreases n
  {
    if p != dir {
      var i :| 0 <= i < |n.children| && Descends(n.children[i]) &&
               Reaches(Join(dir, n.children[i].name), n.children[i], p);
      var sub := Join(dir, n.children[i].name);
      ReachedBelow(sub, n.children[i], p);
      assert HasPrefix(sub, dir + [Separator]);
      if p != sub {
        assert p[..|dir| + 1] == p[..|sub| + 1][..|dir| + 1];
      }
    }
  }

  /** What lies in a skipped entry (a plain file, or a directory with a hidden
      name) never matters: replacing it by any other skipped entry leaves the
      `Watch` calls and the count unchanged. */
  lemma {:induction false} SkippedEntryIgnored(dir: string, n: Entry, i: nat, other: Entry)
    requires i < |n.children|
    requires !Descends(n.children[i]) && !Descends(other)
    ensures Watches(dir, n.(children := n.children[i := other])) == Watches(dir, n)
    ensures Count(n.(children := n.children[i := other])) == Count(n)
  {
    var m := n.(children := n.children[i := other]);
    SkippedEntryIgnoredUpTo(dir, n, m, i, |n.children|);
  }

  lemma {:induction false} SkippedEntryIgnoredUpTo(dir: string, n: Entry, m: Entry, i: nat, k: nat)
    requires i < |n.children| && k <= |n.children|
    requires |m.children| == |n.children| && m.children == n.children[i := m.children[i]]
    requires !Descends(n.children[i]) && !Descends(m.children[i])
    ensures ChildWatches(dir, m, k) == ChildWatches(dir, n, k)
    ensures ChildCount(m, k) == ChildCount(n, k)
    decreases k
  {
    if k > 0 {
      SkippedEntryIgnoredUpTo(dir, n, m, i, k - 1);
    }
  }

  /** The watcher: the directories passed to `Watch`, in call order; a call the
      notification library rejects is still recorded, as the daemon ignores
      that error.
      Registration of the same directory twice is harmless in the notification
      library, so repeated entries are kept as they were asked for. */
  class Watcher {
    var watched: seq<string>

    constructor ()
      ensures watched == []
    {
      watched := [];
    }

    /** Asks for a watch on one directory. */
    method Watch(dir: string)
      modifies this
      ensures watched == old(watched) + [dir]
    {
      watched := watched + [dir];
    }

    /** The walk: a directory that cannot be listed is skipped with 0 (its
        error is only logged); otherwise it is watched first, then each entry
        that is a non-hidden directory is walked in listing order, and the
        returned count adds up the counts of those walks. */
    method AddWatchesRecursive(dir: string, n: Entry) returns (count: nat)
      modifies this
      ensures watched == old(watched) + Watches(dir, n)
      ensures count == Count(n)
      decreases n
    {
      if !Lists(n) {
        return 0;
      }
      Watch(dir);
      count := 1;
      var i := 0;
      while i < |n.children|
        invariant 0 <= i <= |n.children|
        invariant watched == old(watched) + [dir] + ChildWatches(dir, n, i)
        invariant count == 1 + ChildCount(n, i)
      {
        var c := n.children[i];
        if c.isDir && !HasPrefix(c.name, ".") {
          var k := AddWatchesRecursive(Join(dir, c.name), c);
          count := count + k;
        }
        i := i + 1;
      }
    }
  }
}
