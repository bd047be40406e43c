/** The exclusion filter of livesyncd.go: a path is excluded when its form
    relative to the sync root matches one of the ignore patterns, tried in
    order until the first match. Glob matching itself belongs to the standard
    library and is a parameter here. */
module Exclusion {
  import opened Paths

  /** What `filepath.Match(pattern, name)` returns: whether the name matched, and
      whether the pattern was malformed. */
  datatype MatchResult = MatchResult(matched: bool, failed: bool)

  type Glob = (string, string) -> MatchResult

  /** The library's own promise: a malformed pattern never reports a match. */
  ghost predicate ReportsNoMatchOnError(glob: Glob) {
    forall p, s :: glob(p, s).failed ==> !glob(p, s).matched
  }

  /** Whether a path is excluded: some pattern matches its root-relative form. */
  function Excluded(root: string, patterns: seq<string>, glob: Glob, name: string): (excluded: bool)
    ensures excluded <==>
            exists i :: 0 <= i < |patterns| && glob(patterns[i], Rel(root, name)).matched
    decreases |patterns|
  {
    if patterns == [] then false
    else if glob(patterns[0], Rel(root, name)).matched then true
    else Excluded(root, patterns[1..], glob, name)
  }

  /** The patterns, among `tried`, whose matching reported an error, in order. */
  function Failures(tried: seq<string>, glob: Glob, rel: string): (bad: seq<string>)
    ensures |bad| <= |tried|
    ensures forall p :: p in bad ==> p in tried && glob(p, rel).failed
    ensures forall i :: 0 <= i < |tried| && glob(tried[i], rel).failed ==> tried[i] in bad
    decreases |tried|
  {
    if tried == [] then []
    else
      var last := tried[|tried| - 1];
      Failures(tried[..|tried| - 1], glob, rel) + (if glob(last, rel).failed then [last] else [])
  }

  /** Each pattern is reported once per time it was tried and failed, and not
      at all when it did not fail. */
  lemma {:induction false} FailuresCounts(tried: seq<string>, glob: Glob, rel: string)
    ensures forall p :: multiset(Failures(tried, glob, rel))[p] ==
              (if glob(p, rel).failed then multiset(tried)[p] else 0)
    decreases |tried|
  {
    if tried != [] {
      var init := tried[..|tried| - 1];
      FailuresCounts(init, glob, rel);
      assert tried == init + [tried[|tried| - 1]];
    }
  }

  /** The reports follow the order of the patterns: the failures among the
      patterns tried first come before those of the patterns tried later. */
  lemma {:induction false} FailuresAppend(a: seq<string>, b: seq<string>, glob: Glob, rel: string)
    ensures Failures(a + b, glob, rel) == Failures(a, glob, rel) + Failures(b, glob, rel)
    decreases |b|
  {
    if b != [] {
      var init := b[..|b| - 1];
      assert (a + b)[..|a + b| - 1] == a + init;
      FailuresAppend(a, init, glob, rel);
    } else {
      assert a + b == a;
    }
  }

  /** A malformed pattern is reported and then skipped like a non-matching one:
      the verdict is the verdict of the patterns after it. */
  lemma FailedPatternSkipped(root: string, patterns: seq<string>, glob: Glob, name: string)
    requires ReportsNoMatchOnError(glob)
    requires patterns != [] && glob(patterns[0], Rel(root, name)).failed
    ensures Excluded(root, patterns, glob, name) == Excluded(root, patterns[1..], glob, name)
  {
  }

  /** The verdict depends only on the first matching pattern: patterns after it
      are never consulted. */
  lemma {:induction false} FirstMatchDecides(root: string, pre: seq<string>, p: string, post: seq<string>, glob: Glob, name: string)
    requires glob(p, Rel(root, name)).matched
    ensures Excluded(root, pre + [p] + post, glob, name)
    ensures Excluded(root, pre + [p] + post, glob, name) == Excluded(root, pre + [p], glob, name)
  {
    var ps := pre + [p] + post;
    assert ps[|pre|] == p;
    assert (pre + [p])[|pre|] == p;
  }

  /** The filter as the daemon runs it: tries the patterns in order, logs each
      malformed one, and stops at the first match. Returns the verdict, how many
      patterns were tried and which of them were reported as malformed. */
  method IsExcluded(root: string, patterns: seq<string>, glob: Glob, name: string)
    returns (excluded: bool, tried: nat, reported: seq<string>)
    ensures excluded == Excluded(root, patterns, glob, name)
    ensures tried <= |patterns|
    ensures excluded ==> tried >= 1
    ensures !excluded ==> tried == |patterns|
    ensures forall i :: 0 <= i < tried ==>
              (glob(patterns[i], Rel(root, name)).matched <==> excluded && i == tried - 1)
    ensures reported == Failures(patterns[..tried], glob, Rel(root, name))
  {
    var rel := Rel(root, name);
    tried, reported := 0, [];
    while tried < |patterns|
      invariant tried <= |patterns|
      invariant forall i :: 0 <= i < tried ==> !glob(patterns[i], rel).matched
      invariant reported == Failures(patterns[..tried], glob, rel)
    {
      var p := patterns[tried];
      var result := glob(p, rel);
      if result.failed {
        reported := reported + [p];
      }
      assert patterns[..tried + 1][..tried] == patterns[..tried];
      tried := tried + 1;
      if result.matched {
        return true, tried, reported;
      }
    }
    return false, tried, reported;
  }
}
