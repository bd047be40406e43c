/** Path and string helpers that the daemon borrows from Go's standard library
    (`filepath.Rel`, `filepath.Dir`, `filepath.Join`, `strings.HasPrefix`,
    `strings.Split`), reduced to the plain forms the daemon relies on:
    `/`-separated paths that are already clean. */
module Paths {

  const Separator: char := '/'

  predicate HasPrefix(s: string, prefix: string) {
    |prefix| <= |s| && s[..|prefix|] == prefix
  }

  /** `filepath.Join(dir, name)` for a clean directory and a single entry name. */
  function Join(dir: string, name: string): (p: string)
    ensures |p| == |dir| + 1 + |name|
    ensures HasPrefix(p, dir + [Separator])
    ensures p[|dir| + 1..] == name
  {
    dir + [Separator] + name
  }

  /** `filepath.Rel(root, name)` for a name at or below the root: the root itself
      becomes ".", a name below it loses the `root + "/"` prefix. A name outside
      the root is returned unchanged. */
  function Rel(root: string, name: string): (rel: string)
    ensures name == root ==> rel == "."
    ensures name != root && HasPrefix(name, root + [Separator]) ==>
              root + [Separator] + rel == name
  {
    if name == root then "."
    else if HasPrefix(name, root + [Separator]) then name[|root| + 1..]
    else name
  }

  /** Rel undoes Join: the path of an entry below the root, made relative to the
      root again, is the entry's relative name. */
  lemma RelJoin(root: string, rel: string)
    requires rel != ""
    ensures Rel(root, Join(root, rel)) == rel
  {
    var p := Join(root, rel);
    assert p != root by { assert |p| > |root|; }
    assert p[..|root| + 1] == root + [Separator];
    assert p[|root| + 1..] == rel;
  }

  /** Index of the last separator in `p`, if any. */
  function LastSeparator(p: string): (i: int)
    ensures -1 <= i < |p|
    ensures i >= 0 ==> p[i] == Separator
    ensures forall j :: i < j < |p| ==> p[j] != Separator
  {
    if p == [] then -1
    else if p[|p| - 1] == Separator then |p| - 1
    else LastSeparator(p[..|p| - 1])
  }

  /** `filepath.Dir(p)` for a clean path: everything before the last separator;
      "." when there is none, "/" when the only separator leads the path. */
  function Dir(p: string): (d: string)
    ensures Separator !in p ==> d == "."
    ensures Separator in p && d != [Separator] ==> HasPrefix(p, d + [Separator])
    ensures LastSeparator(p) == 0 ==> d == [Separator]
  {
    var i := LastSeparator(p);
    if i < 0 then "."
    else if i == 0 then [Separator]
    else p[..i]
  }

  /** Dir undoes Join: the parent of `dir/name` is `dir` when the name is a single
      path element. */
  lemma DirJoin(dir: string, name: string)
    requires dir != ""
    requires Separator !in name
    ensures Dir(Join(dir, name)) == dir
  {
    var p := Join(dir, name);
    assert p[|dir|] == Separator;
    var i := LastSeparator(p);
    assert i == |dir|;
    assert p[..i] == dir;
  }

  /** `strings.Split(s, string(sep))`: the pieces of `s` between occurrences of
      `sep`; an empty string splits into one empty piece. */
  function Split(s: string, sep: char): (parts: seq<string>)
    ensures |parts| >= 1
    ensures forall i :: 0 <= i < |parts| ==> sep !in parts[i]
    decreases |s|
  {
    if s == [] then [""]
    else
      var rest := Split(s[1..], sep);
      if s[0] == sep then [""] + rest
      else [[s[0]] + rest[0]] + rest[1..]
  }

  /** `strings.Join(parts, string(sep))`, the inverse of Split. */
  function JoinAll(parts: seq<string>, sep: char): string
    decreases |parts|
  {
    if parts == [] then ""
    else if |parts| == 1 then parts[0]
    else parts[0] + [sep] + JoinAll(parts[1..], sep)
  }

  /** Joining the pieces of a split gives back the original string. */
  lemma {:induction false} JoinSplit(s: string, sep: char)
    ensures JoinAll(Split(s, sep), sep) == s
    decreases |s|
  {
    if s != [] {
      var rest := Split(s[1..], sep);
      JoinSplit(s[1..], sep);
      if s[0] == sep {
        assert Split(s, sep) == [""] + rest;
        assert ([""] + rest)[1..] == rest;
      } else {
        var parts := [[s[0]] + rest[0]] + rest[1..];
        assert Split(s, sep) == parts;
        if |rest| == 1 {
          assert JoinAll(parts, sep) == [s[0]] + rest[0];
        } else {
          assert parts[1..] == rest[1..];
          assert JoinAll(parts, sep) == [s[0]] + rest[0] + [sep] + JoinAll(rest[1..], sep);
          assert JoinAll(rest, sep) == rest[0] + [sep] + JoinAll(rest[1..], sep);
        }
        assert [s[0]] + s[1..] == s;
      }
    }
  }

  /** A string without the separator is a single piece. */
  lemma {:induction false} SplitNoSeparator(w: string, sep: char)
    requires sep !in w
    ensures Split(w, sep) == [w]
    decreases |w|
  {
    if w != [] {
      SplitNoSeparator(w[1..], sep);
      assert [w[0]] + w[1..] == w;
    }
  }

  /** A first piece without the separator, followed by the separator, is split
      off on its own. */
  lemma {:induction false} SplitAfterPiece(w: string, t: string, sep: char)
    requires sep !in w
    ensures Split(w + [sep] + t, sep) == [w] + Split(t, sep)
    decreases |w|
  {
    var s := w + [sep] + t;
    if w == [] {
      assert s[0] == sep && s[1..] == t;
    } else {
      assert s[1..] == w[1..] + [sep] + t;
      SplitAfterPiece(w[1..], t, sep);
      assert [w[0]] + w[1..] == w;
    }
  }

  /** Splitting a join of separator-free pieces gives back the pieces. */
  lemma {:induction false} SplitJoin(parts: seq<string>, sep: char)
    requires |parts| >= 1
    requires forall i :: 0 <= i < |parts| ==> sep !in parts[i]
    ensures Split(JoinAll(parts, sep), sep) == parts
    decreases |parts|
  {
    if |parts| == 1 {
      SplitNoSeparator(parts[0], sep);
    } else {
      SplitJoin(parts[1..], sep);
      SplitAfterPiece(parts[0], JoinAll(parts[1..], sep), sep);
      assert [parts[0]] + parts[1..] == parts;
    }
  }
}
