/** Absolute paths as sequences of components, and the part of `PathBuf::join`
    that the package manager relies on when it builds paths from strings. */
module Paths {

  /** An absolute path: the components below the filesystem root `/`. */
  type Path = seq<string>

  /** A string that `join` appends as exactly one new component and that the
      operating system does not resolve specially (`.` and `..`). */
  predicate IsComponent(s: string) {
    s != "" && s != "." && s != ".." && '/' !in s
  }

  /** Position of the first `/` in `s`, or `|s|` when there is none. */
  function SepIndex(s: string): (i: nat)
    ensures i <= |s|
    ensures forall j :: 0 <= j < i ==> s[j] != '/'
    ensures i < |s| ==> s[i] == '/'
  {
    if s == [] || s[0] == '/' then 0 else 1 + SepIndex(s[1..])
  }

  /** The normal components of a path string: the pieces between separators,
      without the empty pieces of repeated or trailing separators and without
      the `.` pieces, which `std::path::Path::components` normalises away. */
  function Components(s: string): (parts: seq<string>)
    ensures forall k :: 0 <= k < |parts| ==> parts[k] != "" && parts[k] != "." && '/' !in parts[k]
    decreases |s|
  {
    if s == [] then []
    else
      var i := SepIndex(s);
      var head := s[..i];
      var rest := if i < |s| then s[i + 1..] else [];
      assert forall j :: 0 <= j < |head| ==> head[j] != '/';
      (if head == "" || head == "." then [] else [head]) + Components(rest)
  }

  /** A string without separators is one component. */
  lemma SingleComponent(c: string)
    ensures IsComponent(c) ==> Components(c) == [c]
  {
    if IsComponent(c) {
      var i := SepIndex(c);
      assert c[..i] == c;
    }
  }

  /** A component followed by a separator is split off in front of the rest. */
  lemma ComponentThenRest(c: string, rest: string)
    requires IsComponent(c)
    ensures Components(c + "/" + rest) == [c] + Components(rest)
  {
    var s := c + "/" + rest;
    var i := SepIndex(s);
    assert s[|c|] == '/';
    assert i == |c|;
    assert s[..i] == c;
    assert s[i + 1..] == rest;
  }

  /** Components written out with a separator between consecutive ones. */
  function Joined(parts: seq<string>): string {
    if |parts| == 0 then ""
    else if |parts| == 1 then parts[0]
    else parts[0] + "/" + Joined(parts[1..])
  }

  /** Splitting a string written out from components gives those components back. */
  lemma {:induction false} ComponentsOfJoined(parts: seq<string>)
    requires forall k :: 0 <= k < |parts| ==> IsComponent(parts[k])
    ensures Components(Joined(parts)) == parts
    decreases |parts|
  {
    if |parts| == 1 {
      SingleComponent(parts[0]);
    } else if |parts| > 1 {
      ComponentsOfJoined(parts[1..]);
      ComponentThenRest(parts[0], Joined(parts[1..]));
      assert [parts[0]] + parts[1..] == parts;
    }
  }

  /** `PathBuf::join` with a string: an absolute string replaces the base, a
      relative one is appended component by component. A single component is
      appended as it is, which is what splitting it would give. */
  function Join(base: Path, s: string): (p: Path)
    ensures IsComponent(s) ==> p == base + [s]
  {
    if IsComponent(s) then base + [s]
    else if |s| > 0 && s[0] == '/' then Components(s)
    else base + Components(s)
  }

  /** `p` is `dir` itself or lies somewhere below it. */
  predicate IsUnder(dir: Path, p: Path) {
    dir <= p
  }

  /** The non-empty prefixes of `p`: every directory on the way down to `p`,
      and `p` itself. */
  function Prefixes(p: Path): (ps: set<Path>)
    ensures p != [] ==> p in ps
    ensures forall q :: q in ps ==> q != [] && IsUnder(q, p)
  {
    assert p[..|p|] == p;
    set i | 1 <= i <= |p| :: p[..i]
  }
}
