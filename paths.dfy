/** POSIX paths as `pathlib.PurePosixPath` keeps them: an absolute flag and the
    list of components, already normalised (no empty and no "." components). */
module Paths {
  import opened Base

  datatype PathRec = PathRec(absolute: bool, parts: seq<string>)

  predicate ValidPart(s: string)
  {
    s != "" && s != "." && '/' !in s
  }

  predicate ValidPath(p: PathRec)
  {
    forall i :: 0 <= i < |p.parts| ==> p.parts[i] != "" && p.parts[i] != "." && '/' !in p.parts[i]
  }

  /** Every `Path` object is normalised; the subset type carries that. */
  type Path = p: PathRec | ValidPath(p) witness PathRec(false, [])

  const Root: Path := PathRec(true, [])

  /** `Path(name)` for one component. */
  function Leaf(name: string): Path
    requires ValidPart(name)
  {
    PathRec(false, [name])
  }

  /** `p / q`: joining an absolute path discards the left operand. */
  function Join(p: Path, q: Path): (r: Path)
    ensures !q.absolute ==> r.absolute == p.absolute && r.parts == p.parts + q.parts
    ensures q.absolute ==> r == q
  {
    if q.absolute then q else PathRec(p.absolute, p.parts + q.parts)
  }

  /** `p.parent`; the root and the empty relative path are their own parents. */
  function Parent(p: Path): (r: Path)
    ensures r.absolute == p.absolute
    ensures p.parts != [] ==> r.parts + [p.parts[|p.parts| - 1]] == p.parts
  {
    if p.parts == [] then p else PathRec(p.absolute, p.parts[..|p.parts| - 1])
  }

  /** `p.name`: the last component, or "" for the root and ".". */
  function Name(p: Path): string
  {
    if p.parts == [] then "" else p.parts[|p.parts| - 1]
  }

  /** `p.suffix`: from the last '.' of the name, unless the dot is its first
      or last character. */
  function Suffix(p: Path): (r: string)
    ensures r != "" ==> r[0] == '.'
  {
    var name := Name(p);
    var i := LastIndexOf(name, '.');
    if 0 < i < |name| - 1 then name[i..] else ""
  }

  /** Index of the last occurrence of `c`, or -1. */
  function LastIndexOf(s: string, c: char): (i: int)
    ensures -1 <= i < |s|
    ensures i >= 0 ==> s[i] == c && forall j :: i < j < |s| ==> s[j] != c
    ensures i == -1 ==> c !in s
  {
    if |s| == 0 then -1
    else if s[|s| - 1] == c then |s| - 1
    else LastIndexOf(s[..|s| - 1], c)
  }

  /** `base` is `p` itself or one of `p.parents`. */
  predicate IsUnder(p: Path, base: Path)
  {
    p.absolute == base.absolute && base.parts <= p.parts
  }

  /** `p.relative_to(base)`; None where Python raises ValueError. */
  function RelativeTo(p: Path, base: Path): (r: Option<Path>)
    ensures r.Some? <==> IsUnder(p, base)
    ensures r.Some? ==> !r.value.absolute && base.parts + r.value.parts == p.parts
  {
    if IsUnder(p, base) then Some(PathRec(false, p.parts[|base.parts|..])) else None
  }

  /** `str(p)`, which is also `p.as_posix()` on POSIX. */
  function Str(p: Path): string
  {
    if p.absolute then "/" + JoinParts(p.parts)
    else if p.parts == [] then "."
    else JoinParts(p.parts)
  }

  function JoinParts(parts: seq<string>): string
  {
    if |parts| == 0 then ""
    else if |parts| == 1 then parts[0]
    else parts[0] + "/" + JoinParts(parts[1..])
  }

  /** `s.split("/")`. */
  function Split(s: string): (r: seq<string>)
    ensures |r| >= 1
    ensures forall i :: 0 <= i < |r| ==> '/' !in r[i]
  {
    if |s| == 0 then [""]
    else
      var rest := Split(s[1..]);
      if s[0] == '/' then [""] + rest
      else [[s[0]] + rest[0]] + rest[1..]
  }

  /** The components `Path(s)` keeps: empty and "." pieces are dropped. */
  function Components(pieces: seq<string>): (r: seq<string>)
    requires forall i :: 0 <= i < |pieces| ==> '/' !in pieces[i]
    ensures forall i :: 0 <= i < |r| ==> ValidPart(r[i])
  {
    if |pieces| == 0 then []
    else if pieces[0] == "" || pieces[0] == "." then Components(pieces[1..])
    else [pieces[0]] + Components(pieces[1..])
  }

  /** `PurePosixPath(s)`. (A leading "//", which POSIX keeps distinct, is read as "/".) */
  function Parse(s: string): (p: Path)
    ensures p.absolute <==> (|s| > 0 && s[0] == '/')
  {
    PathRec(|s| > 0 && s[0] == '/', Components(Split(s)))
  }

  lemma {:induction false} SplitNoSlash(a: string)
    requires '/' !in a
    ensures Split(a) == [a]
  {
    if |a| > 0 {
      SplitNoSlash(a[1..]);
      assert [a[0]] + a[1..] == a;
    }
  }

  lemma {:induction false} SplitSlash(a: string, b: string)
    requires '/' !in a
    ensures Split(a + "/" + b) == [a] + Split(b)
  {
    if |a| == 0 {
      assert a + "/" + b == "/" + b;
      assert ("/" + b)[1..] == b;
    } else {
      assert (a + "/" + b)[1..] == a[1..] + "/" + b;
      SplitSlash(a[1..], b);
      assert [a[0]] + a[1..] == a;
    }
  }

  /** Splitting the joined text gives the components back. */
  lemma {:induction false} SplitJoinParts(parts: seq<string>)
    requires |parts| >= 1
    requires forall i :: 0 <= i < |parts| ==> '/' !in parts[i]
    ensures Split(JoinParts(parts)) == parts
  {
    if |parts| == 1 {
      SplitNoSlash(parts[0]);
    } else {
      SplitJoinParts(parts[1..]);
      SplitSlash(parts[0], JoinParts(parts[1..]));
      assert [parts[0]] + parts[1..] == parts;
    }
  }

  lemma {:induction false} ComponentsOfValid(parts: seq<string>)
    requires ValidPath(PathRec(false, parts))
    ensures Components(parts) == parts
  {
    if |parts| > 0 {
      ComponentsOfValid(parts[1..]);
      assert [parts[0]] + parts[1..] == parts;
    }
  }

  /** `Path(str(p)) == p`: the text form of a path determines it. */
  lemma {:induction false} ParseStr(p: Path)
    ensures Parse(Str(p)) == p
  {
    var s := Str(p);
    if p.absolute {
      if p.parts == [] {
        assert s == "/";
        assert Split(s) == ["", ""];
      } else {
        SplitJoinParts(p.parts);
        assert s == "/" + JoinParts(p.parts);
        assert s[1..] == JoinParts(p.parts);
        assert Split(s) == [""] + p.parts;
        ComponentsOfValid(p.parts);
      }
    } else if p.parts == [] {
      assert s == ".";
      assert Split(s) == ["."] by { SplitNoSlash(s); }
    } else {
      SplitJoinParts(p.parts);
      ComponentsOfValid(p.parts);
      assert p.parts[0] != "" && '/' !in p.parts[0];
      assert Split(s) == p.parts;
      JoinPartsHead(p.parts);
    }
  }

  /** A joined text of valid components starts with the first component's first character. */
  lemma {:induction false} JoinPartsHead(parts: seq<string>)
    requires |parts| >= 1 && parts[0] != ""
    ensures |JoinParts(parts)| > 0 && JoinParts(parts)[0] == parts[0][0]
  {
  }

  /** `p.relative_to(base)` followed by `base / rel` gives `p` back. */
  lemma RelativeToJoin(p: Path, base: Path)
    requires IsUnder(p, base)
    ensures Join(base, RelativeTo(p, base).value) == p
  {
    var rel := RelativeTo(p, base).value;
    assert base.parts + rel.parts == p.parts;
  }

  /** `(base / rel).relative_to(base)` gives a relative `rel` back. */
  lemma JoinRelativeTo(base: Path, rel: Path)
    requires !rel.absolute
    ensures RelativeTo(Join(base, rel), base) == Some(rel)
  {
    var j := Join(base, rel);
    assert j.parts[|base.parts|..] == rel.parts;
  }
}
