/** Finding input images and pipeline outputs in a directory tree. The walk
    (`rglob("*")`) is an input: the entries it yields, each with whether it
    is a regular file. Results are deduplicated and sorted as `sorted()` sorts
    paths. */
module Discovery {
  import opened Paths
  import opened Text
  import State

  datatype Entry = Entry(path: Path, isFile: bool)

  const EXCLUDED_PREFIXES: seq<string> := ["fits_"]
  const FITS_FILES: set<string> := {State.FITS_ARRAY_NAME, State.FITS_MASK_NAME}

  /** Python's `<` on `str`: code point by code point, a proper prefix first. */
  predicate StrLess(a: string, b: string)
    decreases |a|
  {
    |b| > 0 && (|a| == 0 || a[0] < b[0] || (a[0] == b[0] && StrLess(a[1..], b[1..])))
  }

  /** Python's `<` on lists of `str`. */
  predicate PartsLess(a: seq<string>, b: seq<string>)
    decreases |a|
  {
    |b| > 0 && (|a| == 0 || StrLess(a[0], b[0]) || (a[0] == b[0] && PartsLess(a[1..], b[1..])))
  }

  /** What `PurePosixPath` compares: `str(p).split("/")`. */
  function SortKey(p: Path): seq<string>
  {
    if p.absolute then [""] + p.parts
    else if p.parts == [] then ["."]
    else p.parts
  }

  predicate PathLess(p: Path, q: Path)
  {
    PartsLess(SortKey(p), SortKey(q))
  }

  /** Strictly increasing, hence free of duplicates. */
  predicate Sorted(s: seq<Path>)
  {
    forall i, j :: 0 <= i < j < |s| ==> PathLess(s[i], s[j])
  }

  lemma {:induction false} StrLessIrreflexive(a: string)
    ensures !StrLess(a, a)
  {
    if |a| > 0 {
      StrLessIrreflexive(a[1..]);
    }
  }

  lemma {:induction false} StrLessTransitive(a: string, b: string, c: string)
    requires StrLess(a, b) && StrLess(b, c)
    ensures StrLess(a, c)
    decreases |a|
  {
    if |a| > 0 && a[0] == b[0] && b[0] == c[0] {
      StrLessTransitive(a[1..], b[1..], c[1..]);
    }
  }

  lemma {:induction false} StrLessTotal(a: string, b: string)
    requires a != b
    ensures StrLess(a, b) || StrLess(b, a)
    decreases |a|
  {
    if |a| > 0 && |b| > 0 && a[0] == b[0] {
      assert a == [a[0]] + a[1..] && b == [b[0]] + b[1..];
      StrLessTotal(a[1..], b[1..]);
    }
  }

  lemma {:induction false} PartsLessIrreflexive(a: seq<string>)
    ensures !PartsLess(a, a)
  {
    if |a| > 0 {
      StrLessIrreflexive(a[0]);
      PartsLessIrreflexive(a[1..]);
    }
  }

  lemma {:induction false} PartsLessTransitive(a: seq<string>, b: seq<string>, c: seq<string>)
    requires PartsLess(a, b) && PartsLess(b, c)
    ensures PartsLess(a, c)
    decreases |a|
  {
    if |a| > 0 {
      if StrLess(a[0], b[0]) && StrLess(b[0], c[0]) {
        StrLessTransitive(a[0], b[0], c[0]);
      } else if a[0] == b[0] && b[0] == c[0] {
        PartsLessTransitive(a[1..], b[1..], c[1..]);
      }
    }
  }

  lemma {:induction false} PartsLessTotal(a: seq<string>, b: seq<string>)
    requires a != b
    ensures PartsLess(a, b) || PartsLess(b, a)
    decreases |a|
  {
    if |a| > 0 && |b| > 0 {
      if a[0] == b[0] {
        assert a == [a[0]] + a[1..] && b == [b[0]] + b[1..];
        PartsLessTotal(a[1..], b[1..]);
      } else {
        StrLessTotal(a[0], b[0]);
      }
    }
  }

  /** Distinct paths have distinct keys: no component is "" or ".". */
  lemma SortKeyInjective(p: Path, q: Path)
    requires SortKey(p) == SortKey(q)
    ensures p == q
  {
    KeyHead(p);
    KeyHead(q);
    if p.absolute {
      assert p.parts == SortKey(p)[1..] == SortKey(q)[1..] == q.parts;
    }
  }

  /** The first key component tells absolute paths, the empty path and the
      other relative paths apart. */
  lemma KeyHead(p: Path)
    ensures |SortKey(p)| > 0
    ensures SortKey(p)[0] == "" <==> p.absolute
    ensures SortKey(p)[0] == "." <==> !p.absolute && p.parts == []
  {
    if p.parts != [] {
      assert p.parts[0] != "" && p.parts[0] != ".";
    }
  }

  /** `PathLess` is a strict total order on paths. */
  lemma PathLessTotal(p: Path, q: Path)
    requires p != q
    ensures PathLess(p, q) || PathLess(q, p)
  {
    if SortKey(p) == SortKey(q) {
      SortKeyInjective(p, q);
    }
    PartsLessTotal(SortKey(p), SortKey(q));
  }

  lemma PathLessAsymmetric(p: Path, q: Path)
    requires PathLess(p, q)
    ensures !PathLess(q, p) && p != q
  {
    PartsLessIrreflexive(SortKey(p));
    if PathLess(q, p) {
      PartsLessTransitive(SortKey(p), SortKey(q), SortKey(p));
    }
  }

  /** Insert a new path into a sorted list at its place. */
  function Insert(s: seq<Path>, p: Path): (r: seq<Path>)
    requires Sorted(s) && p !in s
    ensures Sorted(r) && |r| == |s| + 1
    ensures forall x :: x in r <==> x in s || x == p
  {
    if |s| == 0 then [p]
    else if PathLess(p, s[0]) then
      forall j | 0 < j < |s| ensures PathLess(p, s[j]) {
        PartsLessTransitive(SortKey(p), SortKey(s[0]), SortKey(s[j]));
      }
      [p] + s
    else
      PathLessTotal(p, s[0]);
      var rest := Insert(s[1..], p);
      assert forall x :: x in rest ==> PathLess(s[0], x);
      [s[0]] + rest
  }

  /** `sorted()` of a set of paths, one element at a time. */
  method SortedList(paths: set<Path>) returns (r: seq<Path>)
    ensures Sorted(r)
    ensures forall x :: x in r <==> x in paths
  {
    r := [];
    var todo := paths;
    while todo != {}
      invariant todo <= paths && Sorted(r)
      invariant forall x :: x in r <==> x in paths - todo
      decreases todo
    {
      var p :| p in todo;
      r := Insert(r, p);
      todo := todo - {p};
    }
  }

  /** A sorted list is determined by its elements: the result of `sorted()` is
      the only sorted arrangement there is. */
  lemma {:induction false} SortedUnique(a: seq<Path>, b: seq<Path>)
    requires Sorted(a) && Sorted(b)
    requires forall x :: x in a <==> x in b
    ensures a == b
  {
    FirstIn(a);
    FirstIn(b);
    if |a| > 0 && |b| > 0 {
      if a[0] != b[0] {
        assert a[0] in b;
        assert b[0] in a;
        var i :| 0 <= i < |b| && b[i] == a[0];
        var j :| 0 <= j < |a| && a[j] == b[0];
        assert PathLess(b[0], a[0]);
        assert PathLess(a[0], b[0]);
        PathLessAsymmetric(a[0], b[0]);
      }
      forall x ensures x in a[1..] <==> x in b[1..] {
        if x in a[1..] {
          var i :| 1 <= i < |a| && a[i] == x;
          PathLessAsymmetric(a[0], x);
          assert x in b && x != b[0];
        }
        if x in b[1..] {
          var i :| 1 <= i < |b| && b[i] == x;
          PathLessAsymmetric(b[0], x);
          assert x in a && x != a[0];
        }
      }
      SortedUnique(a[1..], b[1..]);
      assert a == [a[0]] + a[1..] && b == [b[0]] + b[1..];
    }
  }

  lemma FirstIn(a: seq<Path>)
    ensures |a| > 0 ==> a[0] in a
  {
  }

  /** `name.startswith(prefixes)` for a tuple of prefixes. */
  predicate StartsWithAny(name: string, prefixes: seq<string>)
  {
    exists k :: 0 <= k < |prefixes| && StartsWith(name, prefixes[k])
  }

  /** The entries `collect_supported_files` keeps. */
  predicate IsSupported(e: Entry, exts: set<string>)
  {
    e.isFile && !StartsWithAny(Name(e.path), EXCLUDED_PREFIXES) && Lower(Suffix(e.path)) in exts
  }

  /** `{e.lower() for e in extensions}`. */
  function LowerSet(extensions: seq<string>): set<string>
  {
    set x | x in extensions :: Lower(x)
  }

  /** `collect_supported_files`: regular files, not named with an excluded
      prefix, whose suffix is a supported extension in any letter case.
      `supportedExtensions` is the codec library's list. */
  method CollectSupportedFiles(entries: seq<Entry>, supportedExtensions: seq<string>) returns (r: seq<Path>)
    ensures Sorted(r)
    ensures forall p :: p in r <==> exists i :: 0 <= i < |entries| && entries[i].path == p && IsSupported(entries[i], LowerSet(supportedExtensions))
  {
    var exts := LowerSet(supportedExtensions);
    var found: set<Path> := {};
    for i := 0 to |entries|
      invariant forall p :: p in found <==> exists j :: 0 <= j < i && entries[j].path == p && IsSupported(entries[j], exts)
    {
      var e := entries[i];
      if !e.isFile {
        continue;
      }
      if StartsWithAny(Name(e.path), EXCLUDED_PREFIXES) {
        continue;
      }
      if Lower(Suffix(e.path)) in exts {
        found := found + {e.path};
      }
    }
    r := SortedList(found);
  }

  /** The entries `find_fits_outputs` keeps. */
  predicate IsFitsOutput(e: Entry)
  {
    e.isFile && Lower(Name(e.path)) in FITS_FILES
  }

  /** `find_fits_outputs`: regular files named `fits_array.tif` or
      `fits_mask.tif` in any letter case. */
  method FindFitsOutputs(entries: seq<Entry>) returns (r: seq<Path>)
    ensures Sorted(r)
    ensures forall p :: p in r <==> exists i :: 0 <= i < |entries| && entries[i].path == p && IsFitsOutput(entries[i])
  {
    var found: set<Path> := {};
    for i := 0 to |entries|
      invariant forall p :: p in found <==> exists j :: 0 <= j < i && entries[j].path == p && IsFitsOutput(entries[j])
    {
      var e := entries[i];
      if !e.isFile {
        continue;
      }
      if Lower(Name(e.path)) in FITS_FILES {
        found := found + {e.path};
      }
    }
    r := SortedList(found);
  }

  /** The two searches never report the same file under the names the
      pipeline writes: those carry the excluded `fits_` prefix. */
  lemma OutputsAreNotInputs(e: Entry, exts: set<string>)
    requires Name(e.path) in FITS_FILES
    ensures !IsSupported(e, exts)
  {
    var n := Name(e.path);
    assert n == "fits_array.tif" || n == "fits_mask.tif";
    assert n[..5] == "fits_";
    assert StartsWith(n, EXCLUDED_PREFIXES[0]);
    assert StartsWithAny(n, EXCLUDED_PREFIXES);
  }
}
