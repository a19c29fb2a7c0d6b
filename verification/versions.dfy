/** Which file is run for each query name. */
module Versions {
  import opened Wrappers
  import opened Text
  import Ordering
  import Sorting

  // ----- comparing versions

  datatype Version = Version(major: int, minor: int, patch: int, build: int)

  predicate IsGreater(a: Version, b: Version) {
    if a.major != b.major then a.major > b.major
    else if a.minor != b.minor then a.minor > b.minor
    else if a.patch != b.patch then a.patch > b.patch
    else a.build > b.build
  }

  function Numbers(v: Version): (ns: seq<int>)
    ensures |ns| == 4
  {
    [v.major, v.minor, v.patch, v.build]
  }

  /** A version is greater when it is where the numbers first differ. */
  lemma GreaterFirst(a: Version, b: Version)
    ensures IsGreater(a, b) <==>
            exists i :: 0 <= i < 4 && Numbers(a)[i] > Numbers(b)[i] && Numbers(a)[..i] == Numbers(b)[..i]
  {
    var x, y := Numbers(a), Numbers(b);
    assert x[..0] == y[..0];
    assert x[0] == y[0] ==> x[..1] == y[..1];
    assert x[0] == y[0] && x[1] == y[1] ==> x[..2] == y[..2];
    assert x[0] == y[0] && x[1] == y[1] && x[2] == y[2] ==> x[..3] == y[..3];
    forall i | 0 <= i < 4 && x[..i] == y[..i] ensures forall j :: 0 <= j < i ==> x[j] == y[j] {
      assert forall j :: 0 <= j < i ==> x[..i][j] == y[..i][j];
    }
  }

  predicate IsEqual(a: Version, b: Version) {
    a.major == b.major && a.minor == b.minor && a.patch == b.patch && a.build == b.build
  }

  predicate IsGreaterOrEqual(a: Version, b: Version) {
    IsGreater(a, b) || IsEqual(a, b)
  }

  // ----- files

  /** dirName is "" for a file at the root of the walk. */
  datatype QueryFile = QueryFile(name: string, dirName: string, fullPath: string)

  /** ParseVersionFromDirName: four numbers between dots. */
  type Parser = string -> Option<Version>

  predicate Compatible(f: QueryFile, server: Version, parse: Parser) {
    f.dirName == "" || (parse(f.dirName).Some? && IsGreaterOrEqual(server, parse(f.dirName).value))
  }

  predicate Listed(f: QueryFile) {
    !HasPrefix(f.name, ".")
  }

  function Roots(walk: seq<QueryFile>): seq<QueryFile> {
    if walk == [] then []
    else
      var f := walk[|walk| - 1];
      Roots(walk[..|walk| - 1]) + if Listed(f) && f.dirName == "" then [f] else []
  }

  function Versioned(walk: seq<QueryFile>, server: Version, parse: Parser): seq<QueryFile> {
    if walk == [] then []
    else
      var f := walk[|walk| - 1];
      Versioned(walk[..|walk| - 1], server, parse)
      + if Listed(f) && f.dirName != "" && Compatible(f, server, parse) then [f] else []
  }

  /** The visible files the server's version allows, those at the root first. */
  method FindCompatibleQueries(walk: seq<QueryFile>, server: Version, parse: Parser) returns (all: seq<QueryFile>)
    ensures all == Roots(walk) + Versioned(walk, server, parse)
  {
    var rootQueries, versionedQueries := [], [];
    for i := 0 to |walk|
      invariant rootQueries == Roots(walk[..i]) && versionedQueries == Versioned(walk[..i], server, parse)
    {
      var f := walk[i];
      assert walk[..i + 1][..i] == walk[..i];
      if HasPrefix(f.name, ".") {
        continue;
      }
      if f.dirName == "" {
        rootQueries := rootQueries + [f];
        continue;
      }
      var dirVersion := parse(f.dirName);
      if dirVersion.None? {
        continue;
      }
      if IsGreaterOrEqual(server, dirVersion.value) {
        versionedQueries := versionedQueries + [f];
      }
    }
    assert walk[..|walk|] == walk;
    all := rootQueries + versionedQueries;
  }

  lemma {:induction false} FoundFiles(walk: seq<QueryFile>, server: Version, parse: Parser)
    ensures forall f :: f in Roots(walk) + Versioned(walk, server, parse) <==>
            f in walk && Listed(f) && Compatible(f, server, parse)
  {
    hide Listed, Compatible;
    if walk != [] {
      var n := |walk| - 1;
      FoundFiles(walk[..n], server, parse);
      RootCompatible(walk[n], server, parse);
      assert walk == walk[..n] + [walk[n]];
    }
  }

  lemma RootCompatible(f: QueryFile, server: Version, parse: Parser)
    ensures f.dirName == "" ==> Compatible(f, server, parse)
  {
  }

  // ----- priority

  predicate HasHigherPriority(a: QueryFile, b: QueryFile, parse: Parser) {
    if b.dirName == "" && a.dirName != "" then true
    else if a.dirName == "" then false
    else
      var v, w := parse(a.dirName), parse(b.dirName);
      v.Some? && w.Some? && IsGreater(v.value, w.value)
  }

  /** The file kept for a name when the files come in this order. */
  function Pick(files: seq<QueryFile>, name: string, parse: Parser): Option<QueryFile> {
    if files == [] then None
    else
      var f, best := files[|files| - 1], Pick(files[..|files| - 1], name, parse);
      if f.name != name then best
      else if best.None? || HasHigherPriority(f, best.value, parse) then Some(f)
      else best
  }

  method SelectHighestPriorityQueries(files: seq<QueryFile>, parse: Parser) returns (best: map<string, QueryFile>)
    ensures forall name :: name in best <==> Pick(files, name, parse).Some?
    ensures forall name :: name in best ==> Pick(files, name, parse) == Some(best[name])
  {
    best := map[];
    for i := 0 to |files|
      invariant forall name :: name in best <==> Pick(files[..i], name, parse).Some?
      invariant forall name :: name in best ==> Pick(files[..i], name, parse) == Some(best[name])
    {
      var f := files[i];
      assert files[..i + 1][..i] == files[..i];
      if f.name !in best {
        best := best[f.name := f];
      } else if HasHigherPriority(f, best[f.name], parse) {
        best := best[f.name := f];
      }
    }
    assert files[..|files|] == files;
  }

  /** Every file in a directory has one the parser understands. */
  ghost predicate Parsed(files: seq<QueryFile>, parse: Parser) {
    forall f :: f in files && f.dirName != "" ==> parse(f.dirName).Some?
  }

  /** No other file of the name ranks higher. */
  ghost predicate Highest(files: seq<QueryFile>, best: QueryFile, parse: Parser) {
    best in files && forall f :: f in files && f.name == best.name ==> !HasHigherPriority(f, best, parse)
  }

  lemma NoneHigher(f: QueryFile, best: QueryFile, g: QueryFile, parse: Parser)
    requires f.dirName != "" ==> parse(f.dirName).Some?
    requires best.dirName != "" ==> parse(best.dirName).Some?
    requires g.dirName != "" ==> parse(g.dirName).Some?
    requires HasHigherPriority(f, best, parse) && !HasHigherPriority(g, best, parse)
    ensures !HasHigherPriority(g, f, parse)
  {
  }

  lemma NeverItself(f: QueryFile, parse: Parser)
    ensures !HasHigherPriority(f, f, parse)
  {
  }

  /** The kept file is one of the name with the highest priority. */
  lemma {:induction false} PickHighest(files: seq<QueryFile>, name: string, parse: Parser)
    requires Parsed(files, parse)
    ensures Pick(files, name, parse).None? <==> forall f :: f in files ==> f.name != name
    ensures Pick(files, name, parse).Some? ==>
              Pick(files, name, parse).value.name == name && Highest(files, Pick(files, name, parse).value, parse)
  {
    hide HasHigherPriority;
    if files != [] {
      var n := |files| - 1;
      var r, f := files[..n], files[n];
      assert files == r + [f];
      PickHighest(r, name, parse);
      NeverItself(f, parse);
      var best := Pick(r, name, parse);
      if f.name == name && best.Some? && HasHigherPriority(f, best.value, parse) {
        forall g | g in r && g.name == name ensures !HasHigherPriority(g, f, parse) {
          NoneHigher(f, best.value, g, parse);
        }
      }
    }
  }

  /** No two files of one name have the same place: the root, or the same version. */
  ghost predicate OnePerVersion(files: seq<QueryFile>, parse: Parser) {
    forall f, g :: f in files && g in files && f.name == g.name && SamePlace(f, g, parse) ==> f == g
  }

  predicate SamePlace(f: QueryFile, g: QueryFile, parse: Parser) {
    if f.dirName == "" || g.dirName == "" then f.dirName == g.dirName else parse(f.dirName) == parse(g.dirName)
  }

  /** What the kept file is: the greatest version of all the name's compatible
      directories, or the root's file when there is none. */
  predicate Outranks(best: QueryFile, f: QueryFile, parse: Parser) {
    if f.dirName == "" then true
    else best.dirName != "" && parse(best.dirName).Some? && parse(f.dirName).Some?
         && IsGreaterOrEqual(parse(best.dirName).value, parse(f.dirName).value)
  }

  lemma HighestOutranks(files: seq<QueryFile>, best: QueryFile, parse: Parser)
    requires Parsed(files, parse) && best in files
    ensures Highest(files, best, parse) <==> forall f :: f in files && f.name == best.name ==> Outranks(best, f, parse)
  {
    forall f | f in files && f.name == best.name
      ensures !HasHigherPriority(f, best, parse) <==> Outranks(best, f, parse)
    {
    }
  }

  lemma HighestUnique(files: seq<QueryFile>, a: QueryFile, b: QueryFile, parse: Parser)
    requires Parsed(files, parse) && OnePerVersion(files, parse) && a.name == b.name
    requires Highest(files, a, parse) && Highest(files, b, parse)
    ensures a == b
  {
    assert !HasHigherPriority(a, b, parse) && !HasHigherPriority(b, a, parse);
    assert SamePlace(a, b, parse);
  }

  /** For every order in which the walk may list the files, the name's choice is the
      one compatible file that outranks the others, or none when there is none. */
  lemma ChoiceExactly(walk: seq<QueryFile>, server: Version, parse: Parser, name: string, best: QueryFile)
    requires OnePerVersion(walk, parse)
    ensures Pick(Roots(walk) + Versioned(walk, server, parse), name, parse) == Some(best) <==>
            && best in walk && Listed(best) && Compatible(best, server, parse) && best.name == name
            && forall f :: f in walk && Listed(f) && Compatible(f, server, parse) && f.name == name ==>
                 Outranks(best, f, parse)
  {
    hide HasHigherPriority, Outranks, Listed, IsGreaterOrEqual, SamePlace, Roots, Versioned, Pick;
    var files := Roots(walk) + Versioned(walk, server, parse);
    FoundFiles(walk, server, parse);
    assert Parsed(files, parse);
    FoundOnce(walk, files, parse);
    PickHighest(files, name, parse);
    if best in files && best.name == name {
      HighestOutranks(files, best, parse);
      if Highest(files, best, parse) {
        HighestUnique(files, best, Pick(files, name, parse).value, parse);
      }
    }
  }

  /** v is the same version as w or, where they first differ, has the smaller number. */
  ghost predicate NotAbove(v: Version, w: Version) {
    forall i :: 0 <= i < 4 && Numbers(v)[..i] == Numbers(w)[..i] ==> Numbers(v)[i] <= Numbers(w)[i]
  }

  lemma NotAboveIs(v: Version, w: Version)
    ensures IsGreaterOrEqual(w, v) <==> NotAbove(v, w)
  {
    GreaterFirst(v, w);
    hide Numbers;
    assert IsGreaterOrEqual(w, v) <==> !IsGreater(v, w);
  }

  /** A file the server's version allows: visible, and at the root or in the directory
      of a version not above the server's. */
  ghost predicate Allowed(f: QueryFile, server: Version, parse: Parser) {
    && (f.name == "" || f.name[0] != '.')
    && (f.dirName == "" || (parse(f.dirName).Some? && NotAbove(parse(f.dirName).value, server)))
  }

  lemma AllowedIs(f: QueryFile, server: Version, parse: Parser)
    ensures Allowed(f, server, parse) <==> Listed(f) && Compatible(f, server, parse)
  {
    assert f.name != "" ==> f.name[..1] == [f.name[0]];
    if parse(f.dirName).Some? {
      NotAboveIs(parse(f.dirName).value, server);
    }
    hide NotAbove, IsGreaterOrEqual;
  }

  /** The choice in plain numbers: an allowed file of the name than whose version no
      allowed file of the name has a higher one; a root file only when there is none
      in a directory. */
  lemma ChoiceByNumbers(walk: seq<QueryFile>, server: Version, parse: Parser, name: string, best: QueryFile)
    requires OnePerVersion(walk, parse)
    ensures Pick(Roots(walk) + Versioned(walk, server, parse), name, parse) == Some(best) <==>
            && best in walk && Allowed(best, server, parse) && best.name == name
            && forall f :: f in walk && Allowed(f, server, parse) && f.name == name ==>
                 || f.dirName == ""
                 || (best.dirName != "" && parse(best.dirName).Some? && parse(f.dirName).Some?
                     && NotAbove(parse(f.dirName).value, parse(best.dirName).value))
  {
    ChoiceExactly(walk, server, parse, name, best);
    hide Pick, Roots, Versioned, Listed, Compatible, Allowed, NotAbove, IsGreaterOrEqual, OnePerVersion;
    AllowedIs(best, server, parse);
    forall f: QueryFile ensures Allowed(f, server, parse) <==> Listed(f) && Compatible(f, server, parse) {
      AllowedIs(f, server, parse);
    }
    forall f: QueryFile | parse(best.dirName).Some? && parse(f.dirName).Some?
      ensures IsGreaterOrEqual(parse(best.dirName).value, parse(f.dirName).value) <==>
              NotAbove(parse(f.dirName).value, parse(best.dirName).value)
    {
      NotAboveIs(parse(f.dirName).value, parse(best.dirName).value);
    }
  }

  lemma FoundOnce(walk: seq<QueryFile>, files: seq<QueryFile>, parse: Parser)
    requires OnePerVersion(walk, parse) && forall f :: f in files ==> f in walk
    ensures OnePerVersion(files, parse)
  {
  }

  /** The walk's order does not matter. */
  lemma ChoiceUnordered(walk: seq<QueryFile>, other: seq<QueryFile>, server: Version, parse: Parser, name: string)
    requires OnePerVersion(walk, parse) && forall f :: f in walk <==> f in other
    ensures Pick(Roots(walk) + Versioned(walk, server, parse), name, parse) ==
            Pick(Roots(other) + Versioned(other, server, parse), name, parse)
  {
    hide Pick, Roots, Versioned, Outranks, Listed, Compatible;
    SameOnce(walk, other, parse);
    var a := Pick(Roots(walk) + Versioned(walk, server, parse), name, parse);
    var b := Pick(Roots(other) + Versioned(other, server, parse), name, parse);
    if a.Some? {
      ChoiceExactly(walk, server, parse, name, a.value);
      ChoiceExactly(other, server, parse, name, a.value);
    }
    if b.Some? {
      ChoiceExactly(walk, server, parse, name, b.value);
      ChoiceExactly(other, server, parse, name, b.value);
    }
  }

  lemma SameOnce(walk: seq<QueryFile>, other: seq<QueryFile>, parse: Parser)
    requires OnePerVersion(walk, parse) && forall f :: f in walk <==> f in other
    ensures OnePerVersion(other, parse)
  {
  }

  // ----- the files of one extension

  function WithExt(files: seq<QueryFile>, ext: string): seq<QueryFile> {
    if files == [] then []
    else
      var f := files[|files| - 1];
      WithExt(files[..|files| - 1], ext) + if HasSuffix(ToLower(f.name), ToLower(ext)) then [f] else []
  }

  /** The extension filter does not change the choice for the names it keeps. */
  lemma {:induction false} ExtKeepsChoice(files: seq<QueryFile>, ext: string, name: string, parse: Parser)
    ensures Pick(WithExt(files, ext), name, parse) ==
            if HasSuffix(ToLower(name), ToLower(ext)) then Pick(files, name, parse) else None
  {
    hide HasHigherPriority, HasSuffix, ToLower;
    if files != [] {
      var n := |files| - 1;
      ExtKeepsChoice(files[..n], ext, name, parse);
      var w := WithExt(files[..n], ext);
      assert (w + [files[n]])[..|w|] == w;
      assert w + [] == w;
    }
  }

  function ByName(): (QueryFile, QueryFile) -> bool {
    (a: QueryFile, b: QueryFile) => Ordering.Less(a.name, b.name)
  }

  /** The chosen files of one extension, each name once, ascending. */
  method FindVersionedFiles(walk: seq<QueryFile>, server: Version, parse: Parser, ext: string)
    returns (out: seq<QueryFile>)
    ensures forall f :: f in out <==>
            Pick(WithExt(Roots(walk) + Versioned(walk, server, parse), ext), f.name, parse) == Some(f)
    ensures forall i, j :: 0 <= i < j < |out| ==> Ordering.Less(out[i].name, out[j].name)
  {
    hide Pick, WithExt, Roots, Versioned;
    var all := FindCompatibleQueries(walk, server, parse);
    ghost var goal := WithExt(all, ext);
    var filtered := [];
    WithExtNone(ext);
    for i := 0 to |all|
      invariant filtered == WithExt(all[..i], ext)
    {
      WithExtNext(all, i, ext);
      if HasSuffix(ToLower(all[i].name), ToLower(ext)) {
        filtered := filtered + [all[i]];
      }
    }
    assert all[..|all|] == all;
    var selected := SelectHighestPriorityQueries(filtered, parse);
    forall name | name in selected ensures selected[name].name == name {
      PickNamed(filtered, name, parse);
    }
    var rest := selected.Keys;
    out := [];
    while rest != {}
      invariant rest <= selected.Keys
      invariant forall f :: f in out <==> f.name in selected && f.name !in rest && selected[f.name] == f
      invariant forall i, j :: 0 <= i < j < |out| ==> out[i].name != out[j].name
      decreases |rest|
    {
      var name :| name in rest;
      assert forall i :: 0 <= i < |out| ==> out[i] in out;
      out := out + [selected[name]];
      rest := rest - {name};
    }
    SortedByName(out);
    out := Sorting.Sort(out, ByName());
  }

  lemma WithExtNone(ext: string)
    ensures WithExt([], ext) == []
  {
  }

  lemma WithExtNext(files: seq<QueryFile>, i: nat, ext: string)
    requires i < |files|
    ensures WithExt(files[..i + 1], ext) ==
            WithExt(files[..i], ext) + if HasSuffix(ToLower(files[i].name), ToLower(ext)) then [files[i]] else []
  {
    assert files[..i + 1][..i] == files[..i];
  }

  lemma {:induction false} PickNamed(files: seq<QueryFile>, name: string, parse: Parser)
    ensures Pick(files, name, parse).Some? ==> Pick(files, name, parse).value.name == name
  {
    if files != [] {
      PickNamed(files[..|files| - 1], name, parse);
    }
  }

  lemma SortedByName(files: seq<QueryFile>)
    requires forall i, j :: 0 <= i < j < |files| ==> files[i].name != files[j].name
    ensures var r := Sorting.Sort(files, ByName());
            && (forall f :: f in r <==> f in files)
            && forall i, j :: 0 <= i < j < |r| ==> Ordering.Less(r[i].name, r[j].name)
  {
    var before := ByName();
    var r := Sorting.Sort(files, before);
    forall x, y | x in files && y in files && before(x, y) ensures !before(y, x) {
      Ordering.LessAsymmetric(x.name, y.name);
    }
    forall x, y, z | x in files && y in files && z in files && !before(y, x) && !before(z, y) ensures !before(z, x) {
      Ordering.LessWeak(x.name, y.name, z.name);
    }
    Sorting.SortOrdered(files, before);
    Sorting.SortElements(files, before);
    var apart := (a: QueryFile, b: QueryFile) => a.name != b.name;
    Sorting.SortPairwise(files, before, apart);
    forall i, j | 0 <= i < j < |r| ensures Ordering.Less(r[i].name, r[j].name) {
      assert !before(r[j], r[i]) && apart(r[i], r[j]);
      Ordering.LessTotal(r[i].name, r[j].name);
    }
  }
}
