/** What an accepted apt tree lists, in terms of paths and texts, and that a built one lists exactly
    its packages. */
module AptListing {
  import opened Octets
  import opened Options
  import opened Finite
  import Text
  import opened Strings
  import opened Deb822
  import opened DebStanza
  import opened AptIndex
  import opened AptRelease
  import opened AptVerify
  import opened AptBuild
  import opened AptTree
  import opened AptRepository

  // ------------------------------------------------------------- names and paths

  /** p is the entry of this name below dists, or lies below it. */
  predicate IsBelow(p: string, suite: string) {
    "dists/" + suite + "/" <= p || (p == "dists/" + suite && suite != "")
  }

  /** The suites are the names that stand right below dists. */
  lemma SuitesAre(tree: Tree, suite: string)
    ensures suite in Suites(tree) <==> '/' !in suite && exists p :: p in tree && IsBelow(p, suite)
  {
    hide IsBelow, Segment;
    forall p | p in tree ensures DISTS < p && suite == Segment(p[|DISTS|..]) <==> '/' !in suite && IsBelow(p, suite) {
      SuiteOf(p, suite);
    }
  }

  lemma SuiteOf(p: string, suite: string)
    ensures DISTS < p && suite == Segment(p[|DISTS|..]) <==> '/' !in suite && IsBelow(p, suite)
  {
    hide Segment;
    if DISTS <= p {
      var rest := p[|DISTS|..];
      FirstPart(rest, suite);
      BelowDists(p, rest, suite);
    }
  }

  /** The first part of a path, before a slash or alone. */
  lemma FirstPart(path: string, first: string)
    ensures first == Segment(path) <==> '/' !in first && (first + "/" <= path || path == first)
  {
    hide Segment;
    SegmentSplits(path);
    if '/' !in first {
      if first + "/" <= path {
        var rest := path[|first| + 1..];
        assert path == first + "/" + rest;
        SegmentOf(first, rest);
      } else if path == first {
        SegmentAlone(first);
      }
    }
  }

  lemma BelowDists(p: string, rest: string, suite: string)
    requires p == DISTS + rest
    ensures "dists/" + suite + "/" <= p <==> suite + "/" <= rest
    ensures p == "dists/" + suite <==> rest == suite
  {
    assert "dists/" + suite + "/" == DISTS + (suite + "/");
    if "dists/" + suite + "/" <= p {
      PrefixCut(DISTS, suite + "/", rest);
    }
    if suite + "/" <= rest {
      PrefixKept(DISTS, suite + "/", rest);
    }
    if p == "dists/" + suite {
      SameTail(DISTS, rest, suite);
    }
  }

  lemma {:induction false} SegmentSplits(s: string)
    ensures '/' !in Segment(s) && (s == Segment(s) || Segment(s) + "/" <= s)
  {
    if s != "" && s[0] != '/' {
      SegmentSplits(s[1..]);
      assert s == [s[0]] + s[1..];
    }
  }

  /** The parts of a path that is kept as it is: none is empty, "." or "..". */
  lemma {:induction false} NormalIff(parts: seq<string>)
    requires parts != [] && forall i :: 0 <= i < |parts| ==> '/' !in parts[i]
    ensures IsNormal(Join(parts, "/")) <==>
            forall i :: 0 <= i < |parts| ==> parts[i] != "" && parts[i] != "." && parts[i] != ".."
    decreases |parts|
  {
    var path := Join(parts, "/");
    if |parts| == 1 {
      SegmentAlone(parts[0]);
    } else {
      var rest := Join(parts[1..], "/");
      assert path == parts[0] + "/" + rest;
      SegmentOf(parts[0], rest);
      assert path[|parts[0]| + 1..] == rest;
      NormalIff(parts[1..]);
    }
  }

  lemma EndsWithIff(s: string)
    ensures EndsWith(s, PACKAGES) <==> exists stem :: s == stem + "/Packages"
  {
    if EndsWith(s, PACKAGES) {
      assert s == s[..|s| - |PACKAGES|] + "/Packages";
    }
    if stem :| s == stem + "/Packages" {
      assert s[|s| - |PACKAGES|..] == PACKAGES;
    }
  }

  // ------------------------------------------------------------- stanzas

  lemma BlankIff(s: string)
    ensures IsBlank(s) <==> forall i :: 0 <= i < |s| ==> IsSpace(s[i])
  {
    if IsBlank(s) {
      AllSpaceIfTrimmed(s);
    } else if forall i :: 0 <= i < |s| ==> IsSpace(s[i]) {
      SpacesAreBlank(s);
    }
  }

  /** The stanzas of an index are the pieces with something in them. */
  lemma {:induction false} StanzasInIff(pieces: seq<string>, s: string)
    ensures s in StanzasIn(pieces) <==> s in pieces && exists i :: 0 <= i < |s| && !IsSpace(s[i])
  {
    if pieces != [] {
      BlankIff(pieces[0]);
      StanzasInIff(pieces[1..], s);
      assert pieces == [pieces[0]] + pieces[1..];
    }
  }

  lemma {:induction false} FilesInIff(stanzas: seq<string>, f: string)
    ensures f in FilesIn(stanzas) <==>
            exists s :: s in stanzas && ParseText(s).Some? && Value(ParseText(s).value, "Filename") == Some(f)
  {
    hide ParseText, Value;
    if stanzas != [] {
      var front, last := stanzas[..|stanzas| - 1], stanzas[|stanzas| - 1];
      FilesInIff(front, f);
      assert stanzas == front + [last];
    }
  }

  // ------------------------------------------------------------- where a package goes

  predicate IsSmallAlnum(c: char) {
    || c in {'a', 'b', 'c', 'd', 'e', 'f', 'g', 'h', 'i', 'j', 'k', 'l', 'm', 'n', 'o', 'p', 'q', 'r', 's', 't', 'u', 'v', 'w', 'x', 'y', 'z'}
    || c in {'0', '1', '2', '3', '4', '5', '6', '7', '8', '9'}
  }

  predicate IsCapital(c: char) {
    c in {'A', 'B', 'C', 'D', 'E', 'F', 'G', 'H', 'I', 'J', 'K', 'L', 'M', 'N', 'O', 'P', 'Q', 'R', 'S', 'T', 'U', 'V', 'W', 'X', 'Y', 'Z'}
  }

  /** Names are at least two characters long and start with a small letter or a digit. */
  lemma PackageNameIff(s: string)
    ensures IsPackageName(s) <==>
            && |s| >= 2 && IsSmallAlnum(s[0])
            && forall i :: 0 <= i < |s| ==> IsSmallAlnum(s[i]) || s[i] in {'+', '.', '-'}
  {
    assert forall i :: 0 <= i < |s| ==> (IsNameChar(s[i]) <==> IsSmallAlnum(s[i]) || s[i] in {'+', '.', '-'});
  }

  lemma UpstreamIff(s: string)
    ensures IsUpstream(s) <==>
            s != "" && forall i :: 0 <= i < |s| ==> IsSmallAlnum(s[i]) || IsCapital(s[i]) || s[i] in {'+', '.', '-', '~'}
  {
    assert forall i :: 0 <= i < |s| ==> (IsAlnum(s[i]) <==> IsSmallAlnum(s[i]) || IsCapital(s[i]));
  }

  /** An epoch before the first colon is left out of the version. */
  lemma UpstreamOf(epoch: string, upstream: string)
    ensures ':' !in epoch ==> Upstream(epoch + ":" + upstream) == upstream && Upstream(epoch) == epoch
  {
    if ':' !in epoch {
      var version := epoch + ":" + upstream;
      ColonIsFirst(epoch, upstream);
      assert version[|epoch| + 1..] == upstream;
      NoColon(epoch);
    }
  }

  lemma {:induction false} NoColon(s: string)
    requires ':' !in s
    ensures Colon(s) == |s|
  {
    if s != "" { NoColon(s[1..]); }
  }

  /** A package with a usable name, architecture and version goes below the first letter of its
      name, or the first four of a library's; any other is refused. */
  lemma PoolPathIs(fields: seq<Field>, component: string, name: string, version: string, arch: string)
    requires Value(fields, "Package") == Some(name) && Value(fields, "Version") == Some(version)
    requires Value(fields, "Architecture") == Some(arch)
    ensures IsPackageName(name) && arch in {"amd64", "arm64", "all"} && version != "" && IsUpstream(Upstream(version)) ==>
              var below := if "lib" <= name then name[..if |name| < 4 then |name| else 4] else name[..1];
              PoolPath(fields, component) == Some("pool/" + component + "/" + below + "/" + name + "/" +
                                                  name + "_" + Upstream(version) + "_" + arch + ".deb")
    ensures !(IsPackageName(name) && arch in {"amd64", "arm64", "all"} && version != "" && IsUpstream(Upstream(version))) ==>
              PoolPath(fields, component) == None
  {
    hide Value, IsPackageName, IsUpstream, Upstream;
    PackageNameIff("");
    if name != "" && "lib" <= name && |name| <= 4 {
      assert name[..|name|] == name;
    }
  }

  lemma PoolPathNeeds(fields: seq<Field>, component: string)
    ensures PoolPath(fields, component).Some? ==>
              Value(fields, "Package").Some? && Value(fields, "Version").Some? && Value(fields, "Architecture").Some?
  {
    hide Value, PoolFile;
  }

  // ------------------------------------------------------------- a built tree lists its packages

  /** An index is for the packages of its architecture and for those of all. */
  lemma ForIff(records: seq<Record>, arch: string, r: Record)
    ensures r in For(records, arch) <==> r in records && (r.arch == arch || r.arch == "all")
  {
    OnlyAre(records, arch);
    OnlyAre(records, "all");
  }

  /** Every record of an index has its stanza in it. */
  lemma RecordHasPiece(env: Env, component: string, records: seq<Record>, r: Record) returns (piece: string)
    requires ValidEnv(env) && IsVisible(component) && AreRecords(env, component, records) && r in records
    ensures piece in SplitBlank(Join(Text.Sorted(Stanzas(env, records), Text.Same), "\n"))
    ensures piece == BodyOf(env, r) || piece == BodyOf(env, r) + "\n"
  {
    hide IsTight, SplitBlank, StanzaOf, BodyOf, Pieces, AreRecords;
    var stanzas := Stanzas(env, records);
    var sorted := Text.Sorted(stanzas, Text.Same);
    var bodies := Unended(sorted);
    SortedBodies(env, component, records, sorted);
    IndexSplits(bodies);
    PiecesAre(bodies);
    var i :| 0 <= i < |records| && records[i] == r;
    var k := InSorted(stanzas, i);
    OneBody(env, component, records, r);
    assert bodies[k] == BodyOf(env, r);
    piece := Pieces(bodies)[k];
  }

  lemma InSorted(s: seq<string>, i: nat) returns (k: nat)
    requires i < |s|
    ensures var sorted := Text.Sorted(s, Text.Same); k < |sorted| && sorted[k] == s[i]
  {
    var sorted := Text.Sorted(s, Text.Same);
    assert s[i] in multiset(s);
    assert s[i] in sorted;
    k :| 0 <= k < |sorted| && sorted[k] == s[i];
  }

  /** The stanza of a record names its place. */
  lemma PieceNames(env: Env, component: string, r: Record, piece: string)
    requires ValidEnv(env) && IsRecord(env, component, r) && IsVisible(component)
    requires piece == BodyOf(env, r) || piece == BodyOf(env, r) + "\n"
    ensures ParseText(piece).Some? && Value(ParseText(piece).value, "Filename") == Some(r.path) && !IsBlank(piece)
  {
    hide Arranged, PoolPath, IsVisible, Body, Value, ParseText, IsTight, IsBlank;
    RecordBody(env, component, r);
    ArrangedValues(r.fields, r.path, |r.deb|, env.sha256(r.deb));
  }

  /** The index of an architecture lists the packages for it and those for all, and no others. */
  lemma ListedIff(env: Env, h: Header, records: seq<Record>, list: seq<Listed>, tree: Tree, a: string, f: string)
    requires ValidEnv(env) && PlainHeader(h) && Built(env, h, records, list, tree) && a in h.arches
    ensures f in FilesAt(env, tree, "dists/" + h.suite + "/" + h.component + "/binary-" + a + "/Packages") <==>
            exists r :: r in records && (r.arch == a || r.arch == "all") && r.path == f
  {
    hide AreRecords, ListsIndexes, ReleaseText, IsHeader, For, IsRecord, BodyOf, ParseText, Value, IsBlank, IsVisible;
    var path, text := DistPath(h.suite, IndexName(h.component, a)), IndexText(env, records, a);
    IndexPathIs(h.suite, h.component, a);
    assert HasIndex(env, h.suite, h.component, records, a, tree);
    assert FilesAt(env, tree, path) == FilesIn(StanzasIn(SplitBlank(text)));
    hide SplitBlank, FilesIn, StanzasIn, Pooled;
    FilesInIff(StanzasIn(SplitBlank(text)), f);
    ForAreRecords(env, h.component, records, a);
    var mine := For(records, a);
    if f in FilesAt(env, tree, path) {
      var s :| s in StanzasIn(SplitBlank(text)) && ParseText(s).Some? && Value(ParseText(s).value, "Filename") == Some(f);
      StanzasInIff(SplitBlank(text), s);
      var r := IndexPieces(env, h.component, mine, s);
      InRecords(env, h.component, records, tree, r);
      PieceNames(env, h.component, r, s);
      ForIff(records, a, r);
    }
    if r :| r in records && (r.arch == a || r.arch == "all") && r.path == f {
      ForIff(records, a, r);
      InRecords(env, h.component, records, tree, r);
      var piece := RecordHasPiece(env, h.component, mine, r);
      PieceNames(env, h.component, r, piece);
      BlankIff(piece);
      StanzasInIff(SplitBlank(text), piece);
    }
  }

  lemma IndexPathIs(suite: string, component: string, a: string)
    ensures DistPath(suite, IndexName(component, a)) == "dists/" + suite + "/" + component + "/binary-" + a + "/Packages"
  {
    Joined("dists/" + suite + "/", component, "/binary-", a, "/Packages");
  }

  lemma Joined(a: string, b: string, c: string, d: string, e: string)
    ensures a + (b + c + d + e) == a + b + c + d + e
  {
  }

  /** The verifier reports, of a tree that was built, exactly the packages that were given. */
  lemma CheckedAreGiven(env: Env, h: Header, records: seq<Record>, list: seq<Listed>, tree: Tree, f: string)
    requires ValidEnv(env) && PlainHeader(h) && Built(env, h, records, list, tree) && AreArches(records, h.arches)
    ensures (exists suite :: suite in Suites(tree) && Reaches(env, tree, suite, f)) <==> exists r :: r in records && r.path == f
  {
    hide Reaches, AreArches, Built, PlainHeader;
    SuiteIsThere(env, h, records, list, tree);
    ReachesGiven(env, h, records, list, tree, f);
    if suite :| suite in Suites(tree) && Reaches(env, tree, suite, f) {
      PlainIs(h);
      OneSuite(env, h, records, list, tree, suite);
    }
  }

  lemma PlainIs(h: Header)
    requires PlainHeader(h)
    ensures '/' !in h.suite && SoundHeader(h) && IsVisible(h.component)
  {
  }

  lemma SuiteIsThere(env: Env, h: Header, records: seq<Record>, list: seq<Listed>, tree: Tree)
    requires PlainHeader(h) && Built(env, h, records, list, tree)
    ensures h.suite in Suites(tree)
  {
    hide AreRecords, Pooled, HasIndex, ListsIndexes, ReleaseText, IsHeader;
    var p := DistPath(h.suite, "Release");
    assert IsBelow(p, h.suite);
    SuitesAre(tree, h.suite);
  }

  lemma ReachesGiven(env: Env, h: Header, records: seq<Record>, list: seq<Listed>, tree: Tree, f: string)
    requires ValidEnv(env) && PlainHeader(h) && Built(env, h, records, list, tree) && AreArches(records, h.arches)
    ensures Reaches(env, tree, h.suite, f) <==> exists r :: r in records && r.path == f
  {
    hide AreRecords, Pooled, HasIndex, ReleaseText, IsHeader, HashesIn, FilesAt, For, IsVisible, IndexName, DistPath, EndsWith, AreNamed;
    BuiltHashes(env, h, records, list, tree);
    var hashes := HashesOf(list);
    if path :| path in hashes && EndsWith(path, PACKAGES) && f in FilesAt(env, tree, DistPath(h.suite, path)) {
      var l := HashComesFrom(list, path);
      var a :| a in h.arches && (l.path == IndexName(h.component, a) || l.path == IndexName(h.component, a) + ".gz");
      IndexNameIsVisible(h.component, a);
      IndexPathIs(h.suite, h.component, a);
      ListedIff(env, h, records, list, tree, a, f);
    }
    if r :| r in records && r.path == f {
      var a := if r.arch == "all" then h.arches[0] else r.arch;
      assert a in h.arches && HasPath(list, IndexName(h.component, a));
      var l :| l in list && l.path == IndexName(h.component, a);
      ListedIsFound(list, l);
      IndexNameIsVisible(h.component, a);
      IndexPathIs(h.suite, h.component, a);
      ListedIff(env, h, records, list, tree, a, f);
    }
  }
}
