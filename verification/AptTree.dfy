/** The whole apt tree: what the build lays down, and that the verifier accepts it. */
module AptTree {
  import opened Octets
  import opened Options
  import Text
  import opened Strings
  import opened Deb822
  import opened AptIndex
  import opened AptRelease
  import opened AptVerify
  import opened AptBuild

  // ------------------------------------------------------------- indexes

  function IndexName(component: string, arch: string): string {
    component + "/binary-" + arch + PACKAGES
  }

  /** The records of one architecture, in order. */
  function Only(records: seq<Record>, arch: string): seq<Record> {
    if records == [] then []
    else
      var r, front := records[|records| - 1], Only(records[..|records| - 1], arch);
      if r.arch == arch then front + [r] else front
  }

  /** What the index of an architecture lists: its own packages, and those for all. */
  function For(records: seq<Record>, arch: string): seq<Record> {
    Only(records, arch) + Only(records, "all")
  }

  function Stanzas(env: Env, records: seq<Record>): seq<string> {
    seq(|records|, i requires 0 <= i < |records| => StanzaOf(env, records[i]))
  }

  function IndexText(env: Env, records: seq<Record>, arch: string): string {
    Join(Text.Sorted(Stanzas(env, For(records, arch)), Text.Same), "\n")
  }

  lemma {:induction false} OnlyAre(records: seq<Record>, arch: string)
    ensures forall r :: r in Only(records, arch) <==> r in records && r.arch == arch
  {
    if records != [] {
      OnlyAre(records[..|records| - 1], arch);
      assert records == records[..|records| - 1] + [records[|records| - 1]];
    }
  }

  ghost predicate AreRecords(env: Env, component: string, records: seq<Record>) {
    forall i :: 0 <= i < |records| ==> IsRecord(env, component, records[i])
  }

  /** Every record's package is in the tree. */
  ghost predicate Pooled(tree: Tree, records: seq<Record>) {
    forall i :: 0 <= i < |records| ==> records[i].path in tree && tree[records[i].path] == records[i].deb
  }

  lemma SortedFrom(s: seq<string>, x: string)
    requires x in Text.Sorted(s, Text.Same)
    ensures x in s
  {
    assert x in multiset(Text.Sorted(s, Text.Same));
  }

  /** Each stanza of an index is some record's. */
  lemma SortedStanza(env: Env, records: seq<Record>, s: string) returns (r: Record)
    requires s in Text.Sorted(Stanzas(env, records), Text.Same)
    ensures r in records && s == StanzaOf(env, r)
  {
    SortedFrom(Stanzas(env, records), s);
    var i :| 0 <= i < |records| && Stanzas(env, records)[i] == s;
    r := records[i];
  }

  function Unended(stanzas: seq<string>): seq<string> {
    seq(|stanzas|, i requires 0 <= i < |stanzas| => if stanzas[i] == "" then "" else stanzas[i][..|stanzas[i]| - 1])
  }

  lemma {:induction false} StanzasInAre(pieces: seq<string>)
    ensures forall s :: s in StanzasIn(pieces) ==> s in pieces
  {
    hide IsBlank;
    if pieces != [] {
      StanzasInAre(pieces[1..]);
      assert pieces == [pieces[0]] + pieces[1..];
    }
  }

  /** Every stanza found in the index is a record's body, with or without a last line feed. */
  lemma IndexPieces(env: Env, component: string, records: seq<Record>, piece: string) returns (r: Record)
    requires ValidEnv(env) && IsVisible(component) && AreRecords(env, component, records) && records != []
    requires piece in SplitBlank(Join(Text.Sorted(Stanzas(env, records), Text.Same), "\n"))
    ensures r in records && (piece == BodyOf(env, r) || piece == BodyOf(env, r) + "\n")
  {
    hide IsTight, IsBlank, SplitBlank, StanzaOf, BodyOf, Pieces, AreRecords;
    var sorted := Text.Sorted(Stanzas(env, records), Text.Same);
    var bodies := Unended(sorted);
    SortedBodies(env, component, records, sorted);
    IndexSplits(bodies);
    PiecesAre(bodies);
    var k :| 0 <= k < |bodies| && Pieces(bodies)[k] == piece;
    r := SortedStanza(env, records, sorted[k]);
    OneBody(env, component, records, r);
  }

  lemma SortedBodies(env: Env, component: string, records: seq<Record>, sorted: seq<string>)
    requires ValidEnv(env) && IsVisible(component) && AreRecords(env, component, records)
    requires sorted == Text.Sorted(Stanzas(env, records), Text.Same)
    ensures |sorted| == |records| && Ended(Unended(sorted)) == sorted
    ensures forall i :: 0 <= i < |sorted| ==> IsTight(Unended(sorted)[i])
  {
    hide IsTight, StanzaOf, BodyOf, AreRecords;
    assert |sorted| == |records| by { assert |multiset(sorted)| == |multiset(Stanzas(env, records))|; }
    forall i | 0 <= i < |sorted| ensures IsTight(Unended(sorted)[i]) && sorted[i] == Unended(sorted)[i] + "\n" {
      var o := SortedStanza(env, records, sorted[i]);
      OneBody(env, component, records, o);
    }
  }

  lemma OneBody(env: Env, component: string, records: seq<Record>, r: Record)
    requires ValidEnv(env) && IsVisible(component) && AreRecords(env, component, records) && r in records
    ensures var s := StanzaOf(env, r);
            s != "" && s[..|s| - 1] == BodyOf(env, r) && s == BodyOf(env, r) + "\n" && IsTight(BodyOf(env, r))
  {
    hide StanzaOf, BodyOf;
    RecordBody(env, component, r);
    assert StanzaOf(env, r)[..|StanzaOf(env, r)| - 1] == BodyOf(env, r);
  }

  // ------------------------------------------------------------- the finished tree

  /** The content of an index and of its compressed copy. */
  ghost predicate HasIndex(env: Env, suite: string, component: string, records: seq<Record>, arch: string, tree: Tree) {
    var p, text := DistPath(suite, IndexName(component, arch)), env.encode(IndexText(env, records, arch));
    && p in tree && tree[p] == text
    && p + ".gz" in tree && tree[p + ".gz"] == env.gzip(text)
  }

  /** The entry is the file's. */
  predicate IsOf(env: Env, suite: string, tree: Tree, l: Listed) {
    var p := DistPath(suite, l.path);
    p in tree && l.sha == env.sha256(tree[p]) && l.size == |tree[p]|
  }

  ghost predicate ListsIndexes(env: Env, suite: string, component: string, arches: seq<string>, tree: Tree, list: seq<Listed>) {
    && (forall l :: l in list ==> IsOf(env, suite, tree, l))
    && (forall l :: l in list ==> exists a :: a in arches && (l.path == IndexName(component, a) || l.path == IndexName(component, a) + ".gz"))
    && (forall a :: a in arches ==> HasPath(list, IndexName(component, a)) && HasPath(list, IndexName(component, a) + ".gz"))
    && Ascending(list)
  }

  /** In the order of the names, each once. */
  ghost predicate Ascending(list: seq<Listed>) {
    forall i, j :: 0 <= i < j < |list| ==> list[i].path != list[j].path && Text.AtMost(list[i].path, list[j].path)
  }

  ghost predicate HasPath(list: seq<Listed>, path: string) {
    exists l :: l in list && l.path == path
  }

  /** The tree the build leaves for a non-empty list of packages. */
  ghost predicate Built(env: Env, h: Header, records: seq<Record>, list: seq<Listed>, tree: Tree) {
    && AreRecords(env, h.component, records) && Pooled(tree, records)
    && (forall a :: a in h.arches ==> For(records, a) != [] && HasIndex(env, h.suite, h.component, records, a, tree))
    && ListsIndexes(env, h.suite, h.component, h.arches, tree, list) && h.arches != []
    && DistPath(h.suite, "Release") in tree && tree[DistPath(h.suite, "Release")] == env.encode(ReleaseText(h, list))
    && (forall p :: p in tree ==> IsPlace(h.suite, h.component, p))
  }

  /** Where the build writes: the pool, the component of the suite, and the Release file. */
  predicate IsPlace(suite: string, component: string, p: string) {
    StartsPool(p) || DistPath(suite, component + "/") <= p || p == DistPath(suite, "Release")
  }

  /** What is asked of the header: no line of it looks like the list, and the names that
      stand in the list are lines. */
  ghost predicate SoundHeader(h: Header) {
    && IsHeader(h) && IsLine(h.component) && h.suite != ""
    && forall a :: a in h.arches ==> IsVisible(a)
  }

  /** The names the verifier can find again: a suite that is one directory, and a component
      that stands in the list as one word. */
  predicate Findable(h: Header) {
    '/' !in h.suite && IsVisible(h.component)
  }

  ghost predicate PlainHeader(h: Header) {
    SoundHeader(h) && Findable(h)
  }

  lemma {:induction false} SegmentOf(s: string, rest: string)
    requires '/' !in s
    ensures Segment(s + "/" + rest) == s
  {
    var t := s + "/" + rest;
    if s != "" {
      assert t[0] == s[0] && t[1..] == s[1..] + "/" + rest;
      SegmentOf(s[1..], rest);
    }
  }

  lemma PoolIsNoDist(p: string)
    ensures !(StartsPool(p) && DISTS <= p)
  {
    assert "pool/"[0] == 'p' && DISTS[0] == 'd';
  }

  lemma DistStarts(suite: string, path: string)
    ensures DistPath(suite, path) == DistPath(suite, "") + path && DISTS < DistPath(suite, path)
    ensures DistPath(suite, path)[|DISTS|..] == suite + "/" + path
  {
    assert DistPath(suite, path) == DISTS + (suite + "/" + path);
  }

  /** Below dists there is only the suite. */
  lemma PlaceSuite(suite: string, component: string, p: string)
    requires IsPlace(suite, component, p) && DISTS < p && '/' !in suite
    ensures Segment(p[|DISTS|..]) == suite
  {
    PoolIsNoDist(p);
    var below := component + "/";
    var rest := if DistPath(suite, below) <= p then below + p[|DistPath(suite, below)|..] else "Release";
    assert p == DistPath(suite, rest);
    DistStarts(suite, rest);
    SegmentOf(suite, rest);
  }

  lemma OneSuite(env: Env, h: Header, records: seq<Record>, list: seq<Listed>, tree: Tree, suite: string)
    requires Built(env, h, records, list, tree) && '/' !in h.suite && suite in Suites(tree)
    ensures suite == h.suite
  {
    hide IsPlace, DistPath, IndexText, IndexName, AreRecords, Pooled, HasIndex, ListsIndexes, ReleaseText;
    var p :| p in tree && DISTS < p && suite == Segment(p[|DISTS|..]);
    PlaceSuite(h.suite, h.component, p);
  }

  lemma {:induction false} HashComesFrom(list: seq<Listed>, path: string) returns (l: Listed)
    requires path in HashesOf(list)
    ensures l in list && l.path == path && HashesOf(list)[path] == (l.sha, l.size)
  {
    var last := list[|list| - 1];
    if last.path == path {
      l := last;
    } else {
      l := HashComesFrom(list[..|list| - 1], path);
    }
  }

  lemma {:induction false} ListedIsFound(list: seq<Listed>, l: Listed)
    requires l in list
    ensures l.path in HashesOf(list)
  {
    if l != list[|list| - 1] {
      ListedIsFound(list[..|list| - 1], l);
    }
  }

  lemma IndexNameIsVisible(component: string, arch: string)
    requires IsVisible(component) && IsVisible(arch)
    ensures IsVisible(IndexName(component, arch)) && IsVisible(IndexName(component, arch) + ".gz")
    ensures IndexName(component, arch) != ""
    ensures EndsWith(IndexName(component, arch), PACKAGES) && !EndsWith(IndexName(component, arch) + ".gz", PACKAGES)
  {
    var a := component + "/binary-";
    VisibleJoins(component, "/binary-");
    VisibleJoins(a, arch);
    VisibleJoins(a + arch, PACKAGES);
    VisibleJoins(IndexName(component, arch), ".gz");
    var gz := IndexName(component, arch) + ".gz";
    assert gz[|gz| - 1] == 'z' && PACKAGES[|PACKAGES| - 1] == 's';
    EndsApart(gz, PACKAGES);
  }

  lemma EndsApart(s: string, suffix: string)
    requires s != "" && suffix != "" && s[|s| - 1] != suffix[|suffix| - 1]
    ensures !EndsWith(s, suffix)
  {
  }

  lemma ListedAreListed(env: Env, h: Header, records: seq<Record>, list: seq<Listed>, tree: Tree, l: Listed)
    requires ValidEnv(env) && PlainHeader(h) && Built(env, h, records, list, tree) && l in list
    ensures IsListed(l)
  {
    var a :| a in h.arches && (l.path == IndexName(h.component, a) || l.path == IndexName(h.component, a) + ".gz");
    IndexNameIsVisible(h.component, a);
  }

  /** The hashes read from the built Release file. */
  lemma BuiltHashes(env: Env, h: Header, records: seq<Record>, list: seq<Listed>, tree: Tree)
    requires ValidEnv(env) && PlainHeader(h) && Built(env, h, records, list, tree)
    ensures HashesIn(env, tree, h.suite) == Some(HashesOf(list))
  {
    hide ReleaseHashes, ReleaseText, IsListed, IsHeader;
    forall i | 0 <= i < |list| ensures IsListed(list[i]) {
      ListedAreListed(env, h, records, list, tree, list[i]);
    }
    ReleaseReadsBack(env.toInt, h, list);
  }

  lemma IndexStanzaOk(env: Env, component: string, records: seq<Record>, arch: string, tree: Tree, piece: string)
    requires ValidEnv(env) && IsVisible(component) && AreRecords(env, component, records) && Pooled(tree, records)
    requires For(records, arch) != [] && piece in SplitBlank(IndexText(env, records, arch))
    ensures StanzaOk(env, tree, piece)
  {
    hide StanzaOk, IsBlank, SplitBlank, BodyOf, For, AreRecords, Pooled, ValidEnv, IsVisible;
    var mine := For(records, arch);
    ForAreRecords(env, component, records, arch);
    var r := IndexPieces(env, component, mine, piece);
    InRecords(env, component, records, tree, r);
    RecordStanzaOk(env, component, tree, r, piece);
  }

  lemma ForAreRecords(env: Env, component: string, records: seq<Record>, arch: string)
    requires AreRecords(env, component, records)
    ensures AreRecords(env, component, For(records, arch)) && forall r :: r in For(records, arch) ==> r in records
  {
    hide IsRecord;
    OnlyAre(records, arch);
    OnlyAre(records, "all");
    forall i | 0 <= i < |For(records, arch)| ensures IsRecord(env, component, For(records, arch)[i]) {
      var r := For(records, arch)[i];
      assert r in records;
      var k :| 0 <= k < |records| && records[k] == r;
    }
  }

  lemma InRecords(env: Env, component: string, records: seq<Record>, tree: Tree, r: Record)
    requires AreRecords(env, component, records) && Pooled(tree, records) && r in records
    ensures IsRecord(env, component, r) && r.path in tree && tree[r.path] == r.deb
  {
  }

  lemma BuiltIndexOk(env: Env, h: Header, records: seq<Record>, list: seq<Listed>, tree: Tree, a: string)
    requires ValidEnv(env) && PlainHeader(h) && Built(env, h, records, list, tree) && a in h.arches
    ensures IndexOk(env, tree, DistPath(h.suite, IndexName(h.component, a)))
  {
    hide StanzaOk, AreRecords, Pooled, SplitBlank, StanzasIn, ListsIndexes, ReleaseText, IndexText, IsHeader, IndexName, For;
    var text := IndexText(env, records, a);
    var stanzas := StanzasIn(SplitBlank(text));
    StanzasInAre(SplitBlank(text));
    assert HasIndex(env, h.suite, h.component, records, a, tree);
    forall i | 0 <= i < |stanzas| ensures StanzaOk(env, tree, stanzas[i]) {
      assert stanzas[i] in SplitBlank(text);
      IndexStanzaOk(env, h.component, records, a, tree, stanzas[i]);
    }
  }

  // ------------------------------------------------------------- what cannot be found again

  lemma {:induction false} SegmentStops(s: string)
    requires '/' in s
    ensures |Segment(s)| < |s| && s[|Segment(s)|] == '/'
  {
    if s[0] != '/' {
      assert s == [s[0]] + s[1..];
      SegmentStops(s[1..]);
    }
  }

  /** Of a suite with a slash in it, the verifier sees the first directory, and there is no
      Release file in that. */
  lemma SlashedIsRefused(env: Env, h: Header, records: seq<Record>, list: seq<Listed>, tree: Tree)
    requires Built(env, h, records, list, tree) && '/' in h.suite
    ensures !Accepted(env, tree)
  {
    hide AreRecords, Pooled, HasIndex, ListsIndexes, ReleaseText, IndexOk, ListedOk, DistPath, IsPlace;
    var release, first := DistPath(h.suite, "Release"), Segment(h.suite);
    DistStarts(h.suite, "Release");
    SegmentStops(h.suite);
    SegmentGoesOn(h.suite, "/Release");
    assert h.suite + "/" + "Release" == h.suite + "/Release";
    assert first in Suites(tree);
    NoOuterRelease(h.suite, h.component);
    assert HashesIn(env, tree, first).None?;
    assert !SuiteOk(env, tree, first);
  }

  lemma {:induction false} SegmentGoesOn(s: string, more: string)
    requires '/' in s
    ensures Segment(s + more) == Segment(s)
  {
    assert (s + more)[0] == s[0] && (s + more)[1..] == s[1..] + more;
    if s[0] != '/' {
      assert s == [s[0]] + s[1..];
      SegmentGoesOn(s[1..], more);
    }
  }

  lemma PrefixCut(stem: string, x: string, y: string)
    requires stem + x <= stem + y
    ensures x <= y
  {
    assert (stem + x)[|stem|..] == x && (stem + y)[|stem|..] == y;
  }

  lemma SameTail(stem: string, x: string, y: string)
    requires stem + x == stem + y
    ensures x == y
  {
    assert (stem + x)[|stem|..] == x && (stem + y)[|stem|..] == y;
  }

  lemma Slashed(rest: string, path: string)
    ensures '/' in rest + "/" + path
  {
    assert (rest + "/" + path)[|rest|] == '/';
  }

  /** Nothing below the suite lies outside of its directories. */
  lemma NoneOutside(first: string, rest: string, path: string)
    ensures !(DistPath(first + "/" + rest, path) <= DistPath(first, "Release"))
  {
    var stem := DISTS + first + "/";
    BelowStem(first, rest, path);
    Slashed(rest, path);
    if stem + (rest + "/" + path) <= stem + "Release" {
      PrefixCut(stem, rest + "/" + path, "Release");
      assert false;
    }
  }

  lemma NoOuterRelease(suite: string, component: string)
    requires '/' in suite
    ensures !IsPlace(suite, component, DistPath(Segment(suite), "Release"))
  {
    hide Segment;
    SegmentStops(suite);
    var first := Segment(suite);
    var rest := suite[|first| + 1..];
    assert suite == first + "/" + rest;
    hide DistPath;
    DistStarts(first, "Release");
    PoolIsNoDist(DistPath(first, "Release"));
    NoneOutside(first, rest, component + "/");
    NoneOutside(first, rest, "Release");
  }

  lemma BelowStem(first: string, rest: string, path: string)
    ensures DistPath(first + "/" + rest, path) == DISTS + first + "/" + (rest + "/" + path)
  {
  }

  /** A path read from the list is one word, and that of a component with white space in it is
      not; so none of the files listed is found. */
  lemma SpacedIsRefused(env: Env, h: Header, records: seq<Record>, list: seq<Listed>, tree: Tree)
    requires ValidEnv(env) && SoundHeader(h) && Built(env, h, records, list, tree)
    requires '/' !in h.suite && !IsVisible(h.component)
    ensures !Accepted(env, tree)
  {
    hide AreRecords, Pooled, HasIndex, ReleaseText, IndexOk, DistPath, IsPlace, IndexName, IsHeader, ListedLines;
    var release := DistPath(h.suite, "Release");
    DistStarts(h.suite, "Release");
    SegmentOf(h.suite, "Release");
    assert h.suite in Suites(tree);
    if SuiteOk(env, tree, h.suite) {
      ListedAreLines(env, h, records, list, tree);
      ReleaseReadsList(env.toInt, h, list);
      var hashes := HashesIn(env, tree, h.suite).value;
      assert hashes.Keys != {};
      var path :| path in hashes;
      ListedLinesStand(list);
      var i := PathIsLastWord(env.toInt, ListedLines(list), map[], path);
      ListedWord(h.component, h.arches, list[i], path);
      assert ListedOk(env, tree, DistPath(h.suite, path), hashes[path]);
      WordIsNoPlace(h.suite, h.component, path);
    }
  }

  /** Every line of the list is a line. */
  lemma ListedAreLines(env: Env, h: Header, records: seq<Record>, list: seq<Listed>, tree: Tree)
    requires ValidEnv(env) && SoundHeader(h) && Built(env, h, records, list, tree)
    ensures forall i :: 0 <= i < |list| ==> IsLine(list[i].path) && IsVisible(list[i].sha) && IsIndexName(h.component, h.arches, list[i].path)
  {
    hide AreRecords, Pooled, HasIndex, ReleaseText, IndexName, DistPath, IsHeader, IsVisible, IsLine;
    forall i | 0 <= i < |list| ensures IsLine(list[i].path) && IsVisible(list[i].sha) && IsIndexName(h.component, h.arches, list[i].path) {
      assert list[i] in list;
      var a :| a in h.arches && (list[i].path == IndexName(h.component, a) || list[i].path == IndexName(h.component, a) + ".gz");
      IndexNameIsLine(h.component, a);
    }
  }

  ghost predicate IsIndexName(component: string, arches: seq<string>, path: string) {
    exists a :: a in arches && (path == IndexName(component, a) || path == IndexName(component, a) + ".gz")
  }

  lemma IndexNameIsLine(component: string, arch: string)
    requires IsLine(component) && IsVisible(arch)
    ensures IsLine(IndexName(component, arch)) && IsLine(IndexName(component, arch) + ".gz")
  {
  }

  lemma ListedLinesStand(list: seq<Listed>)
    requires forall i :: 0 <= i < |list| ==> IsLine(list[i].path) && IsVisible(list[i].sha)
    ensures forall k :: 0 <= k < |ListedLines(list)| ==> " " <= ListedLines(list)[k] && !(SHA256_FIELD <= ListedLines(list)[k])
    ensures |ListedLines(list)| == |list| && forall k :: 0 <= k < |list| ==> ListedLines(list)[k] == ListedLine(list[k])
  {
    hide IsLine, IsVisible, ListedLine;
    forall k | 0 <= k < |list| ensures " " <= ListedLines(list)[k] && !(SHA256_FIELD <= ListedLines(list)[k]) {
      ListedLineStands(list[k]);
    }
  }

  lemma ListedWord(component: string, arches: seq<string>, l: Listed, path: string)
    requires IsIndexName(component, arches, l.path)
    requires |Words(ListedLine(l))| == 3 && Words(ListedLine(l))[2] == path
    ensures IsVisible(path) && path != "" && path[|path| - 1] != 'e'
  {
    hide IndexName, Words, IsVisible;
    var a :| a in arches && (l.path == IndexName(component, a) || l.path == IndexName(component, a) + ".gz");
    NameEnds(component, a);
    var line := ListedLine(l);
    assert line[|line| - 1] == l.path[|l.path| - 1];
    LastWord(line);
    WordsAreVisible(line);
  }

  lemma NameEnds(component: string, arch: string)
    ensures var p := IndexName(component, arch); p != "" && p[|p| - 1] == 's' && (p + ".gz")[|p| + 2] == 'z'
  {
  }

  lemma WordIsNoPlace(suite: string, component: string, path: string)
    requires IsVisible(path) && !IsVisible(component) && path != "" && path[|path| - 1] != 'e'
    ensures !IsPlace(suite, component, DistPath(suite, path))
  {
    hide IsVisible;
    DistStarts(suite, path);
    DistStarts(suite, component + "/");
    DistStarts(suite, "Release");
    PoolIsNoDist(DistPath(suite, path));
    assert "Release"[|"Release"| - 1] == 'e';
    var stem := DistPath(suite, "");
    if component + "/" <= path {
      assert path[..|component|] == component;
      PrefixVisible(path, |component|);
    }
    if stem + (component + "/") <= stem + path {
      PrefixCut(stem, component + "/", path);
    }
    if stem + path == stem + "Release" {
      SameTail(stem, path, "Release");
    }
  }

  /** The verifier accepts what the build lays down exactly when the suite is one directory and
      the component one word. */
  lemma AcceptedIffFindable(env: Env, h: Header, records: seq<Record>, list: seq<Listed>, tree: Tree)
    requires ValidEnv(env) && SoundHeader(h) && Built(env, h, records, list, tree)
    ensures Accepted(env, tree) <==> Findable(h)
  {
    hide Built, Accepted, IsVisible, SoundHeader, ValidEnv;
    if '/' in h.suite {
      SlashedIsRefused(env, h, records, list, tree);
    } else if !IsVisible(h.component) {
      SpacedIsRefused(env, h, records, list, tree);
    } else {
      BuiltIsAccepted(env, h, records, list, tree);
    }
  }

  // ------------------------------------------------------------- what is accepted

  /** Everything the build lays down passes the verifier. */
  lemma BuiltIsAccepted(env: Env, h: Header, records: seq<Record>, list: seq<Listed>, tree: Tree)
    requires ValidEnv(env) && PlainHeader(h) && Built(env, h, records, list, tree)
    ensures Accepted(env, tree)
  {
    forall suite | suite in Suites(tree) ensures SuiteOk(env, tree, suite) {
      OneSuite(env, h, records, list, tree, suite);
      BuiltSuiteOk(env, h, records, list, tree);
    }
  }

  lemma BuiltSuiteOk(env: Env, h: Header, records: seq<Record>, list: seq<Listed>, tree: Tree)
    requires ValidEnv(env) && PlainHeader(h) && Built(env, h, records, list, tree)
    ensures SuiteOk(env, tree, h.suite)
  {
    hide IndexOk, HasIndex, IsRecord, HashesIn, ReleaseText, IndexName;
    BuiltHashes(env, h, records, list, tree);
    var hashes := HashesOf(list);
    forall path | path in hashes
      ensures ListedOk(env, tree, DistPath(h.suite, path), hashes[path])
      ensures EndsWith(path, PACKAGES) ==> IndexOk(env, tree, DistPath(h.suite, path)) {
      var l := HashComesFrom(list, path);
      var a :| a in h.arches && (l.path == IndexName(h.component, a) || l.path == IndexName(h.component, a) + ".gz");
      IndexNameIsVisible(h.component, a);
      BuiltIndexOk(env, h, records, list, tree, a);
    }
    var a := h.arches[0];
    assert HasPath(list, IndexName(h.component, a));
    var l :| l in list && l.path == IndexName(h.component, a);
    ListedIsFound(list, l);
  }

  // ------------------------------------------------------------- building it

  /** The packages' records, or None when one of them cannot be read. */
  function RecordsOf(env: Env, component: string, debs: seq<Bytes>): Option<seq<Record>> {
    if debs == [] then Some([])
    else
      var front, last := RecordsOf(env, component, debs[..|debs| - 1]), RecordOf(env, component, debs[|debs| - 1]);
      if front.None? || last.None? then None else Some(front.value + [last.value])
  }

  ghost predicate DifferentPaths(records: seq<Record>) {
    forall i, j :: 0 <= i < j < |records| ==> records[i].path != records[j].path
  }

  function Grouped(byArch: map<string, seq<string>>, arch: string): seq<string> {
    if arch in byArch then byArch[arch] else []
  }

  /** Nothing else is in the tree. */
  ghost predicate OnlyThese(records: seq<Record>, tree: Tree) {
    forall p :: p in tree ==> exists i :: 0 <= i < |records| && records[i].path == p
  }

  ghost predicate GroupedRight(env: Env, records: seq<Record>, byArch: map<string, seq<string>>) {
    forall a :: Grouped(byArch, a) == Stanzas(env, Only(records, a))
  }

  ghost predicate ArchesOf(records: seq<Record>, arches: set<string>) {
    forall a :: a in arches <==> exists i :: 0 <= i < |records| && records[i].arch == a
  }

  /** The pool, and the stanzas by architecture. */
  ghost predicate Filled(env: Env, component: string, records: seq<Record>, tree: Tree, byArch: map<string, seq<string>>) {
    && AreRecords(env, component, records) && DifferentPaths(records) && Pooled(tree, records) && OnlyThese(records, tree)
    && GroupedRight(env, records, byArch) && ArchesOf(records, byArch.Keys)
  }

  lemma OnlyStep(env: Env, records: seq<Record>, r: Record, a: string)
    ensures Stanzas(env, Only(records + [r], a))
         == if r.arch == a then Stanzas(env, Only(records, a)) + [StanzaOf(env, r)] else Stanzas(env, Only(records, a))
  {
    assert (records + [r])[..|records|] == records;
    if r.arch == a {
      assert Only(records + [r], a) == Only(records, a) + [r];
    }
  }

  lemma GroupedStep(env: Env, records: seq<Record>, byArch: map<string, seq<string>>, r: Record)
    requires GroupedRight(env, records, byArch)
    ensures GroupedRight(env, records + [r], byArch[r.arch := Grouped(byArch, r.arch) + [StanzaOf(env, r)]])
  {
    hide StanzaOf, Only, Stanzas;
    var now := byArch[r.arch := Grouped(byArch, r.arch) + [StanzaOf(env, r)]];
    forall a ensures Grouped(now, a) == Stanzas(env, Only(records + [r], a)) {
      OnlyStep(env, records, r, a);
    }
  }

  lemma ArchesStep(records: seq<Record>, arches: set<string>, r: Record)
    requires ArchesOf(records, arches)
    ensures ArchesOf(records + [r], arches + {r.arch})
  {
    var more := records + [r];
    forall a ensures a in arches + {r.arch} <==> exists i :: 0 <= i < |more| && more[i].arch == a {
      if i :| 0 <= i < |records| && records[i].arch == a { assert more[i].arch == a; }
      assert more[|records|].arch == r.arch;
    }
  }

  lemma PoolStep(records: seq<Record>, tree: Tree, r: Record)
    requires DifferentPaths(records) && Pooled(tree, records) && OnlyThese(records, tree) && r.path !in tree
    ensures var more, now := records + [r], tree[r.path := r.deb]; DifferentPaths(more) && Pooled(now, more) && OnlyThese(more, now)
  {
    var more, now := records + [r], tree[r.path := r.deb];
    forall p | p in now ensures exists i :: 0 <= i < |more| && more[i].path == p {
      if p == r.path {
        assert more[|records|].path == p;
      } else {
        var i :| 0 <= i < |records| && records[i].path == p;
        assert more[i].path == p;
      }
    }
  }

  lemma RecordsStep(env: Env, component: string, records: seq<Record>, r: Record)
    requires AreRecords(env, component, records) && IsRecord(env, component, r)
    ensures AreRecords(env, component, records + [r])
  {
    hide IsRecord;
  }

  lemma FillStep(env: Env, component: string, records: seq<Record>, tree: Tree, byArch: map<string, seq<string>>, r: Record)
    requires Filled(env, component, records, tree, byArch) && IsRecord(env, component, r) && r.path !in tree
    ensures Filled(env, component, records + [r], tree[r.path := r.deb],
                   byArch[r.arch := Grouped(byArch, r.arch) + [StanzaOf(env, r)]])
  {
    hide IsRecord, StanzaOf, Grouped, AreRecords, Pooled, DifferentPaths, OnlyThese, GroupedRight, ArchesOf;
    RecordsStep(env, component, records, r);
    PoolStep(records, tree, r);
    GroupedStep(env, records, byArch, r);
    ArchesStep(records, byArch.Keys, r);
    assert byArch[r.arch := Grouped(byArch, r.arch) + [StanzaOf(env, r)]].Keys == byArch.Keys + {r.arch};
  }

  /** Copies every package into the pool and writes its stanza; fails when a package cannot be
      read or two have the same place. */
  method FillPool(env: Env, component: string, debs: seq<Bytes>)
    returns (ok: bool, tree: Tree, byArch: map<string, seq<string>>, ghost records: seq<Record>)
    ensures ok <==> RecordsOf(env, component, debs).Some? && DifferentPaths(RecordsOf(env, component, debs).value)
    ensures ok ==> RecordsOf(env, component, debs) == Some(records) && Filled(env, component, records, tree, byArch)
  {
    ok, tree, byArch, records := true, map[], map[], [];
    NothingFilled(env, component);
    hide Filled, RecordOf, StanzaOf;
    for i := 0 to |debs|
      invariant RecordsOf(env, component, debs[..i]) == Some(records) && Filled(env, component, records, tree, byArch)
    {
      assert debs[..i + 1][..i] == debs[..i];
      var r := RecordOf(env, component, debs[i]);
      if r.None? {
        NoneAfter(env, component, debs, i + 1);
        return false, map[], map[], [];
      }
      RecordHasDeb(env, component, debs[i], r.value);
      if r.value.path in tree {
        Taken(env, component, records, tree, byArch, r.value);
        RepeatedAfter(env, component, debs, i + 1, records + [r.value]);
        return false, map[], map[], [];
      }
      FillStep(env, component, records, tree, byArch, r.value);
      byArch := byArch[r.value.arch := Grouped(byArch, r.value.arch) + [StanzaOf(env, r.value)]];
      tree := tree[r.value.path := debs[i]];
      records := records + [r.value];
    }
    assert debs[..|debs|] == debs;
    FilledDiffer(env, component, records, tree, byArch);
  }

  lemma NothingFilled(env: Env, component: string)
    ensures Filled(env, component, [], map[], map[])
  {
  }

  lemma FilledDiffer(env: Env, component: string, records: seq<Record>, tree: Tree, byArch: map<string, seq<string>>)
    requires Filled(env, component, records, tree, byArch)
    ensures DifferentPaths(records)
  {
  }

  lemma RecordHasDeb(env: Env, component: string, deb: Bytes, r: Record)
    requires RecordOf(env, component, deb) == Some(r)
    ensures r.deb == deb && IsRecord(env, component, r)
  {
  }

  lemma Taken(env: Env, component: string, records: seq<Record>, tree: Tree, byArch: map<string, seq<string>>, r: Record)
    requires Filled(env, component, records, tree, byArch) && r.path in tree
    ensures !DifferentPaths(records + [r])
  {
    var i :| 0 <= i < |records| && records[i].path == r.path;
    assert (records + [r])[i].path == (records + [r])[|records|].path;
  }

  lemma {:induction false} NoneAfter(env: Env, component: string, debs: seq<Bytes>, i: nat)
    requires i <= |debs| && RecordsOf(env, component, debs[..i]).None?
    ensures RecordsOf(env, component, debs).None?
    decreases |debs|
  {
    if i < |debs| {
      assert debs[..|debs| - 1][..i] == debs[..i];
      NoneAfter(env, component, debs[..|debs| - 1], i);
    } else {
      assert debs[..i] == debs;
    }
  }

  lemma {:induction false} RepeatedAfter(env: Env, component: string, debs: seq<Bytes>, i: nat, records: seq<Record>)
    requires i <= |debs| && RecordsOf(env, component, debs[..i]) == Some(records) && !DifferentPaths(records)
    ensures var all := RecordsOf(env, component, debs); all.None? || !DifferentPaths(all.value)
    decreases |debs|
  {
    if i < |debs| {
      assert debs[..|debs| - 1][..i] == debs[..i];
      RepeatedAfter(env, component, debs[..|debs| - 1], i, records);
      var front, all := RecordsOf(env, component, debs[..|debs| - 1]), RecordsOf(env, component, debs);
      if all.Some? {
        var k, l :| 0 <= k < l < |front.value| && front.value[k].path == front.value[l].path;
        assert all.value[k].path == all.value[l].path;
      }
    } else {
      assert debs[..i] == debs;
    }
  }
}
