/** The build of an apt tree, step by step, and its main result: exactly when what it writes is accepted. */
module AptRepository {
  import opened Octets
  import opened Options
  import opened Finite
  import Text
  import opened Strings
  import opened AptIndex
  import opened AptRelease
  import opened AptVerify
  import opened AptBuild
  import opened AptTree
  import opened Deb822
  import opened DebStanza

  /** The architectures that get an index. */
  ghost predicate AreArches(records: seq<Record>, arches: seq<string>) {
    Served(records, arches) && AreNamed(records, arches)
  }

  /** Every one of them has packages to list, and every package is listed. */
  ghost predicate Served(records: seq<Record>, arches: seq<string>) {
    && Distinct(arches) && arches != []
    && (forall a :: a in arches ==> a != "all" && For(records, a) != [])
    && (forall r :: r in records ==> r.arch == "all" || r.arch in arches)
    && forall a :: a in arches ==> IsVisible(a)
  }

  /** They are those of the packages, in order, and amd64 when no package has one. */
  ghost predicate AreNamed(records: seq<Record>, arches: seq<string>) {
    && Text.Ordered(arches, Text.Same)
    && Elements(arches) == (if ArchesIn(records) == {} then {"amd64"} else ArchesIn(records))
  }

  /** The architectures packages are made for, one by one. */
  ghost function ArchesIn(records: seq<Record>): set<string> {
    (set r | r in records :: r.arch) - {"all"}
  }

  /** sorted(a for a in by_arch if a != "all"), or amd64 when only "all" is there. */
  method Arches(ghost env: Env, ghost component: string, ghost records: seq<Record>, ghost tree: Tree, byArch: map<string, seq<string>>)
    returns (arches: seq<string>)
    requires Filled(env, component, records, tree, byArch) && records != []
    ensures AreArches(records, arches)
  {
    hide Served, AreNamed, Filled;
    KeysNamed(env, component, records, tree, byArch);
    arches := Text.SortedSet(byArch.Keys - {"all"});
    if arches == [] {
      assert Elements(arches) == {};
      arches := ["amd64"];
      OnlyForAll(env, component, records, tree, byArch);
      assert byArch.Keys - {"all"} == {};
      OneNamed(records, "amd64");
    } else {
      ArchesFit(env, component, records, tree, byArch, arches);
      OrderedNamed(records, arches);
    }
  }

  lemma KeysNamed(env: Env, component: string, records: seq<Record>, tree: Tree, byArch: map<string, seq<string>>)
    requires Filled(env, component, records, tree, byArch)
    ensures ArchesIn(records) == byArch.Keys - {"all"}
  {
    hide AreRecords, Pooled, DifferentPaths, OnlyThese, GroupedRight, ArchesOf, ArchesIn;
    ArchesAreKeys(records, byArch.Keys);
  }

  lemma OneNamed(records: seq<Record>, a: string)
    requires ArchesIn(records) == {} && a == "amd64"
    ensures AreNamed(records, [a])
  {
  }

  lemma OrderedNamed(records: seq<Record>, arches: seq<string>)
    requires Text.Ordered(arches, Text.Same) && arches != [] && Elements(arches) == ArchesIn(records)
    ensures AreNamed(records, arches)
  {
    assert arches[0] in Elements(arches);
  }

  lemma OnlyForAll(env: Env, component: string, records: seq<Record>, tree: Tree, byArch: map<string, seq<string>>)
    requires Filled(env, component, records, tree, byArch) && records != [] && byArch.Keys - {"all"} == {}
    ensures Served(records, ["amd64"])
  {
    hide For, IsRecord, Pooled, DifferentPaths;
    forall r | r in records ensures r.arch == "all" {
      assert r.arch in byArch;
      assert r.arch !in byArch.Keys - {"all"};
    }
    assert records[0] in records;
    InFor(records, records[0], "amd64");
  }

  lemma ArchesAreKeys(records: seq<Record>, keys: set<string>)
    requires ArchesOf(records, keys)
    ensures ArchesIn(records) == keys - {"all"}
  {
    forall a ensures a in (set r | r in records :: r.arch) <==> a in keys {
      if i :| 0 <= i < |records| && records[i].arch == a {
        assert records[i] in records;
      }
    }
  }

  lemma ArchesFit(env: Env, component: string, records: seq<Record>, tree: Tree, byArch: map<string, seq<string>>, arches: seq<string>)
    requires Filled(env, component, records, tree, byArch)
    requires Distinct(arches) && arches != [] && Elements(arches) == byArch.Keys - {"all"}
    ensures Served(records, arches)
  {
    hide For, IsRecord, IsVisible, Pooled, DifferentPaths;
    forall a | a in arches ensures a != "all" && For(records, a) != [] && IsVisible(a) {
      assert a in Elements(arches);
      var i :| 0 <= i < |records| && records[i].arch == a;
      InFor(records, records[i], a);
      RecordPlace(env, component, records[i]);
    }
    forall r | r in records && r.arch != "all" ensures r.arch in arches {
      assert r.arch in byArch;
      assert r.arch in Elements(arches);
    }
  }

  lemma InFor(records: seq<Record>, r: Record, a: string)
    requires r in records && (r.arch == a || r.arch == "all")
    ensures r in For(records, a)
  {
    OnlyAre(records, a);
    OnlyAre(records, "all");
  }

  /** Packages for all architectures join the index of each. */
  method FanOut(byArch: map<string, seq<string>>, arches: seq<string>) returns (all: map<string, seq<string>>)
    requires Distinct(arches) && forall a :: a in arches ==> a != "all"
    ensures forall a :: a in arches ==> Grouped(all, a) == Grouped(byArch, a) + Grouped(byArch, "all")
  {
    all := byArch;
    if "all" !in byArch {
      assert forall a :: Grouped(byArch, a) + [] == Grouped(byArch, a);
      return;
    }
    assert FannedOut(byArch, all, arches, 0);
    for i := 0 to |arches|
      invariant FannedOut(byArch, all, arches, i)
    {
      FanStep(byArch, all, arches, i);
      hide FannedOut, Grouped, Distinct;
      all := all[arches[i] := Grouped(all, arches[i]) + byArch["all"]];
    }
    FannedAll(byArch, all, arches);
  }

  /** The first n architectures have what is for all of them, the others are as they were. */
  ghost predicate FannedOut(byArch: map<string, seq<string>>, all: map<string, seq<string>>, arches: seq<string>, n: nat) {
    && (forall k :: 0 <= k < |arches| && k < n ==> Grouped(all, arches[k]) == Grouped(byArch, arches[k]) + Grouped(byArch, "all"))
    && (forall k :: n <= k < |arches| ==> Grouped(all, arches[k]) == Grouped(byArch, arches[k]))
  }

  lemma FanStep(byArch: map<string, seq<string>>, all: map<string, seq<string>>, arches: seq<string>, n: nat)
    requires Distinct(arches) && n < |arches| && "all" in byArch && FannedOut(byArch, all, arches, n)
    ensures FannedOut(byArch, all[arches[n] := Grouped(all, arches[n]) + byArch["all"]], arches, n + 1)
  {
    var now := all[arches[n] := Grouped(all, arches[n]) + byArch["all"]];
    forall k | 0 <= k < |arches| && k != n ensures Grouped(now, arches[k]) == Grouped(all, arches[k]) {
      assert arches[k] != arches[n];
    }
  }

  lemma FannedAll(byArch: map<string, seq<string>>, all: map<string, seq<string>>, arches: seq<string>)
    requires FannedOut(byArch, all, arches, |arches|)
    ensures forall a :: a in arches ==> Grouped(all, a) == Grouped(byArch, a) + Grouped(byArch, "all")
  {
    hide Grouped;
    forall a | a in arches ensures Grouped(all, a) == Grouped(byArch, a) + Grouped(byArch, "all") {
      var k :| 0 <= k < |arches| && arches[k] == a;
    }
  }

  // ------------------------------------------------------------- no two files in one place

  lemma DistPathsDiffer(suite: string, a: string, b: string)
    requires a != b
    ensures DistPath(suite, a) != DistPath(suite, b)
  {
    var stem := DISTS + suite + "/";
    assert DistPath(suite, a)[|stem|..] == a && DistPath(suite, b)[|stem|..] == b;
  }

  lemma IndexNamesDiffer(component: string, a: string, b: string)
    requires a != b
    ensures IndexName(component, a) != IndexName(component, b)
  {
    Between(component + "/binary-", a, PACKAGES);
    Between(component + "/binary-", b, PACKAGES);
  }

  lemma Between(stem: string, a: string, tail: string)
    ensures var p := stem + a + tail; p[|stem|..|p| - |tail|] == a
  {
  }

  lemma LastOfName(component: string, a: string)
    ensures var p := IndexName(component, a); p != "" && p[|p| - 1] == 's' && (p + ".gz")[|p| + 2] == 'z'
  {
  }

  /** The four kinds of place differ: an index, another's index, a compressed copy, Release. */
  lemma PlacesDiffer(suite: string, component: string, a: string, b: string)
    requires a != b
    ensures var p, q := DistPath(suite, IndexName(component, a)), DistPath(suite, IndexName(component, b));
            p != q && p + ".gz" != q + ".gz" && p != q + ".gz" && q != p + ".gz"
  {
    IndexNamesDiffer(component, a, b);
    DistPathsDiffer(suite, IndexName(component, a), IndexName(component, b));
    LastOfName(component, a);
    LastOfName(component, b);
    var p, q := DistPath(suite, IndexName(component, a)), DistPath(suite, IndexName(component, b));
    assert p[|p| - 1] == 's' && q[|q| - 1] == 's';
    assert (p + ".gz")[|p| + 2] == 'z' && (q + ".gz")[|q| + 2] == 'z';
    assert (p + ".gz")[..|p|] == p && (q + ".gz")[..|q|] == q;
  }

  lemma ReleaseApart(suite: string, component: string, a: string)
    ensures var p := DistPath(suite, IndexName(component, a));
            p != DistPath(suite, "Release") && p + ".gz" != DistPath(suite, "Release")
  {
    LastOfName(component, a);
    var p, r := DistPath(suite, IndexName(component, a)), DistPath(suite, "Release");
    assert p[|p| - 1] == 's' && (p + ".gz")[|p| + 2] == 'z' && r[|r| - 1] == 'e';
  }

  lemma PoolApart(suite: string, path: string, p: string)
    requires StartsPool(p)
    ensures p != DistPath(suite, path) && p != DistPath(suite, path) + ".gz"
  {
    assert p[0] == 'p' && DistPath(suite, path)[0] == 'd' && (DistPath(suite, path) + ".gz")[0] == 'd';
  }

  lemma InDist(suite: string, path: string)
    ensures DistPath(suite, "") <= DistPath(suite, path) && DistPath(suite, "") <= DistPath(suite, path) + ".gz"
    ensures DistPath(suite, path + ".gz") == DistPath(suite, path) + ".gz"
  {
  }

  lemma IndexPlace(suite: string, component: string, arch: string)
    ensures DistPath(suite, component + "/") <= DistPath(suite, IndexName(component, arch))
    ensures DistPath(suite, component + "/") <= DistPath(suite, IndexName(component, arch)) + ".gz"
  {
    assert DistPath(suite, IndexName(component, arch)) == DistPath(suite, component + "/") + ("binary-" + arch + PACKAGES);
  }

  // ------------------------------------------------------------- indexes

  /** Every file is where the build writes. */
  ghost predicate Tidy(suite: string, component: string, tree: Tree) {
    forall p :: p in tree ==> StartsPool(p) || DistPath(suite, component + "/") <= p
  }

  ghost predicate PoolPlaces(records: seq<Record>) {
    forall i :: 0 <= i < |records| ==> StartsPool(records[i].path)
  }

  /** Writing one index and its copy. */
  function WithIndex(env: Env, suite: string, component: string, a: string, text: string, tree: Tree): Tree {
    var p := DistPath(suite, IndexName(component, a));
    tree[p := env.encode(text)][p + ".gz" := env.gzip(env.encode(text))]
  }

  lemma OneMoreIndex(env: Env, suite: string, component: string, records: seq<Record>, a: string, tree: Tree)
    requires Pooled(tree, records) && PoolPlaces(records) && Tidy(suite, component, tree)
    ensures var now := WithIndex(env, suite, component, a, IndexText(env, records, a), tree);
            && HasIndex(env, suite, component, records, a, now) && Pooled(now, records) && Tidy(suite, component, now)
  {
    hide IndexText, DistPath, IndexName;
    var p := DistPath(suite, IndexName(component, a));
    IndexPlace(suite, component, a);
    GzDiffers(p);
    forall i | 0 <= i < |records| ensures records[i].path != p && records[i].path != p + ".gz" {
      PoolApart(suite, IndexName(component, a), records[i].path);
    }
  }

  lemma GzDiffers(p: string)
    ensures p != p + ".gz"
  {
    assert |p + ".gz"| == |p| + 3;
  }

  lemma IndexStays(env: Env, suite: string, component: string, records: seq<Record>, a: string, text: string, b: string, tree: Tree)
    requires a != b && HasIndex(env, suite, component, records, b, tree)
    ensures HasIndex(env, suite, component, records, b, WithIndex(env, suite, component, a, text, tree))
  {
    hide IndexText, DistPath, IndexName;
    PlacesDiffer(suite, component, a, b);
  }

  lemma StanzasFor(env: Env, records: seq<Record>, a: string)
    ensures Stanzas(env, For(records, a)) == Stanzas(env, Only(records, a)) + Stanzas(env, Only(records, "all"))
  {
  }

  ghost predicate AreNames(component: string, arches: seq<string>, names: seq<string>) {
    && (forall n :: n in names ==> exists a :: a in arches && (n == IndexName(component, a) || n == IndexName(component, a) + ".gz"))
    && (forall a :: a in arches ==> IndexName(component, a) in names && IndexName(component, a) + ".gz" in names)
  }

  lemma OneMoreName(component: string, arches: seq<string>, names: seq<string>, i: nat)
    requires i < |arches| && AreNames(component, arches[..i], names)
    ensures AreNames(component, arches[..i + 1], names + [IndexName(component, arches[i]), IndexName(component, arches[i]) + ".gz"])
  {
    hide IndexName;
    var a := arches[i];
    assert arches[..i + 1] == arches[..i] + [a];
    assert a in arches[..i + 1];
  }

  /** The indexes of the first n architectures are written and named. */
  ghost predicate Indexed(env: Env, suite: string, component: string, records: seq<Record>, arches: seq<string>, n: nat,
                          tree: Tree, names: seq<string>) {
    && n <= |arches| && Pooled(tree, records) && Tidy(suite, component, tree)
    && (forall k :: 0 <= k < n ==> HasIndex(env, suite, component, records, arches[k], tree))
    && AreNames(component, arches[..n], names)
  }

  lemma IndexedNone(env: Env, suite: string, component: string, records: seq<Record>, arches: seq<string>, tree: Tree)
    requires Pooled(tree, records) && Tidy(suite, component, tree)
    ensures Indexed(env, suite, component, records, arches, 0, tree, [])
  {
  }

  lemma IndexedMore(env: Env, suite: string, component: string, records: seq<Record>, arches: seq<string>, n: nat,
                    tree: Tree, names: seq<string>)
    requires Indexed(env, suite, component, records, arches, n, tree, names)
    requires n < |arches| && Distinct(arches) && PoolPlaces(records)
    ensures var a, base := arches[n], IndexName(component, arches[n]);
            Indexed(env, suite, component, records, arches, n + 1, WithIndex(env, suite, component, a, IndexText(env, records, a), tree),
                    names + [base, base + ".gz"])
  {
    hide HasIndex, Pooled, PoolPlaces, Tidy, AreNames, IndexName, IndexText, WithIndex;
    var a := arches[n];
    OneMoreIndex(env, suite, component, records, a, tree);
    OneMoreName(component, arches, names, n);
    forall k | 0 <= k < n
      ensures HasIndex(env, suite, component, records, arches[k], WithIndex(env, suite, component, a, IndexText(env, records, a), tree))
    {
      IndexStays(env, suite, component, records, a, IndexText(env, records, a), arches[k], tree);
    }
  }

  lemma IndexedAll(env: Env, suite: string, component: string, records: seq<Record>, arches: seq<string>, tree: Tree, names: seq<string>)
    requires Indexed(env, suite, component, records, arches, |arches|, tree, names)
    ensures Pooled(tree, records) && Tidy(suite, component, tree) && AreNames(component, arches, names)
    ensures forall a :: a in arches ==> HasIndex(env, suite, component, records, a, tree)
  {
    hide HasIndex, Pooled, Tidy, AreNames;
    assert arches[..|arches|] == arches;
  }

  method WriteIndexes(env: Env, suite: string, component: string, arches: seq<string>, byArch: map<string, seq<string>>,
                      ghost records: seq<Record>, before: Tree)
    returns (tree: Tree, names: seq<string>)
    requires Distinct(arches) && Pooled(before, records) && PoolPlaces(records) && Tidy(suite, component, before)
    requires forall a :: a in arches ==> Grouped(byArch, a) == Stanzas(env, For(records, a))
    ensures Pooled(tree, records) && Tidy(suite, component, tree)
    ensures forall a :: a in arches ==> HasIndex(env, suite, component, records, a, tree)
    ensures AreNames(component, arches, names)
  {
    hide HasIndex, Pooled, PoolPlaces, Tidy, IndexName, DistPath, Stanzas, For, Grouped, Indexed, Distinct, AreNames;
    tree, names := before, [];
    IndexedNone(env, suite, component, records, arches, tree);
    for i := 0 to |arches|
      invariant Indexed(env, suite, component, records, arches, i, tree, names)
    {
      IndexedMore(env, suite, component, records, arches, i, tree, names);
      var a := arches[i];
      var text, base := Join(Text.Sorted(Grouped(byArch, a), Text.Same), "\n"), IndexName(component, a);
      tree := tree[DistPath(suite, base) := env.encode(text)];
      tree := tree[DistPath(suite, base) + ".gz" := env.gzip(env.encode(text))];
      names := names + [base, base + ".gz"];
    }
    IndexedAll(env, suite, component, records, arches, tree, names);
  }

  // ------------------------------------------------------------- the Release file

  ghost predicate NamesPresent(suite: string, names: seq<string>, tree: Tree) {
    forall n :: n in names ==> DistPath(suite, n) in tree
  }

  lemma NamesArePresent(env: Env, suite: string, component: string, records: seq<Record>, arches: seq<string>,
                        names: seq<string>, tree: Tree)
    requires AreNames(component, arches, names)
    requires forall a :: a in arches ==> HasIndex(env, suite, component, records, a, tree)
    ensures NamesPresent(suite, names, tree)
  {
    hide IndexText, IndexName;
    forall n | n in names ensures DistPath(suite, n) in tree {
      var a :| a in arches && (n == IndexName(component, a) || n == IndexName(component, a) + ".gz");
      InDist(suite, IndexName(component, a));
      assert HasIndex(env, suite, component, records, a, tree);
    }
  }

  /** The hash and size of every index, in the order of their names. */
  method ListIndexes(env: Env, suite: string, names: seq<string>, tree: Tree) returns (list: seq<Listed>)
    requires NamesPresent(suite, names, tree)
    ensures AreEntries(env, suite, names, tree, list)
  {
    hide DistPath, Text.AtMost;
    list := [];
    var sorted := Text.SortedSet(Elements(names));
    assert forall n :: n in names <==> n in Elements(sorted);
    for i := 0 to |sorted|
      invariant |list| == i && forall k :: 0 <= k < i ==> list[k].path == sorted[k] && IsOf(env, suite, tree, list[k])
    {
      assert sorted[i] in Elements(sorted);
      var data := tree[DistPath(suite, sorted[i])];
      list := list + [Listed(sorted[i], env.sha256(data), |data|)];
    }
    hide IsOf;
    forall l | l in list ensures l.path in names && IsOf(env, suite, tree, l) {
      var k :| 0 <= k < |list| && list[k] == l;
      assert sorted[k] in Elements(sorted);
    }
    forall n | n in names ensures HasPath(list, n) {
      assert n in Elements(sorted);
      var k :| 0 <= k < |sorted| && sorted[k] == n;
      assert list[k] in list;
    }
    forall i, j | 0 <= i < j < |list| ensures list[i].path != list[j].path && Text.AtMost(list[i].path, list[j].path) {
      assert Text.AtMost(Text.Same(sorted[i]), Text.Same(sorted[j]));
    }
  }

  lemma ReleaseAdded(env: Env, h: Header, records: seq<Record>, names: seq<string>, list: seq<Listed>, tree: Tree, release: Bytes)
    requires AreRecords(env, h.component, records) && Pooled(tree, records) && PoolPlaces(records) && Tidy(h.suite, h.component, tree)
    requires AreArches(records, h.arches) && AreNames(h.component, h.arches, names)
    requires forall a :: a in h.arches ==> HasIndex(env, h.suite, h.component, records, a, tree)
    requires AreEntries(env, h.suite, names, tree, list)
    requires release == env.encode(ReleaseText(h, list))
    ensures Built(env, h, records, list, tree[DistPath(h.suite, "Release") := release])
  {
    hide IndexText, IndexName, DistPath, ReleaseText, IsRecord, For, Distinct, AreEntries, AreNamed, AreNames, ListsIndexes, HasIndex;
    var now := tree[DistPath(h.suite, "Release") := release];
    forall a | a in h.arches ensures HasIndex(env, h.suite, h.component, records, a, now) {
      IndexOutlives(env, h.suite, h.component, records, a, tree, release);
    }
    forall i | 0 <= i < |records| ensures records[i].path in now && now[records[i].path] == records[i].deb {
      PoolApart(h.suite, "Release", records[i].path);
    }
    EntriesOutlive(env, h, names, list, tree, release);
    InDist(h.suite, "Release");
  }

  lemma IndexOutlives(env: Env, suite: string, component: string, records: seq<Record>, a: string, tree: Tree, release: Bytes)
    requires HasIndex(env, suite, component, records, a, tree)
    ensures HasIndex(env, suite, component, records, a, tree[DistPath(suite, "Release") := release])
  {
    hide IndexText, IndexName, DistPath;
    ReleaseApart(suite, component, a);
  }

  /** The list has an entry for each name, in order. */
  ghost predicate AreEntries(env: Env, suite: string, names: seq<string>, tree: Tree, list: seq<Listed>) {
    && (forall l :: l in list ==> l.path in names && IsOf(env, suite, tree, l))
    && (forall n :: n in names ==> HasPath(list, n)) && Ascending(list)
  }

  lemma EntriesOutlive(env: Env, h: Header, names: seq<string>, list: seq<Listed>, tree: Tree, release: Bytes)
    requires AreNames(h.component, h.arches, names) && AreEntries(env, h.suite, names, tree, list)
    ensures ListsIndexes(env, h.suite, h.component, h.arches, tree[DistPath(h.suite, "Release") := release], list)
  {
    hide IndexName, DistPath, HasPath, Ascending;
    forall l | l in list ensures DistPath(h.suite, l.path) != DistPath(h.suite, "Release") {
      var a :| a in h.arches && (l.path == IndexName(h.component, a) || l.path == IndexName(h.component, a) + ".gz");
      ReleaseApart(h.suite, h.component, a);
      InDist(h.suite, IndexName(h.component, a));
    }
  }

  lemma FilledPlaces(env: Env, component: string, suite: string, records: seq<Record>, tree: Tree, byArch: map<string, seq<string>>)
    requires Filled(env, component, records, tree, byArch)
    ensures PoolPlaces(records) && Tidy(suite, component, tree) && Pooled(tree, records) && AreRecords(env, component, records)
    ensures forall a :: Grouped(byArch, a) + Grouped(byArch, "all") == Stanzas(env, For(records, a))
  {
    forall i | 0 <= i < |records| ensures StartsPool(records[i].path) {
      assert IsRecord(env, component, records[i]);
      RecordPlace(env, component, records[i]);
    }
    forall a ensures Grouped(byArch, a) + Grouped(byArch, "all") == Stanzas(env, For(records, a)) {
      StanzasFor(env, records, a);
    }
  }

  // ------------------------------------------------------------- Release as a directory

  /** A file cannot be written where files lie below. */
  predicate IsDirectory(tree: Tree, path: string) {
    exists p :: p in tree && path + "/" <= p
  }

  lemma SegmentAlways(s: string, rest: string)
    ensures Segment(s + "/" + rest) == Segment(s)
  {
    if '/' in s {
      SegmentGoesOn(s, "/" + rest);
      assert s + "/" + rest == s + ("/" + rest);
    } else {
      SegmentOf(s, rest);
      SegmentOf(s, "");
      SegmentAlone(s);
    }
  }

  lemma {:induction false} SegmentAlone(s: string)
    requires '/' !in s
    ensures Segment(s) == s
  {
    if s != "" { SegmentAlone(s[1..]); }
  }

  /** A component below Release makes a directory of it. */
  lemma ReleaseIsDirectoryIff(env: Env, suite: string, component: string, records: seq<Record>, arches: seq<string>, tree: Tree)
    requires Tidy(suite, component, tree) && arches != []
    requires forall a :: a in arches ==> HasIndex(env, suite, component, records, a, tree)
    ensures IsDirectory(tree, DistPath(suite, "Release")) <==> Segment(component) == "Release"
  {
    hide DistPath, Segment, IndexText, IndexName, Tidy;
    var release := DistPath(suite, "Release");
    if IsDirectory(tree, release) {
      var p :| p in tree && release + "/" <= p;
      TidyPlace(suite, component, tree, p);
      BelowRelease(suite, component, p);
    }
    if Segment(component) == "Release" {
      assert arches[0] in arches;
      IndexBelowRelease(suite, component, arches[0]);
      assert HasIndex(env, suite, component, records, arches[0], tree);
    }
  }

  lemma TidyPlace(suite: string, component: string, tree: Tree, p: string)
    requires Tidy(suite, component, tree) && p in tree
    ensures StartsPool(p) || DistPath(suite, component + "/") <= p
  {
  }

  lemma BelowRelease(suite: string, component: string, p: string)
    requires StartsPool(p) || DistPath(suite, component + "/") <= p
    requires DistPath(suite, "Release") + "/" <= p
    ensures Segment(component) == "Release"
  {
    hide Segment, DistPath, StartsPool;
    DistStarts(suite, "Release");
    DistStarts(suite, component + "/");
    PoolIsNoDist(p);
    var stem := DistPath(suite, "");
    assert stem + "Release" + "/" == stem + ("Release" + "/");
    var rest := p[|stem|..];
    assert p == stem + rest;
    PrefixCut(stem, "Release" + "/", rest);
    PrefixCut(stem, component + "/", rest);
    FirstOf("Release", rest);
    FirstOf(component, rest);
    SegmentAlone("Release");
  }

  lemma FirstOf(s: string, path: string)
    requires s + "/" <= path
    ensures Segment(path) == Segment(s)
  {
    hide Segment;
    var rest := path[|s| + 1..];
    assert path == s + "/" + rest;
    SegmentAlways(s, rest);
  }

  lemma IndexBelowRelease(suite: string, component: string, arch: string)
    requires Segment(component) == "Release"
    ensures DistPath(suite, "Release") + "/" <= DistPath(suite, IndexName(component, arch))
  {
    var path := IndexName(component, arch);
    BelowFirst(component, "binary-" + arch + PACKAGES);
    assert path == component + "/" + ("binary-" + arch + PACKAGES);
    PrefixKept(DistPath(suite, ""), "Release" + "/", path);
    DistStarts(suite, path);
    DistStarts(suite, "Release");
    assert DistPath(suite, "Release") + "/" == DistPath(suite, "") + ("Release" + "/");
  }

  lemma BelowFirst(s: string, rest: string)
    ensures Segment(s) + "/" <= s + "/" + rest
  {
    hide Segment;
    var path := s + "/" + rest;
    SegmentAlways(s, rest);
    assert path[|s|] == '/';
    SegmentStops(path);
  }

  lemma PrefixKept(stem: string, x: string, y: string)
    requires x <= y
    ensures stem + x <= stem + y
  {
  }

  // ------------------------------------------------------------- the build

  /** The build of these packages gets to its end: each can be read, no two have the same place,
      and the component's directory is not where the Release file goes. */
  ghost predicate CanBuild(env: Env, component: string, debs: seq<Bytes>) {
    && RecordsOf(env, component, debs).Some? && DifferentPaths(RecordsOf(env, component, debs).value)
    && (debs != [] ==> Segment(component) != "Release")
  }

  /** The indexes and the Release file of a pool that is not empty. */
  method WriteDist(env: Env, about: Header, ghost records: seq<Record>, pool: Tree, byArch: map<string, seq<string>>)
    returns (ok: bool, tree: Tree, ghost h: Header, ghost list: seq<Listed>)
    requires Filled(env, about.component, records, pool, byArch) && records != []
    ensures ok <==> Segment(about.component) != "Release"
    ensures ok ==> h == about.(arches := h.arches) && AreArches(records, h.arches) && Built(env, h, records, list, tree)
  {
    hide Filled, Built, AreArches, IsHeader, ReleaseText, ValidEnv, IsDirectory, DistPath, Segment, HasIndex, Tidy, Pooled, AreNames;
    hide NamesPresent, PoolPlaces, AreRecords, Distinct, Stanzas, For, Grouped, IsVisible;
    var arches := Arches(env, about.component, records, pool, byArch);
    FilledPlaces(env, about.component, about.suite, records, pool, byArch);
    ArchesApart(records, arches);
    var all := FanOut(byArch, arches);
    var names;
    tree, names := WriteIndexes(env, about.suite, about.component, arches, all, records, pool);
    NamesArePresent(env, about.suite, about.component, records, arches, names, tree);
    var lines := ListIndexes(env, about.suite, names, tree);
    var head := about.(arches := arches);
    h, list := head, lines;
    ReleaseIsDirectoryIff(env, about.suite, about.component, records, arches, tree);
    ok := !IsDirectory(tree, DistPath(about.suite, "Release"));
    if ok {
      var release := env.encode(ReleaseText(head, lines));
      ReleaseAdded(env, h, records, names, list, tree, release);
      tree := tree[DistPath(about.suite, "Release") := release];
    }
  }

  /** Builds the tree for a list of packages. about gives the header but for the architectures.
      The verifier accepts the tree exactly when it can find again what the Release file lists. */
  method BuildApt(env: Env, about: Header, debs: seq<Bytes>)
    returns (ok: bool, tree: Tree, ghost records: seq<Record>, ghost h: Header, ghost list: seq<Listed>)
    requires ValidEnv(env) && IsNormal(about.suite) && IsNormal(about.component)
    requires IsHeader(about.(arches := [])) && IsLine(about.component)
    ensures ok <==> CanBuild(env, about.component, debs)
    ensures ok ==> RecordsOf(env, about.component, debs) == Some(records)
    ensures ok ==> (Accepted(env, tree) <==> debs == [] || Findable(about))
    ensures ok && debs != [] ==> h == about.(arches := h.arches) && AreArches(records, h.arches) && Built(env, h, records, list, tree)
    ensures ok && debs == [] ==> tree == map[]
  {
    hide Filled, Built, Accepted, AreArches, IsHeader, ValidEnv, IsNormal, IsLine, SoundHeader, Findable, RecordsOf, DifferentPaths;
    h, list := about, [];
    NormalIsName(about.suite);
    var byArch;
    ok, tree, byArch, records := FillPool(env, about.component, debs);
    if !ok {
      return;
    }
    RecordsCount(env, about.component, debs);
    if debs == [] {
      EmptyAccepted(env, about.component, records, tree, byArch);
      return;
    }
    ok, tree, h, list := WriteDist(env, about, records, tree, byArch);
    if ok {
      ArchesApart(records, h.arches);
      HeaderFits(about, h.arches);
      AcceptedIffFindable(env, h, records, list, tree);
    }
  }

  lemma NormalIsName(path: string)
    requires IsNormal(path)
    ensures path != ""
  {
  }

  lemma {:induction false} VisibleJoin(arches: seq<string>)
    requires forall a :: a in arches ==> IsVisible(a)
    ensures IsLine(Join(arches, " "))
  {
    if arches != [] {
      VisibleLine(arches[0]);
      VisibleJoin(arches[1..]);
      LinesJoin(arches[0], " ");
      LinesJoin(arches[0] + " ", Join(arches[1..], " "));
    }
  }

  lemma HeaderFits(about: Header, arches: seq<string>)
    requires IsHeader(about.(arches := [])) && IsLine(about.component) && about.suite != ""
    requires forall a :: a in arches ==> IsVisible(a)
    ensures SoundHeader(about.(arches := arches)) && (Findable(about) <==> Findable(about.(arches := arches)))
  {
    hide HasNoList, IsLine, IsVisible;
    VisibleJoin(arches);
    var now, was := about.(arches := arches), about.(arches := []);
    ArchesLine(arches);
    forall i | 0 <= i < |HeaderFields(now)| ensures HasNoList(FieldText(HeaderFields(now)[i]) + "\n") {
      SameFields(about, arches, i);
    }
  }

  lemma SameFields(about: Header, arches: seq<string>, i: nat)
    requires i < |HeaderFields(about.(arches := arches))|
    ensures var f := HeaderFields(about.(arches := arches))[i];
            f == Field("Architectures", Join(arches, " ")) || f in HeaderFields(about.(arches := []))
  {
    assert |HeaderFields(about.(arches := []))| == |HeaderFields(about.(arches := arches))|;
    assert HeaderFields(about.(arches := []))[i] in HeaderFields(about.(arches := []));
  }

  lemma ArchesLine(arches: seq<string>)
    requires IsLine(Join(arches, " "))
    ensures HasNoList(FieldText(Field("Architectures", Join(arches, " "))) + "\n")
  {
    hide HasNoList;
    LineIsSkipped(Field("Architectures", Join(arches, " ")));
  }

  lemma ArchesApart(records: seq<Record>, arches: seq<string>)
    requires AreArches(records, arches)
    ensures arches != [] && Distinct(arches) && forall a :: a in arches ==> a != "all" && IsVisible(a)
  {
  }

  lemma {:induction false} RecordsCount(env: Env, component: string, debs: seq<Bytes>)
    ensures RecordsOf(env, component, debs).Some? ==> |RecordsOf(env, component, debs).value| == |debs|
  {
    if debs != [] { RecordsCount(env, component, debs[..|debs| - 1]); }
  }

  lemma EmptyAccepted(env: Env, component: string, records: seq<Record>, tree: Tree, byArch: map<string, seq<string>>)
    requires Filled(env, component, records, tree, byArch) && records == []
    ensures tree == map[] && Accepted(env, tree)
  {
  }
}
