/** Mach-O images as the dependency bundler reads and edits them. */
module MachO {
  import opened Options

  /** The loads and run paths of an image, in order, repetitions included. */
  datatype Image = Image(deps: seq<string>, rpaths: seq<string>)

  /** The install_name_tool arguments for one image: -change and -delete_rpath. */
  datatype Edit = Edit(changes: map<string, string>, rpaths: seq<string>)

  const LOADER_PATH := "@loader_path/"
  const EXECUTABLE_PATH := "@executable_path/"
  const RPATH := "@rpath/"

  predicate IsSystem(name: string) {
    "/usr/lib/" <= name || "/System/Library/" <= name
  }

  /** os.path.join of two parts. */
  function Join(d: string, name: string): string {
    if "/" <= name then name
    else if d == "" || d[|d| - 1] == '/' then d + name
    else d + "/" + name
  }

  /** What follows the last slash. */
  function Basename(path: string): (r: string)
    ensures '/' !in r
  {
    if '/' !in path then path
    else Basename(path[1..])
  }

  /** A name is put below a directory with one slash between them; an absolute one stays. */
  lemma JoinIs(d: string, name: string)
    ensures Join(d, "/" + name) == "/" + name
    ensures name == "" || name[0] != '/' ==> Join("", name) == name && Join(d + "/", name) == d + "/" + name
    ensures d != "" && d[|d| - 1] != '/' && (name == "" || name[0] != '/') ==> Join(d, name) == d + "/" + name
  {
    assert (d + "/")[|d + "/"| - 1] == '/';
  }

  lemma {:induction false} BasenameIs(dir: string, name: string)
    requires '/' !in name
    ensures Basename(name) == name && Basename(dir + "/" + name) == name
  {
    var path := dir + "/" + name;
    assert path[|dir|] == '/';
    if dir == "" {
      assert path[1..] == name;
    } else {
      assert path[1..] == dir[1..] + "/" + name;
      BasenameIs(dir[1..], name);
    }
  }

  function JoinAll(ds: seq<string>, name: string): (r: seq<string>)
    ensures |r| == |ds|
    ensures forall i :: 0 <= i < |ds| ==> r[i] == Join(ds[i], name)
  {
    if ds == [] then [] else [Join(ds[0], name)] + JoinAll(ds[1..], name)
  }

  /** The paths a name may stand for. */
  function Expand(name: string, loaderDirs: seq<string>, exeDirs: seq<string>): seq<string> {
    if LOADER_PATH <= name then JoinAll(loaderDirs, name[|LOADER_PATH|..])
    else if EXECUTABLE_PATH <= name then JoinAll(exeDirs, name[|EXECUTABLE_PATH|..])
    else [name]
  }

  function ExpandAll(names: seq<string>, loaderDirs: seq<string>, exeDirs: seq<string>): seq<string> {
    if names == [] then []
    else Expand(names[0], loaderDirs, exeDirs) + ExpandAll(names[1..], loaderDirs, exeDirs)
  }

  /** What otool lists: each entry once, in order of first appearance. */
  function Once(s: seq<string>): (r: seq<string>)
    ensures forall x :: x in r <==> x in s
    ensures forall i, j :: 0 <= i < j < |r| ==> r[i] != r[j]
  {
    if s == [] then []
    else
      var front := Once(s[..|s| - 1]);
      var last := s[|s| - 1];
      assert s == s[..|s| - 1] + [last];
      if last in front then front else front + [last]
  }

  // ----- what the edits do

  function Renamed(deps: seq<string>, changes: map<string, string>): (r: seq<string>)
    ensures |r| == |deps|
    ensures forall i :: 0 <= i < |deps| ==> r[i] == if deps[i] in changes then changes[deps[i]] else deps[i]
  {
    if deps == [] then []
    else [if deps[0] in changes then changes[deps[0]] else deps[0]] + Renamed(deps[1..], changes)
  }

  /** One -delete_rpath: the first entry of that path goes. */
  function DeleteRpath(rpaths: seq<string>, r: string): (left: seq<string>)
    ensures multiset(left) == multiset(rpaths) - multiset{r}
  {
    if rpaths == [] then []
    else if rpaths[0] == r then
      assert rpaths == [r] + rpaths[1..];
      rpaths[1..]
    else
      assert rpaths == [rpaths[0]] + rpaths[1..];
      [rpaths[0]] + DeleteRpath(rpaths[1..], r)
  }

  function DeleteEach(rpaths: seq<string>, rs: seq<string>): seq<string>
    decreases |rs|
  {
    if rs == [] then rpaths else DeleteEach(DeleteRpath(rpaths, rs[0]), rs[1..])
  }

  /** n runs of install_name_tool, each deleting every listed path once. */
  function Strip(rpaths: seq<string>, n: nat): seq<string>
    decreases n
  {
    if n == 0 then rpaths else Strip(DeleteEach(rpaths, Once(rpaths)), n - 1)
  }

  /** How often r is listed. */
  ghost function Times(s: seq<string>, r: string): (n: nat)
    ensures r in s <==> n > 0
  {
    multiset(s)[r]
  }

  lemma DeleteRpathTimes(rpaths: seq<string>, x: string, r: string)
    ensures Times(DeleteRpath(rpaths, x), r) == if r == x && r in rpaths then Times(rpaths, r) - 1 else Times(rpaths, r)
  {
  }

  lemma {:induction false} DeleteEachTimes(rpaths: seq<string>, rs: seq<string>, r: string)
    requires forall i, j :: 0 <= i < j < |rs| ==> rs[i] != rs[j]
    ensures Times(DeleteEach(rpaths, rs), r) == if r in rs && r in rpaths then Times(rpaths, r) - 1 else Times(rpaths, r)
    decreases |rs|
  {
    hide Times, DeleteRpath;
    if rs != [] {
      DeleteRpathTimes(rpaths, rs[0], r);
      DeleteEachTimes(DeleteRpath(rpaths, rs[0]), rs[1..], r);
      assert rs == [rs[0]] + rs[1..];
      assert r == rs[0] ==> r !in rs[1..];
    }
  }

  /** n runs leave nothing just when no path is listed more than n times. */
  lemma {:induction false} StripEmptyIff(rpaths: seq<string>, n: nat)
    ensures Strip(rpaths, n) == [] <==> forall r :: Times(rpaths, r) <= n
    decreases n
  {
    if n == 0 {
      if rpaths != [] {
        assert Times(rpaths, rpaths[0]) > 0;
      }
    } else {
      hide Times, DeleteEach;
      var next := DeleteEach(rpaths, Once(rpaths));
      StripEmptyIff(next, n - 1);
      forall r ensures Times(next, r) <= n - 1 <==> Times(rpaths, r) <= n {
        DeleteEachTimes(rpaths, Once(rpaths), r);
      }
    }
  }

  // ----- where dyld finds a library

  /** The source file system: the real path of every regular file that a path leads
      to, the images, the directories @loader_path may stand for, the OS's libraries. */
  datatype Source = Source(
    lookup: string -> Option<string>,
    images: map<string, Image>,
    originDirs: string -> seq<string>,
    osHas: string -> bool)

  ghost predicate ValidSource(src: Source) {
    forall p :: src.lookup(p).Some? ==> src.lookup(p).value in src.images
  }

  /** What the names of an image are resolved against. */
  datatype Context = Context(loaderDirs: seq<string>, rpathDirs: seq<string>)

  function FirstFound(src: Source, cands: seq<string>): Option<string> {
    if cands == [] then None
    else if (if IsSystem(cands[0]) then src.osHas(cands[0]) else src.lookup(cands[0]).Some?) then Some(cands[0])
    else FirstFound(src, cands[1..])
  }

  /** Where dyld would find name: an OS path, an existing file, or nowhere. */
  function Resolve(src: Source, exeDirs: seq<string>, ctx: Context, name: string): (r: Option<string>)
    ensures r.Some? && !IsSystem(r.value) ==> src.lookup(r.value).Some?
  {
    if !("@" <= name) then
      if IsSystem(name) || src.lookup(name).Some? then Some(name) else None
    else
      var cands := if RPATH <= name then JoinAll(ctx.rpathDirs, name[|RPATH|..]) else Expand(name, ctx.loaderDirs, exeDirs);
      FirstFoundIsFile(src, cands);
      FirstFound(src, cands)
  }

  lemma {:induction false} FirstFoundIsFile(src: Source, cands: seq<string>)
    ensures var r := FirstFound(src, cands);
            r.Some? ==> r.value in cands && if IsSystem(r.value) then src.osHas(r.value) else src.lookup(r.value).Some?
  {
    if cands != [] { FirstFoundIsFile(src, cands[1..]); }
  }

  /** The search loop of resolve. */
  method ResolveName(src: Source, exeDirs: seq<string>, ctx: Context, name: string) returns (r: Option<string>)
    ensures r == Resolve(src, exeDirs, ctx, name)
  {
    if !("@" <= name) {
      return if IsSystem(name) || src.lookup(name).Some? then Some(name) else None;
    }
    var cands := if RPATH <= name then JoinAll(ctx.rpathDirs, name[|RPATH|..]) else Expand(name, ctx.loaderDirs, exeDirs);
    for i := 0 to |cands|
      invariant FirstFound(src, cands) == FirstFound(src, cands[i..])
    {
      var c := cands[i];
      assert cands[i..][0] == c && cands[i..][1..] == cands[i + 1..];
      if IsSystem(c) {
        if src.osHas(c) { return Some(c); }
      } else if src.lookup(c).Some? {
        return Some(c);
      }
    }
    return None;
  }

  // ----- what dyld's search comes to

  /** A candidate is there: an OS library that the system has, or an existing file. */
  predicate IsThere(src: Source, path: string) {
    if "/usr/lib/" <= path || "/System/Library/" <= path then src.osHas(path) else src.lookup(path).Some?
  }

  ghost predicate NoneThere(src: Source, cands: seq<string>) {
    forall k :: 0 <= k < |cands| ==> !IsThere(src, cands[k])
  }

  /** f is the first candidate that is there. */
  ghost predicate FirstThere(src: Source, cands: seq<string>, f: string) {
    exists k :: 0 <= k < |cands| && cands[k] == f && IsThere(src, f) && NoneThere(src, cands[..k])
  }

  /** What follows "@rpath/", below each place that one run path stands for. */
  function Under(rpath: string, loaderDirs: seq<string>, exeDirs: seq<string>, rest: string): seq<string> {
    JoinAll(Expand(rpath, loaderDirs, exeDirs), rest)
  }

  /** No run path leads to anything. */
  ghost predicate NoneUnder(src: Source, rpaths: seq<string>, loaderDirs: seq<string>, exeDirs: seq<string>, rest: string) {
    forall i :: 0 <= i < |rpaths| ==> NoneThere(src, Under(rpaths[i], loaderDirs, exeDirs, rest))
  }

  /** f is the first candidate of the first run path that leads to anything. */
  ghost predicate FirstUnder(src: Source, rpaths: seq<string>, loaderDirs: seq<string>, exeDirs: seq<string>, rest: string, f: string) {
    exists i :: 0 <= i < |rpaths|
             && FirstThere(src, Under(rpaths[i], loaderDirs, exeDirs, rest), f)
             && NoneUnder(src, rpaths[..i], loaderDirs, exeDirs, rest)
  }

  /** What dyld finds for a load of an image with these run paths: a plain path is itself; below
      "@rpath/" the image's own run paths come first, in order, and the inherited directories only
      when none of them leads anywhere; anything else is the first place it stands for. */
  ghost predicate DyldFinds(src: Source, exeDirs: seq<string>, loaderDirs: seq<string>, rpaths: seq<string>, inherited: seq<string>,
                            name: string, f: string) {
    if name == "" || name[0] != '@' then
      f == name && ("/usr/lib/" <= name || "/System/Library/" <= name || src.lookup(name).Some?)
    else if "@rpath/" <= name then
      || FirstUnder(src, rpaths, loaderDirs, exeDirs, name[7..], f)
      || (NoneUnder(src, rpaths, loaderDirs, exeDirs, name[7..]) && FirstThere(src, JoinAll(inherited, name[7..]), f))
    else
      FirstThere(src, Expand(name, loaderDirs, exeDirs), f)
  }

  /** The places a path stands for. */
  lemma Expanded(rest: string, name: string, loaderDirs: seq<string>, exeDirs: seq<string>)
    ensures Expand("@loader_path/" + rest, loaderDirs, exeDirs) == JoinAll(loaderDirs, rest)
    ensures Expand("@executable_path/" + rest, loaderDirs, exeDirs) == JoinAll(exeDirs, rest)
    ensures !("@loader_path/" <= name) && !("@executable_path/" <= name) ==> Expand(name, loaderDirs, exeDirs) == [name]
  {
    var l, e := "@loader_path/" + rest, "@executable_path/" + rest;
    assert l[|LOADER_PATH|..] == rest && e[|EXECUTABLE_PATH|..] == rest;
    assert e[1] == 'e' && LOADER_PATH[1] == 'l';
  }

  lemma {:induction false} FirstFoundIff(src: Source, cands: seq<string>, f: string)
    ensures FirstFound(src, cands) == Some(f) <==> FirstThere(src, cands, f)
    ensures FirstFound(src, cands) == None <==> NoneThere(src, cands)
  {
    if cands != [] {
      FirstFoundIff(src, cands[1..], f);
      FirstThereStep(src, cands[0], cands[1..], f);
      assert cands == [cands[0]] + cands[1..];
    }
  }

  lemma FirstThereStep(src: Source, first: string, rest: seq<string>, f: string)
    ensures FirstThere(src, [first] + rest, f) <==> if IsThere(src, first) then f == first else FirstThere(src, rest, f)
    ensures NoneThere(src, [first] + rest) <==> !IsThere(src, first) && NoneThere(src, rest)
  {
    hide IsThere;
    var cands := [first] + rest;
    forall k | 0 <= k < |rest| ensures NoneThere(src, cands[..k + 1]) <==> !IsThere(src, first) && NoneThere(src, rest[..k]) {
      NoneThereStep(src, first, rest[..k]);
      assert cands[..k + 1] == [first] + rest[..k];
    }
    NoneThereStep(src, first, rest);
    if FirstThere(src, cands, f) {
      var k :| 0 <= k < |cands| && cands[k] == f && IsThere(src, f) && NoneThere(src, cands[..k]);
      if k > 0 { assert NoneThere(src, cands[..(k - 1) + 1]) && rest[k - 1] == f; }
    }
    if IsThere(src, first) && f == first {
      assert cands[0] == f && NoneThere(src, cands[..0]);
    }
    if !IsThere(src, first) && FirstThere(src, rest, f) {
      var k :| 0 <= k < |rest| && rest[k] == f && IsThere(src, f) && NoneThere(src, rest[..k]);
      assert cands[k + 1] == f && NoneThere(src, cands[..k + 1]);
    }
  }

  lemma NoneThereStep(src: Source, first: string, rest: seq<string>)
    ensures NoneThere(src, [first] + rest) <==> !IsThere(src, first) && NoneThere(src, rest)
  {
    hide IsThere;
    var cands := [first] + rest;
    assert cands[0] == first;
    if NoneThere(src, cands) {
      forall k | 0 <= k < |rest| ensures !IsThere(src, rest[k]) { assert cands[k + 1] == rest[k]; }
    }
  }

  function OrElse(a: Option<string>, b: Option<string>): Option<string> {
    if a.Some? then a else b
  }

  lemma {:induction false} FirstFoundSplits(src: Source, a: seq<string>, b: seq<string>)
    ensures FirstFound(src, a + b) == OrElse(FirstFound(src, a), FirstFound(src, b))
  {
    if a == [] {
      assert a + b == b;
    } else {
      FirstFoundSplits(src, a[1..], b);
      assert (a + b)[0] == a[0] && (a + b)[1..] == a[1..] + b;
    }
  }

  lemma {:induction false} JoinAllSplits(a: seq<string>, b: seq<string>, rest: string)
    ensures JoinAll(a + b, rest) == JoinAll(a, rest) + JoinAll(b, rest)
  {
  }

  /** What the run paths lead to, found from the front. */
  function FoundUnder(src: Source, rpaths: seq<string>, loaderDirs: seq<string>, exeDirs: seq<string>, rest: string): Option<string> {
    FirstFound(src, JoinAll(ExpandAll(rpaths, loaderDirs, exeDirs), rest))
  }

  lemma {:induction false} FoundUnderSplits(src: Source, a: seq<string>, b: seq<string>, loaderDirs: seq<string>, exeDirs: seq<string>, rest: string)
    ensures FoundUnder(src, a + b, loaderDirs, exeDirs, rest)
         == OrElse(FoundUnder(src, a, loaderDirs, exeDirs, rest), FoundUnder(src, b, loaderDirs, exeDirs, rest))
  {
    hide FirstFound, JoinAll, Expand;
    ExpandAllSplits(a, b, loaderDirs, exeDirs);
    JoinAllSplits(ExpandAll(a, loaderDirs, exeDirs), ExpandAll(b, loaderDirs, exeDirs), rest);
    FirstFoundSplits(src, JoinAll(ExpandAll(a, loaderDirs, exeDirs), rest), JoinAll(ExpandAll(b, loaderDirs, exeDirs), rest));
  }

  lemma {:induction false} ExpandAllSplits(a: seq<string>, b: seq<string>, loaderDirs: seq<string>, exeDirs: seq<string>)
    ensures ExpandAll(a + b, loaderDirs, exeDirs) == ExpandAll(a, loaderDirs, exeDirs) + ExpandAll(b, loaderDirs, exeDirs)
  {
    hide Expand;
    if a == [] {
      assert a + b == b;
    } else {
      ExpandAllSplits(a[1..], b, loaderDirs, exeDirs);
      assert (a + b)[0] == a[0] && (a + b)[1..] == a[1..] + b;
    }
  }

  lemma FoundUnderOne(src: Source, r: string, loaderDirs: seq<string>, exeDirs: seq<string>, rest: string)
    ensures FoundUnder(src, [r], loaderDirs, exeDirs, rest) == FirstFound(src, Under(r, loaderDirs, exeDirs, rest))
    ensures FoundUnder(src, [], loaderDirs, exeDirs, rest) == None
  {
    hide Expand;
    assert [r][1..] == [] && ExpandAll([], loaderDirs, exeDirs) == [];
    assert ExpandAll([r], loaderDirs, exeDirs) == Expand(r, loaderDirs, exeDirs) + [];
    assert Expand(r, loaderDirs, exeDirs) + [] == Expand(r, loaderDirs, exeDirs);
    assert FirstFound(src, JoinAll([], rest)) == None;
  }

  lemma {:induction false} FoundUnderIff(src: Source, rpaths: seq<string>, loaderDirs: seq<string>, exeDirs: seq<string>, rest: string, f: string)
    ensures FoundUnder(src, rpaths, loaderDirs, exeDirs, rest) == Some(f) <==> FirstUnder(src, rpaths, loaderDirs, exeDirs, rest, f)
    ensures FoundUnder(src, rpaths, loaderDirs, exeDirs, rest) == None <==> NoneUnder(src, rpaths, loaderDirs, exeDirs, rest)
  {
    hide FoundUnder, FirstFound, Under, FirstThere, NoneThere;
    FoundUnderOne(src, "", loaderDirs, exeDirs, rest);
    if rpaths != [] {
      var n := |rpaths| - 1;
      var front, last := rpaths[..n], rpaths[n];
      assert rpaths == front + [last];
      FoundUnderIff(src, front, loaderDirs, exeDirs, rest, f);
      FoundUnderSplits(src, front, [last], loaderDirs, exeDirs, rest);
      FoundUnderOne(src, last, loaderDirs, exeDirs, rest);
      FirstFoundIff(src, Under(last, loaderDirs, exeDirs, rest), f);
      FirstUnderStep(src, front, last, loaderDirs, exeDirs, rest, f);
      FirstOfFront(src, front, loaderDirs, exeDirs, rest);
    }
  }

  /** Something leads somewhere first, or nothing does. */
  lemma {:induction false} FirstOfFront(src: Source, rpaths: seq<string>, loaderDirs: seq<string>, exeDirs: seq<string>, rest: string)
    ensures NoneUnder(src, rpaths, loaderDirs, exeDirs, rest) ==> forall f :: !FirstUnder(src, rpaths, loaderDirs, exeDirs, rest, f)
  {
    hide Under;
    forall f | NoneUnder(src, rpaths, loaderDirs, exeDirs, rest) ensures !FirstUnder(src, rpaths, loaderDirs, exeDirs, rest, f) {
      forall i | 0 <= i < |rpaths| ensures !FirstThere(src, Under(rpaths[i], loaderDirs, exeDirs, rest), f) {
        assert NoneThere(src, Under(rpaths[i], loaderDirs, exeDirs, rest));
      }
    }
  }

  lemma FirstUnderStep(src: Source, front: seq<string>, last: string, loaderDirs: seq<string>, exeDirs: seq<string>, rest: string, f: string)
    ensures FirstUnder(src, front + [last], loaderDirs, exeDirs, rest, f)
       <==> || FirstUnder(src, front, loaderDirs, exeDirs, rest, f)
            || (NoneUnder(src, front, loaderDirs, exeDirs, rest) && FirstThere(src, Under(last, loaderDirs, exeDirs, rest), f))
    ensures NoneUnder(src, front + [last], loaderDirs, exeDirs, rest)
       <==> NoneUnder(src, front, loaderDirs, exeDirs, rest) && NoneThere(src, Under(last, loaderDirs, exeDirs, rest))
  {
    hide Under, FirstThere, NoneThere;
    var all, n := front + [last], |front|;
    assert all[..n] == front && all[n] == last;
    forall i | 0 <= i < n ensures all[i] == front[i] && all[..i] == front[..i] {
    }
  }

  /** A run path that is listed again leads nowhere new. */
  lemma {:induction false} OnceFindsTheSame(src: Source, rpaths: seq<string>, loaderDirs: seq<string>, exeDirs: seq<string>, rest: string)
    ensures FoundUnder(src, Once(rpaths), loaderDirs, exeDirs, rest) == FoundUnder(src, rpaths, loaderDirs, exeDirs, rest)
  {
    hide FoundUnder, FirstFound, Under, NoneThere;
    if rpaths != [] {
      var n := |rpaths| - 1;
      var front, last := rpaths[..n], rpaths[n];
      assert rpaths == front + [last];
      OnceFindsTheSame(src, front, loaderDirs, exeDirs, rest);
      FoundUnderSplits(src, front, [last], loaderDirs, exeDirs, rest);
      FoundUnderSplits(src, Once(front), [last], loaderDirs, exeDirs, rest);
      FoundUnderOne(src, last, loaderDirs, exeDirs, rest);
      if last in Once(front) {
        FoundUnderIff(src, front, loaderDirs, exeDirs, rest, "");
        FirstFoundIff(src, Under(last, loaderDirs, exeDirs, rest), "");
      }
    }
  }

  /** The search through an image's own run paths, each taken once, and then the inherited ones. */
  lemma RpathSearch(src: Source, rpaths: seq<string>, loaderDirs: seq<string>, exeDirs: seq<string>, inherited: seq<string>, rest: string, f: string)
    ensures FirstFound(src, JoinAll(ExpandAll(Once(rpaths), loaderDirs, exeDirs) + inherited, rest)) == Some(f)
       <==> || FirstUnder(src, rpaths, loaderDirs, exeDirs, rest, f)
            || (NoneUnder(src, rpaths, loaderDirs, exeDirs, rest) && FirstThere(src, JoinAll(inherited, rest), f))
  {
    hide FirstFound, JoinAll, ExpandAll, FirstThere, FirstUnder, NoneUnder, Once;
    var own := ExpandAll(Once(rpaths), loaderDirs, exeDirs);
    JoinAllSplits(own, inherited, rest);
    FirstFoundSplits(src, JoinAll(own, rest), JoinAll(inherited, rest));
    OnceFindsTheSame(src, rpaths, loaderDirs, exeDirs, rest);
    FoundUnderIff(src, rpaths, loaderDirs, exeDirs, rest, f);
    FirstFoundIff(src, JoinAll(inherited, rest), f);
  }
}
