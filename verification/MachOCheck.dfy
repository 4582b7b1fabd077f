/** check, and that what bundle leaves passes it. */
module MachOCheck {
  import opened MachO
  import opened MachOBundle

  /** Where the helper lives: its directory, lib_dir as a path below it, and what
      resolving symbolic links makes of a path. */
  datatype Place = Place(helperDir: string, rel: string, resolve: string -> string, realHelper: string)

  /** lib_dir lies strictly inside the helper's directory. */
  ghost predicate ValidPlace(p: Place) {
    && p.helperDir != "" && p.helperDir[|p.helperDir| - 1] != '/'
    && p.rel != "" && p.rel[0] != '/' && p.rel[|p.rel| - 1] != '/'
  }

  /** No symbolic link leads from the helper's directory to the files in it. */
  ghost predicate NoLinks(p: Place, base: string, files: set<Dest>) {
    forall d :: d in files ==> p.resolve(PathOf(p, base, d)) == p.realHelper + PathOf(p, base, d)[|p.helperDir|..]
  }

  function LibDir(p: Place): string {
    p.helperDir + "/" + p.rel
  }

  /** The path of a file the bundler wrote. */
  function PathOf(p: Place, base: string, d: Dest): string {
    match d
    case Binary => p.helperDir + "/" + base
    case Lib(name) => LibDir(p) + "/" + name
  }

  function DirOf(p: Place, d: Dest): string {
    match d case Binary => p.helperDir case Lib(_) => LibDir(p)
  }

  datatype Problem = HasRpath(file: Dest, path: string) | LoadsOutside(file: Dest, name: string)

  /** The path that a relative load stands for. */
  function TargetOf(p: Place, d: Dest, name: string): string {
    if LOADER_PATH <= name then Join(DirOf(p, d), name[|LOADER_PATH|..])
    else if EXECUTABLE_PATH <= name then Join(p.helperDir, name[|EXECUTABLE_PATH|..])
    else name
  }

  /** Where the files are and what a relative load stands for: @loader_path is the directory of the
      file itself, @executable_path that of the binary. */
  lemma PathsAre(p: Place, base: string, d: Dest, n: string, x: string)
    ensures PathOf(p, base, Binary) == p.helperDir + "/" + base
    ensures PathOf(p, base, Lib(n)) == p.helperDir + "/" + p.rel + "/" + n
    ensures TargetOf(p, Binary, "@loader_path/" + x) == Join(p.helperDir, x)
    ensures TargetOf(p, Lib(n), "@loader_path/" + x) == Join(p.helperDir + "/" + p.rel, x)
    ensures TargetOf(p, d, "@executable_path/" + x) == Join(p.helperDir, x)
  {
    hide Join;
    CutLoader(x);
    CutExecutable(x);
  }

  lemma CutLoader(x: string)
    ensures var name := "@loader_path/" + x; LOADER_PATH <= name && name[|LOADER_PATH|..] == x
  {
  }

  lemma CutExecutable(x: string)
    ensures var name := "@executable_path/" + x;
            !(LOADER_PATH <= name) && EXECUTABLE_PATH <= name && name[|EXECUTABLE_PATH|..] == x
  {
    var name := "@executable_path/" + x;
    assert name[1] == 'e' && LOADER_PATH[1] == 'l';
  }

  /** A load of an OS library, or of a file inside the helper's directory. */
  ghost predicate LoadAllowed(p: Place, base: string, files: set<Dest>, d: Dest, name: string) {
    || IsSystem(name)
    || (&& (LOADER_PATH <= name || EXECUTABLE_PATH <= name)
        && p.realHelper + "/" <= p.resolve(TargetOf(p, d, name))
        && exists e :: e in files && p.resolve(PathOf(p, base, e)) == p.resolve(TargetOf(p, d, name)))
  }

  ghost predicate ImageAllowed(p: Place, base: string, files: set<Dest>, d: Dest, img: Image) {
    img.rpaths == [] && forall name :: name in img.deps ==> LoadAllowed(p, base, files, d, name)
  }

  /** Whether check finds fault with one load. */
  method CheckLoad(p: Place, base: string, files: set<Dest>, paths: set<string>, d: Dest, name: string) returns (ok: bool)
    requires paths == set e | e in files :: p.resolve(PathOf(p, base, e))
    ensures ok <==> LoadAllowed(p, base, files, d, name)
  {
    if IsSystem(name) { return true; }
    if LOADER_PATH <= name || EXECUTABLE_PATH <= name {
      var target := Expand(name, [DirOf(p, d)], [p.helperDir])[0];
      assert target == TargetOf(p, d, name);
      var resolved := p.resolve(target);
      if resolved in paths && p.realHelper + "/" <= resolved { return true; }
    }
    return false;
  }

  /** A problem is a real one. */
  ghost predicate IsReal(p: Place, base: string, files: set<Dest>, d: Dest, img: Image, problem: Problem) {
    match problem
    case HasRpath(f, r) => f == d && r in img.rpaths
    case LoadsOutside(f, name) => f == d && name in img.deps && !LoadAllowed(p, base, files, d, name)
  }

  /** check: every problem of one file. */
  method CheckFile(p: Place, base: string, files: set<Dest>, paths: set<string>, d: Dest, img: Image) returns (problems: seq<Problem>)
    requires paths == set e | e in files :: p.resolve(PathOf(p, base, e))
    ensures problems == [] <==> ImageAllowed(p, base, files, d, img)
    ensures forall k :: 0 <= k < |problems| ==>
              IsReal(p, base, files, d, img, problems[k])
  {
    problems := [];
    var rpaths, deps := Once(img.rpaths), Once(img.deps);
    hide LoadAllowed, Once;
    for k := 0 to |rpaths|
      invariant |problems| == k
      invariant forall j :: 0 <= j < k ==> IsReal(p, base, files, d, img, problems[j])
    {
      assert rpaths[k] in rpaths;
      problems := problems + [HasRpath(d, rpaths[k])];
    }
    assert img.rpaths != [] ==> img.rpaths[0] in rpaths;
    assert rpaths != [] ==> rpaths[0] in img.rpaths;
    for k := 0 to |deps|
      invariant problems == [] <==> img.rpaths == [] && forall j :: 0 <= j < k ==> LoadAllowed(p, base, files, d, deps[j])
      invariant forall j :: 0 <= j < |problems| ==> IsReal(p, base, files, d, img, problems[j])
    {
      assert deps[k] in deps;
      var ok := CheckLoad(p, base, files, paths, d, deps[k]);
      if !ok {
        problems := problems + [LoadsOutside(d, deps[k])];
      }
    }
  }

  // ----- the images after bundle

  /** What the edit and the repeated -delete_rpath runs make of an image: nine runs
      in all delete rpaths. */
  function After(job: Job, reals: map<string, string>, edits: map<Dest, Edit>, d: Dest): Image {
    var img := ImageOf(job, reals, d);
    Image(Renamed(img.deps, EditOf(edits, d).changes), Strip(img.rpaths, 9))
  }

  /** The runs of install_name_tool on one image: the edit, then up to eight more
      while an rpath is left. */
  method EditImage(img: Image, edit: Edit) returns (r: Image)
    requires edit.rpaths == Once(img.rpaths)
    ensures r == Image(Renamed(img.deps, edit.changes), Strip(img.rpaths, 9))
  {
    hide Strip, DeleteEach, Once, Renamed;
    StripStep(img.rpaths, 8);
    var rpaths := DeleteEach(img.rpaths, edit.rpaths);
    for k := 0 to 8
      invariant Strip(img.rpaths, 9) == Strip(rpaths, 8 - k)
    {
      var left := Once(rpaths);
      StripStep(rpaths, 8 - k - 1);
      if left == [] {
        if rpaths != [] { OnceNonEmpty(rpaths); }
        StripNothing(8 - k);
        break;
      }
      rpaths := DeleteEach(rpaths, left);
    }
    StripStep(rpaths, 0);
    r := Image(Renamed(img.deps, edit.changes), rpaths);
  }

  lemma OnceNonEmpty(s: seq<string>)
    requires s != []
    ensures Once(s) != []
  {
    assert s[0] in Once(s);
  }

  lemma StripStep(rpaths: seq<string>, n: nat)
    ensures Strip(rpaths, n + 1) == Strip(DeleteEach(rpaths, Once(rpaths)), n) && Strip(rpaths, 0) == rpaths
  {
  }

  lemma {:induction false} StripNothing(n: nat)
    ensures Strip([], n) == []
    decreases n
  {
    if n > 0 { StripNothing(n - 1); }
  }

  /** The prefix of the binary's new loads names lib_dir. */
  ghost predicate ExePrefixRight(p: Place, job: Job) {
    job.exePrefix == EXECUTABLE_PATH + p.rel + "/"
  }

  lemma LibNamePlain(job: Job, reals: map<string, string>, ctx: map<Dest, Context>, order: seq<Dest>, n: string)
    requires Ordered(job, reals, ctx, order) && n in reals
    ensures '/' !in n && Lib(n) in ctx
  {
    assert Lib(n) in order;
    var k :| 0 <= k < |order| && order[k] == Lib(n);
    var j :| 0 <= j < k && NeededBy(job, reals, ctx, order[k].name, order[j]);
  }

  /** A new load of a copied library stands for the copy. */
  lemma NewTarget(p: Place, job: Job, base: string, d: Dest, n: string)
    requires ValidPlace(p) && ExePrefixRight(p, job) && '/' !in n
    ensures var name := Prefix(job, d) + n;
            !IsSystem(name) && (LOADER_PATH <= name || EXECUTABLE_PATH <= name)
            && TargetOf(p, d, name) == PathOf(p, base, Lib(n))
  {
    if d == Binary {
      NewTargetOfBinary(p, job, base, n);
    } else {
      NewTargetOfLibrary(p, job, base, d, n);
    }
  }

  lemma NewTargetOfBinary(p: Place, job: Job, base: string, n: string)
    requires ValidPlace(p) && ExePrefixRight(p, job)
    ensures var name := Prefix(job, Binary) + n;
            !IsSystem(name) && EXECUTABLE_PATH <= name && TargetOf(p, Binary, name) == PathOf(p, base, Lib(n))
  {
    var name, rest := Prefix(job, Binary) + n, p.rel + "/" + n;
    assert name == EXECUTABLE_PATH + rest;
    assert name[|EXECUTABLE_PATH|..] == rest;
    assert name[0] == '@' && name[1] == 'e' && LOADER_PATH[1] == 'l';
    assert rest[0] == p.rel[0];
    assert p.helperDir + "/" + rest == LibDir(p) + "/" + n;
  }

  lemma NewTargetOfLibrary(p: Place, job: Job, base: string, d: Dest, n: string)
    requires ValidPlace(p) && ExePrefixRight(p, job) && '/' !in n && d != Binary
    ensures var name := Prefix(job, d) + n;
            !IsSystem(name) && LOADER_PATH <= name && TargetOf(p, d, name) == PathOf(p, base, Lib(n))
  {
    var name := Prefix(job, d) + n;
    assert name[0] == '@' && name[|LOADER_PATH|..] == n;
    assert n != "" ==> n[0] in n;
    assert LibDir(p)[|LibDir(p)| - 1] == p.rel[|p.rel| - 1];
  }

  /** Every load keeps its meaning: where dyld finds it is settled by the run paths of its image,
      and what it finds in the OS the load then names, while of another library it names the one
      copy in lib_dir. */
  lemma LoadsPreserved(p: Place, job: Job, base: string, names: map<string, string>, reals: map<string, string>,
                       edits: map<Dest, Edit>, ctx: map<Dest, Context>, order: seq<Dest>, d: Dest, i: nat)
    returns (loaderDirs: seq<string>, inherited: seq<string>, f: string)
    requires Bundled(job, names, reals, edits, ctx, order) && ValidPlace(p) && ExePrefixRight(p, job)
    requires d in ctx && i < |ImageOf(job, reals, d).deps|
    ensures FoundFrom(job, reals, ctx, d, loaderDirs, inherited)
    ensures var img := ImageOf(job, reals, d);
            forall g :: DyldFinds(job.src, job.exeDirs, loaderDirs, img.rpaths, inherited, img.deps[i], g) <==> g == f
    ensures var after := After(job, reals, edits, d).deps[i];
            if "/usr/lib/" <= f || "/System/Library/" <= f then after == f
            else job.src.lookup(f).Some?
                 && var origin := job.src.lookup(f).value;
                    origin in names && reals[names[origin]] == origin
                    && TargetOf(p, d, after) == PathOf(p, base, Lib(names[origin]))
                    && !IsSystem(after) && (LOADER_PATH <= after || EXECUTABLE_PATH <= after)
                    && after == (if d == Binary then "@executable_path/" + p.rel + "/" else "@loader_path/") + names[origin]
  {
    hide ContextOf, DyldFinds;
    var img, edit := ImageOf(job, reals, d), EditOf(edits, d);
    var name := img.deps[i];
    assert name in img.deps;
    assert NameRight(job, names, d, ctx[d], edit.changes, name);
    f := Resolve(job.src, job.exeDirs, ctx[d], name).value;
    loaderDirs, inherited := ContextFrom(job, reals, ctx, order, d);
    hide Resolve;
    forall g ensures DyldFinds(job.src, job.exeDirs, loaderDirs, img.rpaths, inherited, name, g) <==> g == f {
      ContextFinds(job, img, loaderDirs, inherited, name, g);
    }
    if !IsSystem(f) {
      var n := names[job.src.lookup(f).value];
      LibNamePlain(job, reals, ctx, order, n);
      NewTarget(p, job, base, d, n);
    }
  }

  lemma InsideHelper(p: Place, base: string, files: set<Dest>, n: string)
    requires ValidPlace(p) && NoLinks(p, base, files) && Lib(n) in files
    ensures p.realHelper + "/" <= p.resolve(PathOf(p, base, Lib(n)))
  {
    var path := PathOf(p, base, Lib(n));
    assert path == p.helperDir + ("/" + p.rel + "/" + n);
    assert path[|p.helperDir|..] == "/" + p.rel + "/" + n;
  }

  lemma LoadIsAllowed(p: Place, job: Job, base: string, names: map<string, string>, reals: map<string, string>,
                      edits: map<Dest, Edit>, ctx: map<Dest, Context>, order: seq<Dest>, d: Dest, i: nat)
    requires Bundled(job, names, reals, edits, ctx, order) && ValidPlace(p) && ExePrefixRight(p, job)
    requires NoLinks(p, base, ctx.Keys) && d in ctx && i < |ImageOf(job, reals, d).deps|
    ensures LoadAllowed(p, base, ctx.Keys, d, After(job, reals, edits, d).deps[i])
  {
    var loaderDirs, inherited, f := LoadsPreserved(p, job, base, names, reals, edits, ctx, order, d, i);
    hide FoundFrom, DyldFinds;
    if !IsSystem(f) {
      var n := names[job.src.lookup(f).value];
      LibNamePlain(job, reals, ctx, order, n);
      LibInCtx(job, reals, ctx, order, n);
      hide Bundled, TargetOf, NoLinks, ExePrefixRight, ValidPlace;
      InsideHelper(p, base, ctx.Keys, n);
    }
  }

  lemma LibInCtx(job: Job, reals: map<string, string>, ctx: map<Dest, Context>, order: seq<Dest>, n: string)
    requires Ordered(job, reals, ctx, order) && n in reals
    ensures Lib(n) in ctx
  {
  }

  /** After bundle, check finds a problem in a file just when one of its rpaths was
      listed more than nine times. */
  lemma CleanIffFewRpaths(p: Place, job: Job, base: string, names: map<string, string>, reals: map<string, string>,
                          edits: map<Dest, Edit>, ctx: map<Dest, Context>, order: seq<Dest>, d: Dest)
    requires Bundled(job, names, reals, edits, ctx, order) && ValidPlace(p) && ExePrefixRight(p, job)
    requires NoLinks(p, base, ctx.Keys) && d in ctx
    ensures ImageAllowed(p, base, ctx.Keys, d, After(job, reals, edits, d))
       <==> forall r :: Times(ImageOf(job, reals, d).rpaths, r) <= 9
  {
    hide Bundled, LoadAllowed, Strip, Times, NoLinks;
    var img, after := ImageOf(job, reals, d), After(job, reals, edits, d);
    StripEmptyIff(img.rpaths, 9);
    forall name | name in after.deps ensures LoadAllowed(p, base, ctx.Keys, d, name) {
      var i :| 0 <= i < |after.deps| && after.deps[i] == name;
      LoadIsAllowed(p, job, base, names, reals, edits, ctx, order, d, i);
    }
  }

  /** check over the binary and the files of lib_dir. */
  method Check(p: Place, base: string, images: map<Dest, Image>) returns (problems: seq<Problem>)
    ensures problems == [] <==> forall d :: d in images ==> ImageAllowed(p, base, images.Keys, d, images[d])
  {
    hide ImageAllowed;
    problems := [];
    var paths := set e | e in images :: p.resolve(PathOf(p, base, e));
    var todo := images.Keys;
    while todo != {}
      invariant todo <= images.Keys
      invariant problems == [] <==> forall d :: d in images && d !in todo ==> ImageAllowed(p, base, images.Keys, d, images[d])
      decreases todo
    {
      var d :| d in todo;
      var found := CheckFile(p, base, images.Keys, paths, d, images[d]);
      problems := problems + found;
      todo := todo - {d};
    }
  }

  /** The files as bundle leaves them. */
  function FilesAfter(job: Job, reals: map<string, string>, edits: map<Dest, Edit>, files: set<Dest>): map<Dest, Image> {
    map d | d in files :: After(job, reals, edits, d)
  }

  /** The run of check that ends bundle: it passes just when no rpath of the binary or
      of a library was listed more than nine times. */
  method CheckBundled(p: Place, job: Job, base: string, names: map<string, string>, reals: map<string, string>,
                      edits: map<Dest, Edit>, ghost ctx: map<Dest, Context>, ghost order: seq<Dest>, files: set<Dest>)
    returns (problems: seq<Problem>)
    requires Bundled(job, names, reals, edits, ctx, order) && ValidPlace(p) && ExePrefixRight(p, job)
    requires files == ctx.Keys && NoLinks(p, base, files)
    ensures problems == [] <==> forall d, r :: d in files ==> Times(ImageOf(job, reals, d).rpaths, r) <= 9
  {
    hide ImageAllowed, Bundled, After, ImageOf;
    problems := Check(p, base, FilesAfter(job, reals, edits, files));
    forall d | d in files
      ensures ImageAllowed(p, base, files, d, After(job, reals, edits, d)) <==> forall r :: Times(ImageOf(job, reals, d).rpaths, r) <= 9
    {
      CleanIffFewRpaths(p, job, base, names, reals, edits, ctx, order, d);
    }
    assert FilesAfter(job, reals, edits, files).Keys == files;
  }

  /** An rpath listed ten times outlasts the nine runs. */
  lemma TenthRpathStays(r: string)
    ensures Strip([r, r, r, r, r, r, r, r, r, r], 9) != []
  {
    var rpaths := [r, r, r, r, r, r, r, r, r, r];
    StripEmptyIff(rpaths, 9);
    assert multiset(rpaths)[r] == 10;
    assert Times(rpaths, r) > 9;
  }
}
