/** bundle: copies the libraries a helper binary needs next to it and rewrites the
    loads, as a worklist over the images. */
module MachOBundle {
  import opened Options
  import opened MachO
  import opened Finite

  /** A file the bundler writes: the binary, or a copy in lib_dir. */
  datatype Dest = Binary | Lib(name: string)

  /** The inputs of one run: the source files, the directories @executable_path may
      stand for, the prefix of the binary's new loads, and the binary's image. */
  datatype Job = Job(src: Source, exeDirs: seq<string>, exePrefix: string, binary: Image)

  /** A file to edit, its @loader_path directories, and the rpaths it inherits. */
  datatype Work = Work(dest: Dest, loaderDirs: seq<string>, inherited: seq<string>)

  datatype Failure = Missing(dest: Dest, name: string) | Clash(name: string, origin: string)

  function ImageOf(job: Job, reals: map<string, string>, d: Dest): Image {
    match d
    case Binary => job.binary
    case Lib(name) =>
      if name in reals && reals[name] in job.src.images then job.src.images[reals[name]] else Image([], [])
  }

  /** The image's own rpaths, then those of the images that loaded it. */
  function ContextOf(job: Job, img: Image, loaderDirs: seq<string>, inherited: seq<string>): Context {
    Context(loaderDirs, ExpandAll(Once(img.rpaths), loaderDirs, job.exeDirs) + inherited)
  }

  /** In that context a load leads where dyld would find it. */
  lemma ContextFinds(job: Job, img: Image, loaderDirs: seq<string>, inherited: seq<string>, name: string, f: string)
    ensures Resolve(job.src, job.exeDirs, ContextOf(job, img, loaderDirs, inherited), name) == Some(f)
       <==> DyldFinds(job.src, job.exeDirs, loaderDirs, img.rpaths, inherited, name, f)
  {
    hide FirstFound, JoinAll, ExpandAll, Expand, FirstThere, FirstUnder, NoneUnder, Once;
    if RPATH <= name {
      RpathSearch(job.src, img.rpaths, loaderDirs, job.exeDirs, inherited, name[|RPATH|..], f);
    } else {
      FirstFoundIff(job.src, Expand(name, loaderDirs, job.exeDirs), f);
    }
  }

  function Prefix(job: Job, d: Dest): string {
    if d == Binary then job.exePrefix else LOADER_PATH
  }

  /** The library that name of an image in ctx leads to, as its real path. */
  function Loads(job: Job, ctx: Context, name: string): Option<string> {
    match Resolve(job.src, job.exeDirs, ctx, name)
    case None => None
    case Some(f) => if IsSystem(f) then None else job.src.lookup(f)
  }

  /** What a load of name has to say once everything is bundled. */
  function NewName(job: Job, names: map<string, string>, d: Dest, ctx: Context, name: string): Option<string> {
    match Resolve(job.src, job.exeDirs, ctx, name)
    case None => None
    case Some(f) =>
      if IsSystem(f) then Some(f)
      else match job.src.lookup(f)
        case None => None
        case Some(origin) => if origin in names then Some(Prefix(job, d) + names[origin]) else None
  }

  function Changed(changes: map<string, string>, name: string): string {
    if name in changes then changes[name] else name
  }

  ghost predicate NameRight(job: Job, names: map<string, string>, d: Dest, ctx: Context, changes: map<string, string>, name: string) {
    NewName(job, names, d, ctx, name) == Some(Changed(changes, name))
  }

  /** The edit gives every load of the image its new name and deletes every rpath. */
  ghost predicate EditRight(job: Job, names: map<string, string>, img: Image, d: Dest, ctx: Context, edit: Edit) {
    && (forall name {:trigger NameRight(job, names, d, ctx, edit.changes, name)} ::
          name in img.deps ==> NameRight(job, names, d, ctx, edit.changes, name))
    && edit.rpaths == Once(img.rpaths)
  }

  function EditOf(edits: map<Dest, Edit>, d: Dest): Edit {
    if d in edits then edits[d] else Edit(map[], [])
  }

  /** names (by real path) and reals (by name) are inverse to each other. */
  ghost predicate Inverse(names: map<string, string>, reals: map<string, string>) {
    && (forall r :: r in names ==> names[r] in reals && reals[names[r]] == r)
    && (forall n :: n in reals ==> reals[n] in names && names[reals[n]] == n)
  }

  /** Library n was first needed by the file d: a load of d leads to its original,
      and it is searched for libraries as its first loader found it. */
  ghost predicate NeededBy(job: Job, reals: map<string, string>, ctx: map<Dest, Context>, n: string, d: Dest) {
    && n in reals && reals[n] in job.src.images && d in ctx && Lib(n) in ctx
    && exists name, f ::
         && name in ImageOf(job, reals, d).deps
         && Resolve(job.src, job.exeDirs, ctx[d], name) == Some(f) && !IsSystem(f)
         && job.src.lookup(f) == Some(reals[n]) && n == Basename(name)
         && ctx[Lib(n)] == ContextOf(job, job.src.images[reals[n]], job.src.originDirs(f), ctx[d].rpathDirs)
  }

  /** The files in the order they were found: the binary, then libraries that
      files before them need. */
  ghost predicate Ordered(job: Job, reals: map<string, string>, ctx: map<Dest, Context>, order: seq<Dest>) {
    && order != [] && order[0] == Binary
    && (forall d :: d in order <==> d in ctx)
    && (forall d :: d in ctx <==> d == Binary || (d.Lib? && d.name in reals))
    && Binary in ctx && ctx[Binary] == ContextOf(job, job.binary, job.exeDirs, [])
    && forall k :: 1 <= k < |order| ==> order[k].Lib? && exists j :: 0 <= j < k && NeededBy(job, reals, ctx, order[k].name, order[j])
  }

  ghost predicate Waiting(work: seq<Work>, d: Dest) {
    exists i :: 0 <= i < |work| && work[i].dest == d
  }

  /** The worklist: files not yet edited, each once, in the context it was found in. */
  ghost predicate Listed(job: Job, reals: map<string, string>, ctx: map<Dest, Context>, work: seq<Work>) {
    && (forall i, j :: 0 <= i < j < |work| ==> work[i].dest != work[j].dest)
    && forall i :: 0 <= i < |work| ==>
         && work[i].dest in ctx
         && ctx[work[i].dest] == ContextOf(job, ImageOf(job, reals, work[i].dest), work[i].loaderDirs, work[i].inherited)
  }

  /** Every file found is edited, waits, or is the one being edited. */
  ghost predicate Edited(job: Job, names: map<string, string>, reals: map<string, string>, edits: map<Dest, Edit>,
                         ctx: map<Dest, Context>, work: seq<Work>, now: set<Dest>) {
    forall d {:trigger Waiting(work, d)} :: d in ctx && !Waiting(work, d) && d !in now ==>
      EditRight(job, names, ImageOf(job, reals, d), d, ctx[d], EditOf(edits, d))
  }

  /** Files that have their edit, and the one being edited, are found and do not wait. */
  ghost predicate EditsDone(edits: map<Dest, Edit>, ctx: map<Dest, Context>, work: seq<Work>, now: set<Dest>) {
    && (forall d :: d in edits ==> d in ctx && d !in now && !Waiting(work, d))
    && (forall d :: d in now ==> d in ctx && !Waiting(work, d))
  }

  /** What a run that did not fail leaves. */
  ghost predicate Bundled(job: Job, names: map<string, string>, reals: map<string, string>, edits: map<Dest, Edit>,
                          ctx: map<Dest, Context>, order: seq<Dest>) {
    && Inverse(names, reals) && names.Keys <= job.src.images.Keys
    && Ordered(job, reals, ctx, order)
    && forall d {:trigger EditOf(edits, d)} :: d in ctx ==>
         EditRight(job, names, ImageOf(job, reals, d), d, ctx[d], EditOf(edits, d))
  }

  /** The directories @loader_path stands for in d and the run paths it inherits: the binary's own
      and none, or those of the load that first led to it. */
  ghost predicate FoundFrom(job: Job, reals: map<string, string>, ctx: map<Dest, Context>, d: Dest,
                            loaderDirs: seq<string>, inherited: seq<string>) {
    match d
    case Binary => loaderDirs == job.exeDirs && inherited == []
    case Lib(n) => n in reals && exists loader, name, f ::
        && loader in ctx && name in ImageOf(job, reals, loader).deps
        && Resolve(job.src, job.exeDirs, ctx[loader], name) == Some(f) && job.src.lookup(f) == Some(reals[n])
        && loaderDirs == job.src.originDirs(f) && inherited == ctx[loader].rpathDirs
  }

  lemma ContextFrom(job: Job, reals: map<string, string>, ctx: map<Dest, Context>, order: seq<Dest>, d: Dest)
    returns (loaderDirs: seq<string>, inherited: seq<string>)
    requires Ordered(job, reals, ctx, order) && d in ctx
    ensures FoundFrom(job, reals, ctx, d, loaderDirs, inherited)
    ensures ctx[d] == ContextOf(job, ImageOf(job, reals, d), loaderDirs, inherited)
  {
    hide ContextOf, Resolve, Basename, IsSystem;
    if d == Binary {
      return job.exeDirs, [];
    }
    var k :| 0 <= k < |order| && order[k] == d;
    var j :| 0 <= j < k && NeededBy(job, reals, ctx, d.name, order[j]);
    var loader := order[j];
    var name, f :|
      && name in ImageOf(job, reals, loader).deps
      && Resolve(job.src, job.exeDirs, ctx[loader], name) == Some(f) && !IsSystem(f)
      && job.src.lookup(f) == Some(reals[d.name]) && d.name == Basename(name)
      && ctx[d] == ContextOf(job, job.src.images[reals[d.name]], job.src.originDirs(f), ctx[loader].rpathDirs);
    loaderDirs, inherited := job.src.originDirs(f), ctx[loader].rpathDirs;
  }

  // ----- a new library

  /** Every new name put one file on the worklist. */
  ghost predicate Balanced(names: map<string, string>, work: seq<Work>, names': map<string, string>, work': seq<Work>) {
    |names| <= |names'| && |work'| - |work| == |names'| - |names|
  }

  ghost predicate Grows(names: map<string, string>, names': map<string, string>) {
    forall r :: r in names ==> r in names' && names'[r] == names[r]
  }

  lemma MoreNames(job: Job, names: map<string, string>, names': map<string, string>, d: Dest, ctx: Context, changes: map<string, string>, name: string)
    requires Grows(names, names') && NameRight(job, names, d, ctx, changes, name)
    ensures NameRight(job, names', d, ctx, changes, name)
  {
  }

  lemma EditStaysRight(job: Job, names: map<string, string>, origin: string, n: string, img: Image, d: Dest, ctx: Context, edit: Edit)
    requires origin !in names && EditRight(job, names, img, d, ctx, edit)
    ensures EditRight(job, names[origin := n], img, d, ctx, edit)
  {
    forall name | name in img.deps ensures NameRight(job, names[origin := n], d, ctx, edit.changes, name) {
      MoreNames(job, names, names[origin := n], d, ctx, edit.changes, name);
    }
  }

  lemma NeededStays(job: Job, reals: map<string, string>, ctx: map<Dest, Context>, n: string, d: Dest, m: string, origin: string, c: Context)
    requires NeededBy(job, reals, ctx, n, d) && m !in reals && Lib(m) !in ctx && (d.Lib? ==> d.name in reals)
    ensures NeededBy(job, reals[m := origin], ctx[Lib(m) := c], n, d)
  {
    assert ImageOf(job, reals[m := origin], d) == ImageOf(job, reals, d);
  }

  ghost predicate CanAdd(job: Job, names: map<string, string>, reals: map<string, string>, ctx: map<Dest, Context>,
                         d: Dest, name: string, f: string, origin: string) {
    && d in ctx && name in ImageOf(job, reals, d).deps
    && Resolve(job.src, job.exeDirs, ctx[d], name) == Some(f) && !IsSystem(f)
    && job.src.lookup(f) == Some(origin) && origin in job.src.images
    && origin !in names && Basename(name) !in reals
  }

  function NewContext(job: Job, origin: string, f: string, rpathDirs: seq<string>): Context {
    if origin in job.src.images then ContextOf(job, job.src.images[origin], job.src.originDirs(f), rpathDirs) else Context([], [])
  }

  lemma NeededNow(job: Job, names: map<string, string>, reals: map<string, string>, ctx: map<Dest, Context>,
                  d: Dest, name: string, f: string, origin: string)
    requires CanAdd(job, names, reals, ctx, d, name, f, origin) && (d.Lib? ==> d.name in reals) && Lib(Basename(name)) !in ctx
    ensures var n := Basename(name);
            NeededBy(job, reals[n := origin], ctx[Lib(n) := NewContext(job, origin, f, ctx[d].rpathDirs)], n, d)
  {
    assert ImageOf(job, reals[Basename(name) := origin], d) == ImageOf(job, reals, d);
  }

  lemma AddOrdered(job: Job, names: map<string, string>, reals: map<string, string>, ctx: map<Dest, Context>, order: seq<Dest>,
                   d: Dest, name: string, f: string, origin: string)
    requires Ordered(job, reals, ctx, order) && CanAdd(job, names, reals, ctx, d, name, f, origin)
    ensures var n := Basename(name);
            Ordered(job, reals[n := origin], ctx[Lib(n) := NewContext(job, origin, f, ctx[d].rpathDirs)], order + [Lib(n)])
  {
    hide Resolve, ContextOf, Basename, ImageOf, NeededBy;
    var n := Basename(name);
    var reals', order' := reals[n := origin], order + [Lib(n)];
    var c := NewContext(job, origin, f, ctx[d].rpathDirs);
    var ctx' := ctx[Lib(n) := c];
    NeededNow(job, names, reals, ctx, d, name, f, origin);
    forall k | 1 <= k < |order'|
      ensures order'[k].Lib? && exists j :: 0 <= j < k && NeededBy(job, reals', ctx', order'[k].name, order'[j])
    {
      if k < |order| {
        var j :| 0 <= j < k && NeededBy(job, reals, ctx, order[k].name, order[j]);
        assert order[j] in order;
        NeededStays(job, reals, ctx, order[k].name, order[j], n, origin, c);
        assert NeededBy(job, reals', ctx', order'[k].name, order'[j]);
      } else {
        var j :| 0 <= j < |order| && order[j] == d;
        assert NeededBy(job, reals', ctx', order'[k].name, order'[j]);
      }
    }
  }

  lemma ImageStays(job: Job, reals: map<string, string>, n: string, origin: string, e: Dest)
    requires n !in reals && (e.Lib? ==> e.name in reals)
    ensures ImageOf(job, reals[n := origin], e) == ImageOf(job, reals, e)
  {
  }

  lemma WaitingMore(work: seq<Work>, w: Work, e: Dest)
    ensures Waiting(work + [w], e) <==> Waiting(work, e) || e == w.dest
  {
    if i :| 0 <= i < |work| && work[i].dest == e {
      assert (work + [w])[i].dest == e;
    }
    assert (work + [w])[|work|] == w;
  }

  lemma AddListed(job: Job, names: map<string, string>, reals: map<string, string>, ctx: map<Dest, Context>, work: seq<Work>,
                  d: Dest, name: string, f: string, origin: string)
    requires Listed(job, reals, ctx, work) && CanAdd(job, names, reals, ctx, d, name, f, origin)
    requires forall e :: e in ctx ==> e == Binary || (e.Lib? && e.name in reals)
    ensures var n := Basename(name);
            Listed(job, reals[n := origin], ctx[Lib(n) := NewContext(job, origin, f, ctx[d].rpathDirs)],
                   work + [Work(Lib(n), job.src.originDirs(f), ctx[d].rpathDirs)])
  {
    hide ContextOf, Resolve;
    var n := Basename(name);
    var w := Work(Lib(n), job.src.originDirs(f), ctx[d].rpathDirs);
    var ctx' := ctx[Lib(n) := NewContext(job, origin, f, ctx[d].rpathDirs)];
    forall i | 0 <= i < |work + [w]|
      ensures (work + [w])[i].dest in ctx'
      ensures ctx'[(work + [w])[i].dest]
           == ContextOf(job, ImageOf(job, reals[n := origin], (work + [w])[i].dest), (work + [w])[i].loaderDirs, (work + [w])[i].inherited)
    {
      if i < |work| {
        ImageStays(job, reals, n, origin, work[i].dest);
      } else {
        assert ImageOf(job, reals[n := origin], Lib(n)) == job.src.images[origin];
      }
    }
  }

  lemma AddEdited(job: Job, names: map<string, string>, reals: map<string, string>, edits: map<Dest, Edit>, ctx: map<Dest, Context>,
                  work: seq<Work>, now: set<Dest>, d: Dest, name: string, f: string, origin: string)
    requires Edited(job, names, reals, edits, ctx, work, now) && CanAdd(job, names, reals, ctx, d, name, f, origin)
    requires forall e :: e in ctx ==> e == Binary || (e.Lib? && e.name in reals)
    ensures var n := Basename(name);
            Edited(job, names[origin := n], reals[n := origin], edits, ctx[Lib(n) := NewContext(job, origin, f, ctx[d].rpathDirs)],
                   work + [Work(Lib(n), job.src.originDirs(f), ctx[d].rpathDirs)], now)
  {
    var n := Basename(name);
    var w := Work(Lib(n), job.src.originDirs(f), ctx[d].rpathDirs);
    var ctx' := ctx[Lib(n) := NewContext(job, origin, f, ctx[d].rpathDirs)];
    forall e | e in ctx' && !Waiting(work + [w], e) && e !in now
      ensures EditRight(job, names[origin := n], ImageOf(job, reals[n := origin], e), e, ctx'[e], EditOf(edits, e))
    {
      WaitingMore(work, w, e);
      ImageStays(job, reals, n, origin, e);
      EditStaysRight(job, names, origin, n, ImageOf(job, reals, e), e, ctx[e], EditOf(edits, e));
    }
  }

  lemma AddEditsDone(edits: map<Dest, Edit>, ctx: map<Dest, Context>, work: seq<Work>, now: set<Dest>, w: Work, c: Context)
    requires EditsDone(edits, ctx, work, now) && w.dest !in ctx
    ensures EditsDone(edits, ctx[w.dest := c], work + [w], now)
  {
    forall d | d in edits.Keys + now ensures !Waiting(work + [w], d) {
      WaitingMore(work, w, d);
    }
  }

  /** The variables of one run. */
  class Run {
    const job: Job
    var names: map<string, string>    // source library (real path) -> its name in lib_dir
    var reals: map<string, string>    // the reverse
    var edits: map<Dest, Edit>
    var work: seq<Work>
    ghost var ctx: map<Dest, Context>
    ghost var order: seq<Dest>

    /** now: the file being edited, if any. */
    ghost predicate Valid(now: set<Dest>)
      reads this
    {
      && ValidSource(job.src) && Inverse(names, reals) && names.Keys <= job.src.images.Keys
      && Ordered(job, reals, ctx, order) && Listed(job, reals, ctx, work)
      && Edited(job, names, reals, edits, ctx, work, now) && EditsDone(edits, ctx, work, now)
    }

    constructor (job: Job)
      requires ValidSource(job.src)
      ensures Valid({}) && this.job == job && work != []
    {
      this.job := job;
      names, reals, edits := map[], map[], map[];
      work := [Work(Binary, job.exeDirs, [])];
      ctx := map[Binary := ContextOf(job, job.binary, job.exeDirs, [])];
      order := [Binary];
      new;
      assert work[0].dest == Binary;
      assert Waiting(work, Binary);
    }

    /** A library not copied before: its copy, its name, and its place in the worklist. */
    method AddLibrary(d: Dest, name: string, f: string, origin: string, rpathDirs: seq<string>, ghost now: set<Dest>)
      requires Valid(now) && CanAdd(job, names, reals, ctx, d, name, f, origin) && rpathDirs == ctx[d].rpathDirs
      modifies this`names, this`reals, this`work, this`ctx, this`order
      ensures Valid(now) && names == old(names)[origin := Basename(name)] && reals == old(reals)[Basename(name) := origin]
      ensures d in ctx && ctx[d] == old(ctx)[d] && |work| == |old(work)| + 1
    {
      hide Inverse, Listed, Edited, Ordered, CanAdd, NewContext, EditsDone;
      AddFacts(job, names, reals, ctx, order, d, name, f, origin);
      AddOrdered(job, names, reals, ctx, order, d, name, f, origin);
      AddListed(job, names, reals, ctx, work, d, name, f, origin);
      AddEdited(job, names, reals, edits, ctx, work, now, d, name, f, origin);
      AddEditsDone(edits, ctx, work, now, Work(Lib(Basename(name)), job.src.originDirs(f), ctx[d].rpathDirs), NewContext(job, origin, f, ctx[d].rpathDirs));
      AddInverse(names, reals, Basename(name), origin);
      var n := Basename(name);
      names := names[origin := n];
      reals := reals[n := origin];
      work := work + [Work(Lib(n), job.src.originDirs(f), rpathDirs)];
      ctx := ctx[Lib(n) := NewContext(job, origin, f, ctx[d].rpathDirs)];
      order := order + [Lib(n)];
    }
  
    /** Where the load of name in d goes: its new name, and whether it is changed. */
    method NameFor(d: Dest, c: Context, name: string, ghost now: set<Dest>) returns (err: Option<Failure>, to: string, changed: bool)
      requires Valid(now) && d in ctx && ctx[d] == c && name in ImageOf(job, reals, d).deps
      modifies this`names, this`reals, this`work, this`ctx, this`order
      ensures d in ctx && ctx[d] == c && ImageOf(job, reals, d) == old(ImageOf(job, reals, d))
      ensures Grows(old(names), names) && Valid(now) && Balanced(old(names), old(work), names, work)
      ensures err.None? ==> NewName(job, names, d, c, name) == Some(to) && (to != name ==> changed)
      ensures err.Some? ==> FailureReal(job, ctx, reals, err.value)
    {
      hide Inverse, Listed, Edited, Ordered, EditsDone;
      var found := ResolveName(job.src, job.exeDirs, c, name);
      to, changed := name, false;
      if found == None { return Some(Missing(d, name)), to, changed; }
      if IsSystem(found.value) {
        return None, found.value, found.value != name;
      }
      var origin := job.src.lookup(found.value).value;
      if origin !in names {
        var n := Basename(name);
        if n in reals {
          InverseAt(names, reals, n);
          return Some(Clash(n, origin)), to, changed;
        }
        DestNamed(job, reals, ctx, order, d);
        ImageStays(job, reals, n, origin, d);
        AddLibrary(d, name, found.value, origin, c.rpathDirs, now);
      }
      return None, Prefix(job, d) + names[origin], true;
    }

    /** The -change arguments of one file: every load with a new name. */
    method Changes(d: Dest, c: Context, deps: seq<string>, ghost now: set<Dest>) returns (err: Option<Failure>, changes: map<string, string>)
      requires Valid(now) && d in ctx && ctx[d] == c
      requires forall x :: x in deps ==> x in ImageOf(job, reals, d).deps
      requires forall i, j :: 0 <= i < j < |deps| ==> deps[i] != deps[j]
      modifies this`names, this`reals, this`work, this`ctx, this`order
      ensures d in ctx && ctx[d] == c && ImageOf(job, reals, d) == old(ImageOf(job, reals, d))
      ensures Valid(now) && Balanced(old(names), old(work), names, work)
      ensures err.None? ==> forall x :: x in deps ==> NameRight(job, names, d, c, changes, x)
      ensures err.Some? ==> FailureReal(job, ctx, reals, err.value)
    {
      hide Inverse, Listed, Edited, Ordered, NameRight, Loads, NewName, ImageOf, EditsDone;
      changes := map[];
      for k := 0 to |deps|
        invariant Valid(now) && d in ctx && ctx[d] == c && ImageOf(job, reals, d) == old(ImageOf(job, reals, d))
        invariant Balanced(old(names), old(work), names, work)
        invariant forall x :: x in changes ==> x in deps[..k]
        invariant forall j :: 0 <= j < k ==> NameRight(job, names, d, c, changes, deps[j])
      {
        ghost var before := names;
        var to, changed;
        err, to, changed := NameFor(d, c, deps[k], now);
        if err.Some? { return; }
        var next := if changed then changes[deps[k] := to] else changes;
        assert Changed(next, deps[k]) == to;
        NewNameRight(job, names, d, c, next, deps[k], to);
        forall j | 0 <= j < k ensures NameRight(job, names, d, c, next, deps[j]) {
          MoreNames(job, before, names, d, c, changes, deps[j]);
          OtherNameRight(job, names, d, c, changes, deps[j], deps[k], to);
        }
        changes := next;
      }
      err := None;
    }

    /** Edits one file from the worklist. */
    method Process(item: Work) returns (err: Option<Failure>)
      requires Valid({item.dest}) && item.dest in ctx
      requires ctx[item.dest] == ContextOf(job, ImageOf(job, reals, item.dest), item.loaderDirs, item.inherited)
      modifies this
      ensures err.None? ==> Valid({}) && Balanced(old(names), old(work), names, work)
      ensures err.Some? ==> FailureReal(job, ctx, reals, err.value)
    {
      hide Inverse, Listed, Ordered, NameRight, FailureReal, ImageOf, Waiting, Once, ExpandAll;
      var d := item.dest;
      var img := ImageOf(job, reals, d);
      var rpaths := Once(img.rpaths);
      var c := Context(item.loaderDirs, ExpandAll(rpaths, item.loaderDirs, job.exeDirs) + item.inherited);
      var changes;
      err, changes := Changes(d, c, Once(img.deps), {d});
      if err.Some? { return; }
      if d != Binary || changes != map[] || rpaths != [] {
        edits := edits[d := Edit(changes, rpaths)];
      }
    }
  
    /** Takes the first file off the worklist. */
    method Next() returns (item: Work)
      requires Valid({}) && work != []
      modifies this`work
      ensures Valid({item.dest}) && item.dest in ctx && |work| == |old(work)| - 1
      ensures ctx[item.dest] == ContextOf(job, ImageOf(job, reals, item.dest), item.loaderDirs, item.inherited)
    {
      hide Inverse, Ordered, Listed, Edited, EditsDone;
      NextKeeps(job, names, reals, edits, ctx, work);
      item := work[0];
      work := work[1..];
    }

    /** The worklist loop. */
    method RunWorklist() returns (err: Option<Failure>)
      requires Valid({})
      modifies this
      ensures err.None? ==> Valid({}) && work == []
      ensures err.Some? ==> FailureReal(job, ctx, reals, err.value)
    {
      hide Inverse, Ordered, Listed, Edited, EditsDone, FailureReal, ImageOf;
      err := None;
      while work != []
        invariant Valid({}) && err == None
        decreases |job.src.images| - |names|, |work|
      {
        NamesBounded(names, job.src.images);
        var item := Next();
        err := Process(item);
        if err.Some? { return; }
        NamesBounded(names, job.src.images);
      }
    }
  }

  lemma NamesBounded(names: map<string, string>, images: map<string, Image>)
    requires names.Keys <= images.Keys
    ensures |names| <= |images|
  {
    SubsetSize(names.Keys, images.Keys);
  }

  lemma NextKeeps(job: Job, names: map<string, string>, reals: map<string, string>, edits: map<Dest, Edit>, ctx: map<Dest, Context>, work: seq<Work>)
    requires work != [] && Listed(job, reals, ctx, work)
    requires Edited(job, names, reals, edits, ctx, work, {}) && EditsDone(edits, ctx, work, {})
    ensures var d := work[0].dest;
            Listed(job, reals, ctx, work[1..]) && Edited(job, names, reals, edits, ctx, work[1..], {d})
            && EditsDone(edits, ctx, work[1..], {d}) && d in ctx
            && ctx[d] == ContextOf(job, ImageOf(job, reals, d), work[0].loaderDirs, work[0].inherited)
  {
    var d, rest := work[0].dest, work[1..];
    forall e ensures Waiting(work, e) <==> Waiting(rest, e) || e == d {
      if i :| 0 <= i < |work| && work[i].dest == e && i > 0 { assert rest[i - 1].dest == e; }
      if i :| 0 <= i < |rest| && rest[i].dest == e { assert work[i + 1].dest == e; }
      assert work[0].dest == d;
    }
    assert !Waiting(rest, d);
  }

  lemma AddInverse(names: map<string, string>, reals: map<string, string>, n: string, origin: string)
    requires Inverse(names, reals) && origin !in names && n !in reals
    ensures Inverse(names[origin := n], reals[n := origin])
  {
  }

  lemma InverseAt(names: map<string, string>, reals: map<string, string>, n: string)
    requires Inverse(names, reals) && n in reals
    ensures reals[n] in names
  {
  }

  lemma DestNamed(job: Job, reals: map<string, string>, ctx: map<Dest, Context>, order: seq<Dest>, d: Dest)
    requires Ordered(job, reals, ctx, order) && d in ctx
    ensures d.Lib? ==> d.name in reals
  {
  }

  lemma AddFacts(job: Job, names: map<string, string>, reals: map<string, string>, ctx: map<Dest, Context>, order: seq<Dest>,
                 d: Dest, name: string, f: string, origin: string)
    requires Ordered(job, reals, ctx, order) && CanAdd(job, names, reals, ctx, d, name, f, origin)
    ensures forall e :: e in ctx ==> e == Binary || (e.Lib? && e.name in reals)
    ensures origin !in names && origin in job.src.images && Basename(name) !in reals && d in ctx && Lib(Basename(name)) !in ctx
  {
  }

  lemma NewNameRight(job: Job, names: map<string, string>, d: Dest, c: Context, changes: map<string, string>, name: string, to: string)
    requires NewName(job, names, d, c, name) == Some(to) && Changed(changes, name) == to
    ensures NameRight(job, names, d, c, changes, name)
  {
  }

  lemma OtherNameRight(job: Job, names: map<string, string>, d: Dest, c: Context, changes: map<string, string>, name: string, other: string, to: string)
    requires NameRight(job, names, d, c, changes, name) && other != name
    ensures NameRight(job, names, d, c, changes[other := to], name)
  {
  }

  /** Why a run fails: a load of a file it found leads nowhere, or to a library whose
      name another library has. */
  ghost predicate FailureReal(job: Job, ctx: map<Dest, Context>, reals: map<string, string>, e: Failure) {
    match e
    case Missing(d, name) => d in ctx && name in ImageOf(job, reals, d).deps && Resolve(job.src, job.exeDirs, ctx[d], name) == None
    case Clash(n, origin) =>
      && n in reals && reals[n] != origin
      && exists d, name :: d in ctx && name in ImageOf(job, reals, d).deps && Loads(job, ctx[d], name) == Some(origin) && n == Basename(name)
  }

  /** With nothing left on the worklist, everything found is bundled. */
  lemma WorklistEmpty(job: Job, names: map<string, string>, reals: map<string, string>, edits: map<Dest, Edit>, ctx: map<Dest, Context>, order: seq<Dest>)
    requires Inverse(names, reals) && names.Keys <= job.src.images.Keys && Ordered(job, reals, ctx, order)
    requires Edited(job, names, reals, edits, ctx, [], {})
    ensures Bundled(job, names, reals, edits, ctx, order)
  {
    forall d | d in ctx ensures EditRight(job, names, ImageOf(job, reals, d), d, ctx[d], EditOf(edits, d)) {
      assert !Waiting([], d);
    }
  }

  /** The copies and the install_name_tool arguments of one run, or why it failed. */
  method Bundle(job: Job)
    returns (err: Option<Failure>, names: map<string, string>, reals: map<string, string>, edits: map<Dest, Edit>,
             ghost ctx: map<Dest, Context>, ghost order: seq<Dest>)
    requires ValidSource(job.src)
    ensures err.None? ==> Bundled(job, names, reals, edits, ctx, order)
    ensures err.Some? ==> FailureReal(job, ctx, reals, err.value)
  {
    hide Inverse, Ordered, Listed, Edited, EditsDone, FailureReal, ImageOf, Bundled;
    var run := new Run(job);
    err := run.RunWorklist();
    names, reals, edits, ctx, order := run.names, run.reals, run.edits, run.ctx, run.order;
    if err.None? {
      WorklistEmpty(job, names, reals, edits, ctx, order);
    }
  }
}
