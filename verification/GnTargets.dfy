/** The targets of one platform's build. Evaluating BUILD.gn files is not modelled:
    a Tree says, for every directory with a BUILD.gn, what evaluating it gives. */
module GnTargets {
  import opened Finite
  import opened Options
  import opened Digraph

  /** The fields of a GnTarget that the graph checks read. */
  datatype Target = Target(
    sources: set<string>,
    public: Option<set<string>>,
    outputs: seq<string>,
    deps: seq<Label>,
    publicDeps: seq<Label>,
    dataDeps: seq<Label>,
    allowCircular: seq<Label>,
    friends: seq<string>)
  {
    /** all_deps(): public_deps, then the deps not among them. */
    function AllDeps(): (r: seq<Label>)
      ensures publicDeps <= r && forall d :: d in r <==> d in publicDeps || d in deps
    {
      publicDeps + Without(deps, publicDeps)
    }

    /** files(): every file of the target, whether it is public, whether generated. */
    function Files(): map<string, (bool, bool)> {
      var listed := if public.Some? then public.value else {};
      map f | f in sources + listed + (set o | o in outputs) ::
        if f in outputs then (true, true)
        else if f in listed then (true, false)
        else (public.None?, false)
    }
  }

  function Without(ds: seq<Label>, drop: seq<Label>): (r: seq<Label>)
    ensures forall d :: d in r <==> d in ds && d !in drop
  {
    if ds == [] then []
    else (if ds[0] in drop then [] else [ds[0]]) + Without(ds[1..], drop)
  }

  /** What evaluating a BUILD.gn gives: its targets and the directories it
      references, or a failed assert. An evaluation error gives no targets. */
  datatype BuildFile = AssertFailed | Evaluated(targets: map<Label, Target>, refs: set<string>)

  type Tree = map<string, BuildFile>

  const ROOT := "//"

  function TargetsIn(tree: Tree, d: string): map<Label, Target> {
    if d in tree && tree[d].Evaluated? then tree[d].targets else map[]
  }

  function RefsIn(tree: Tree, d: string): set<string> {
    if d in tree && tree[d].Evaluated? then tree[d].refs else {}
  }

  /** A directory whose BUILD.gn gn gen can load. */
  predicate Loadable(tree: Tree, d: string) {
    d in tree && tree[d].Evaluated?
  }

  /** Every target is named after the directory of its BUILD.gn. */
  ghost predicate WellFormed(tree: Tree) {
    forall d, lab :: lab in TargetsIn(tree, d) ==> lab.dir == d
  }

  function Lookup(tree: Tree, lab: Label): Option<Target> {
    if lab in TargetsIn(tree, lab.dir) then Some(TargetsIn(tree, lab.dir)[lab]) else None
  }

  // ----- what gn gen loads

  /** s holds the root and whatever a member references, as far as it can be loaded. */
  ghost predicate LoadClosed(tree: Tree, s: set<string>) {
    && (Loadable(tree, "//") ==> "//" in s)
    && forall d, r :: d in s && r in RefsIn(tree, d) && Loadable(tree, r) ==> r in s
  }

  /** s is the least such set. */
  ghost predicate IsLoaded(tree: Tree, s: set<string>) {
    && (forall d :: d in s ==> Loadable(tree, d))
    && LoadClosed(tree, s)
    && forall t :: LoadClosed(tree, t) ==> s <= t
  }

  /** Only one set of directories is the one that gn gen loads. */
  lemma LoadedUnique(tree: Tree, s: set<string>, t: set<string>)
    requires IsLoaded(tree, s) && IsLoaded(tree, t)
    ensures s == t
  {
  }

  // ----- what a target may include

  /** c is one dep of x and then public_deps, one after the other. */
  ghost predicate IsChain(tree: Tree, x: Label, c: seq<Label>) {
    && c != [] && Lookup(tree, x).Some? && c[0] in Lookup(tree, x).value.AllDeps()
    && forall i :: 0 <= i < |c| - 1 ==> PublicDep(tree, c[i], c[i + 1])
  }

  ghost predicate PublicDep(tree: Tree, x: Label, y: Label) {
    Lookup(tree, x).Some? && y in Lookup(tree, x).value.publicDeps
  }

  ghost predicate MayInclude(tree: Tree, x: Label, y: Label) {
    exists c :: IsChain(tree, x, c) && c[|c| - 1] == y
  }

  lemma MayIncludeDep(tree: Tree, x: Label, y: Label)
    requires Lookup(tree, x).Some? && y in Lookup(tree, x).value.AllDeps()
    ensures MayInclude(tree, x, y)
  {
    assert IsChain(tree, x, [y]);
  }

  lemma MayIncludeFurther(tree: Tree, x: Label, y: Label, z: Label)
    requires MayInclude(tree, x, y) && PublicDep(tree, y, z)
    ensures MayInclude(tree, x, z)
  {
    var c :| IsChain(tree, x, c) && c[|c| - 1] == y;
    assert IsChain(tree, x, c + [z]);
  }

  /** A set with the deps of x that is closed under public_deps holds all x may include. */
  lemma {:induction false} ChainStaysIn(tree: Tree, x: Label, c: seq<Label>, s: set<Label>)
    requires IsChain(tree, x, c)
    requires forall y :: y in Lookup(tree, x).value.AllDeps() ==> y in s
    requires forall y, z :: y in s && PublicDep(tree, y, z) ==> z in s
    ensures c[|c| - 1] in s
  {
    if |c| > 1 {
      ChainStaysIn(tree, x, c[..|c| - 1], s);
      assert PublicDep(tree, c[|c| - 2], c[|c| - 1]);
    }
  }

  // ----- who owns a file

  /** One entry of gn check's file map. */
  datatype Owner = Owner(owner: Label, public: bool, generated: bool)

  /** lab is loaded and lists f as o says. */
  ghost predicate Owns(tree: Tree, loaded: set<string>, f: string, o: Owner) {
    && o.owner.dir in loaded && Lookup(tree, o.owner).Some?
    && var fs := Lookup(tree, o.owner).value.Files();
       f in fs && fs[f] == (o.public, o.generated)
  }

  /** The target names f as a source, in its public list or as an output. */
  predicate Lists(t: Target, f: string) {
    f in t.sources || (t.public.Some? && f in t.public.value) || f in t.outputs
  }

  /** f is public in a target that lists it: it is in the public list, there is none, or the
      file is generated. */
  predicate IsPublic(t: Target, f: string) {
    t.public.None? || f in t.public.value || f in t.outputs
  }

  /** The owners of a file are the loaded targets that list it, with these two facts. */
  lemma OwnsIff(tree: Tree, loaded: set<string>, f: string, o: Owner)
    ensures Owns(tree, loaded, f, o)
       <==> && o.owner.dir in loaded && Lookup(tree, o.owner).Some?
            && var t := Lookup(tree, o.owner).value;
               Lists(t, f) && o.public == IsPublic(t, f) && o.generated == (f in t.outputs)
  {
  }

  /** owners[f] lists exactly the owners of f, each once. */
  ghost predicate OwnersExact(tree: Tree, loaded: set<string>, owners: map<string, seq<Owner>>) {
    forall f {:trigger OwnersAt(owners, f)} ::
      && (forall o :: o in OwnersAt(owners, f) <==> Owns(tree, loaded, f, o))
      && Distinct(OwnersAt(owners, f))
  }

  function OwnersAt(owners: map<string, seq<Owner>>, f: string): seq<Owner> {
    if f in owners then owners[f] else []
  }

  // ----- gn's label patterns

  function Partition(s: string): (string, string) {
    if s == "" then ("", "")
    else if s[0] == ':' then ("", s[1..])
    else var (d, n) := Partition(s[1..]); ([s[0]] + d, n)
  }

  predicate LabelMatches(pattern: string, lab: Label) {
    if pattern == "*" then true
    else if |pattern| >= 2 && pattern[|pattern| - 2..] == "/*" then
      var base := pattern[..|pattern| - 2];
      lab.dir == base || base + "/" <= lab.dir || base == "/"
    else
      var (d, n) := Partition(pattern);
      d == lab.dir && (n == "*" || n == lab.name)
  }

  /** "*" is every target. */
  lemma StarMatches(lab: Label)
    ensures LabelMatches("*", lab)
  {
  }

  /** A directory d, a slash and a star is every target of d and of what lies below it; for
      the root it is every target. */
  lemma BelowMatches(d: string, lab: Label)
    ensures LabelMatches(d + "/*", lab) <==> lab.dir == d || d + "/" <= lab.dir || d == "/"
  {
    var pattern := d + "/*";
    assert pattern[..|pattern| - 2] == d && pattern[|pattern| - 2..] == "/*";
  }

  lemma {:induction false} PartitionAt(d: string, n: string)
    requires ':' !in d
    ensures Partition(d + ":" + n) == (d, n) && Partition(d) == (d, "")
  {
    var s := d + ":" + n;
    if d == "" {
      assert s[1..] == n;
    } else {
      assert s[0] == d[0] && s[1..] == d[1..] + ":" + n;
      PartitionAt(d[1..], n);
      assert d == [d[0]] + d[1..];
    }
  }

  lemma EndsInName(d: string, n: string)
    requires '/' !in n
    ensures var pattern := d + ":" + n; pattern != "*" && !(|pattern| >= 2 && pattern[|pattern| - 2..] == "/*")
  {
    var pattern := d + ":" + n;
    assert pattern[|d|] == ':';
    if n == "" {
      assert pattern[|pattern| - 1] == ':';
    } else {
      assert pattern[|pattern| - 1] == n[|n| - 1];
      assert pattern[|pattern| - 2] == if |n| == 1 then ':' else n[|n| - 2];
    }
  }

  /** "d:n" is target n of directory d alone, "d:*" every target of that directory. */
  lemma NameMatches(d: string, n: string, lab: Label)
    requires ':' !in d && '/' !in n
    ensures LabelMatches(d + ":" + n, lab) <==> lab.dir == d && (n == "*" || lab.name == n)
  {
    hide Partition;
    PartitionAt(d, n);
    EndsInName(d, n);
  }
}
