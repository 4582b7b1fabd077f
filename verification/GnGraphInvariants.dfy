/** What the searches and tables of Graph keep while they grow. */
module GnGraphInvariants {
  import opened Finite
  import opened Options
  import opened Digraph
  import opened GnTargets

  // ----- what has been evaluated

  ghost predicate Agree(tree: Tree, files: map<string, map<Label, Target>>, refs: map<string, set<string>>,
                        asserts: set<string>, targets: map<Label, Target>) {
    && refs.Keys == files.Keys && asserts <= files.Keys
    && (forall d :: d in files ==> FileAgrees(tree, files[d], refs[d], d in asserts, d))
    && TargetsAgree(tree, files.Keys, targets)
  }

  ghost predicate FileAgrees(tree: Tree, ts: map<Label, Target>, rs: set<string>, failed: bool, d: string) {
    && ts == TargetsIn(tree, d) && rs == RefsIn(tree, d)
    && (failed <==> d in tree && tree[d].AssertFailed?)
  }

  ghost predicate TargetsAgree(tree: Tree, dirs: set<string>, targets: map<Label, Target>) {
    && (forall lab: Label :: lab in targets ==> lab.dir in dirs && Lookup(tree, lab) == Some(targets[lab]))
    && (forall lab: Label {:trigger Lookup(tree, lab)} :: lab.dir in dirs && Lookup(tree, lab).Some? ==> lab in targets)
  }

  lemma TargetsAdd(tree: Tree, dirs: set<string>, targets: map<Label, Target>, d: string)
    requires WellFormed(tree) && TargetsAgree(tree, dirs, targets) && d !in dirs
    ensures TargetsAgree(tree, dirs + {d}, targets + TargetsIn(tree, d))
  {
  }

  lemma AgreeAdd(tree: Tree, files: map<string, map<Label, Target>>, refs: map<string, set<string>>,
                 asserts: set<string>, targets: map<Label, Target>, d: string)
    requires WellFormed(tree) && Agree(tree, files, refs, asserts, targets) && d !in files
    ensures Agree(tree, files[d := TargetsIn(tree, d)], refs[d := RefsIn(tree, d)],
                  asserts + (if d in tree && tree[d].AssertFailed? then {d} else {}), targets + TargetsIn(tree, d))
  {
    hide TargetsAgree, WellFormed;
    TargetsAdd(tree, files.Keys, targets, d);
    assert files[d := TargetsIn(tree, d)].Keys == files.Keys + {d};
  }

  lemma AgreeAt(tree: Tree, files: map<string, map<Label, Target>>, refs: map<string, set<string>>,
                asserts: set<string>, targets: map<Label, Target>, d: string)
    requires Agree(tree, files, refs, asserts, targets) && d in files
    ensures files[d] == TargetsIn(tree, d) && d in refs && refs[d] == RefsIn(tree, d)
    ensures d in asserts <==> d in tree && tree[d].AssertFailed?
  {
  }

  lemma AgreeTarget(tree: Tree, files: map<string, map<Label, Target>>, refs: map<string, set<string>>,
                    asserts: set<string>, targets: map<Label, Target>, lab: Label)
    requires Agree(tree, files, refs, asserts, targets) && lab.dir in files
    ensures Lookup(tree, lab) == if lab in targets then Some(targets[lab]) else None
  {
  }

  /** Every public_deps entry of the tree. */
  ghost function PublicDepsOf(tree: Tree): set<Label> {
    set d, lab, p | d in tree && lab in TargetsIn(tree, d) && p in TargetsIn(tree, d)[lab].publicDeps :: p
  }

  lemma PublicDepListed(tree: Tree, x: Label, p: Label)
    requires PublicDep(tree, x, p)
    ensures p in PublicDepsOf(tree)
  {
    assert x.dir in tree && x in TargetsIn(tree, x.dir);
  }

  /** The search of Permitted: everything seen may be included, the deps of lab are
      seen, and so are the public_deps of everything seen but not waiting. */
  ghost predicate Frontier(tree: Tree, lab: Label, seen: set<Label>, waiting: seq<Label>, nxt: seq<Label>) {
    && (forall y :: y in seen ==> MayInclude(tree, lab, y))
    && (Lookup(tree, lab).Some? ==> forall y :: y in Lookup(tree, lab).value.AllDeps() ==> y in seen)
    && (forall y :: y in waiting ==> y in seen)
    && (forall y :: y in nxt ==> y in seen)
    && (forall y, z {:trigger PublicDep(tree, y, z)} :: y in seen && y !in waiting && y !in nxt && PublicDep(tree, y, z) ==> z in seen)
  }

  lemma FrontierStart(tree: Tree, lab: Label, seen: set<Label>, queue: seq<Label>)
    requires seen == Elements(queue)
    requires forall y :: y in queue <==> Lookup(tree, lab).Some? && y in Lookup(tree, lab).value.AllDeps()
    ensures Frontier(tree, lab, seen, queue, [])
  {
    forall y | y in seen ensures MayInclude(tree, lab, y) { MayIncludeDep(tree, lab, y); }
  }

  lemma FrontierSkip(tree: Tree, lab: Label, seen: set<Label>, queue: seq<Label>, i: nat, nxt: seq<Label>)
    requires i < |queue| && Frontier(tree, lab, seen, queue[i..], nxt) && Lookup(tree, queue[i]) == None
    ensures Frontier(tree, lab, seen, queue[i + 1..], nxt)
  {
    assert queue[i..] == [queue[i]] + queue[i + 1..];
  }

  lemma FrontierDone(tree: Tree, lab: Label, seen: set<Label>, queue: seq<Label>, i: nat, nxt: seq<Label>)
    requires i < |queue| && Frontier(tree, lab, seen, queue[i..], nxt) && Lookup(tree, queue[i]).Some?
    requires forall p :: p in Lookup(tree, queue[i]).value.publicDeps ==> p in seen
    ensures Frontier(tree, lab, seen, queue[i + 1..], nxt)
  {
    assert queue[i..] == [queue[i]] + queue[i + 1..];
  }

  lemma FrontierAdd(tree: Tree, lab: Label, seen: set<Label>, queue: seq<Label>, i: nat, nxt: seq<Label>, p: Label)
    requires i < |queue| && Frontier(tree, lab, seen, queue[i..], nxt) && PublicDep(tree, queue[i], p)
    ensures Frontier(tree, lab, seen + {p}, queue[i..], nxt + [p])
  {
    assert queue[i] in queue[i..];
    MayIncludeFurther(tree, lab, queue[i], p);
  }

  lemma FrontierTurn(tree: Tree, lab: Label, seen: set<Label>, nxt: seq<Label>)
    requires Frontier(tree, lab, seen, [], nxt)
    ensures Frontier(tree, lab, seen, nxt, [])
  {
  }

  lemma FrontierEnds(tree: Tree, lab: Label, seen: set<Label>)
    requires Frontier(tree, lab, seen, [], [])
    requires Lookup(tree, lab) == None ==> seen == {}
    ensures forall y :: y in seen <==> MayInclude(tree, lab, y)
  {
    forall y | MayInclude(tree, lab, y) ensures y in seen {
      var c :| IsChain(tree, lab, c) && c[|c| - 1] == y;
      ChainStaysIn(tree, lab, c, seen);
    }
  }

  // ----- what gn gen loads

  ghost function RefsOf(tree: Tree): set<string> {
    set d, r | d in tree && r in RefsIn(tree, d) :: r
  }

  lemma RefListed(tree: Tree, d: string, r: string)
    requires r in RefsIn(tree, d)
    ensures r in RefsOf(tree)
  {
    assert d in tree;
  }

  /** d is in every closed set, as far as it can be loaded. */
  ghost predicate Needed(tree: Tree, d: string) {
    Loadable(tree, d) ==> forall t :: LoadClosed(tree, t) ==> d in t
  }

  /** The search of LoadBuild: the loadable directories seen and not waiting are
      found with all their references seen, and only needed ones are seen. */
  ghost predicate Wave(tree: Tree, found: set<string>, seen: set<string>, waiting: seq<string>, nxt: seq<string>) {
    && ROOT in seen && found <= seen
    && (forall d {:trigger Needed(tree, d)} :: d in seen ==> Needed(tree, d))
    && (forall d :: d in found ==> Loadable(tree, d))
    && (forall d :: d in waiting ==> d in seen)
    && (forall d :: d in nxt ==> d in seen)
    && (forall d {:trigger Loadable(tree, d)} :: d in seen && d !in waiting && d !in nxt && Loadable(tree, d)
          ==> d in found && RefsIn(tree, d) <= seen)
  }

  lemma WaveStart(tree: Tree)
    ensures Wave(tree, {}, {ROOT}, [ROOT], [])
  {
    assert Needed(tree, ROOT);
  }

  lemma WaveSkip(tree: Tree, found: set<string>, seen: set<string>, queue: seq<string>, i: nat, nxt: seq<string>)
    requires i < |queue| && Wave(tree, found, seen, queue[i..], nxt) && !Loadable(tree, queue[i])
    ensures Wave(tree, found, seen, queue[i + 1..], nxt)
  {
    assert queue[i..] == [queue[i]] + queue[i + 1..];
  }

  lemma WaveLoad(tree: Tree, found: set<string>, seen: set<string>, queue: seq<string>, i: nat, nxt: seq<string>)
    requires i < |queue| && Wave(tree, found, seen, queue[i..], nxt) && Loadable(tree, queue[i])
    ensures Wave(tree, found + {queue[i]}, seen, queue[i..], nxt)
  {
    assert queue[i] in queue[i..];
  }

  lemma WaveAdd(tree: Tree, found: set<string>, seen: set<string>, queue: seq<string>, i: nat, nxt: seq<string>, r: string)
    requires i < |queue| && Wave(tree, found, seen, queue[i..], nxt) && Loadable(tree, queue[i])
    requires r in RefsIn(tree, queue[i])
    ensures Wave(tree, found, seen + {r}, queue[i..], nxt + [r])
  {
    assert queue[i] in queue[i..];
    assert Needed(tree, queue[i]);
    assert Needed(tree, r);
  }

  lemma WaveDone(tree: Tree, found: set<string>, seen: set<string>, queue: seq<string>, i: nat, nxt: seq<string>)
    requires i < |queue| && Wave(tree, found, seen, queue[i..], nxt)
    requires queue[i] in found && RefsIn(tree, queue[i]) <= seen
    ensures Wave(tree, found, seen, queue[i + 1..], nxt)
  {
    assert queue[i..] == [queue[i]] + queue[i + 1..];
  }

  lemma WaveTurn(tree: Tree, found: set<string>, seen: set<string>, nxt: seq<string>)
    requires Wave(tree, found, seen, [], nxt)
    ensures Wave(tree, found, seen, nxt, [])
  {
  }

  lemma WaveEnds(tree: Tree, found: set<string>, seen: set<string>)
    requires Wave(tree, found, seen, [], [])
    ensures IsLoaded(tree, found)
  {
    forall d, r | d in found && r in RefsIn(tree, d) && Loadable(tree, r) ensures r in found {
      assert RefsIn(tree, d) <= seen;
      assert RefsIn(tree, r) <= seen;
    }
    assert Loadable(tree, ROOT) ==> ROOT in found by {
      assert RefsIn(tree, ROOT) == RefsIn(tree, ROOT);
    }
    forall t, d | LoadClosed(tree, t) && d in found ensures d in t {
      assert Needed(tree, d);
    }
  }

  // ----- gn check's file map

  /** o is the entry of f for a target among labs. */
  ghost predicate Listed(tree: Tree, labs: set<Label>, f: string, o: Owner) {
    && o.owner in labs && Lookup(tree, o.owner).Some?
    && var fs := Lookup(tree, o.owner).value.Files();
       f in fs && fs[f] == (o.public, o.generated)
  }

  /** The map lists the targets labs and nothing else. */
  ghost predicate MapsAll(tree: Tree, labs: set<Label>, owners: map<string, seq<Owner>>) {
    forall f {:trigger OwnersAt(owners, f)} ::
      && (forall o :: o in OwnersAt(owners, f) <==> Listed(tree, labs, f, o))
      && Distinct(OwnersAt(owners, f))
  }

  /** The map lists the targets labs, and of lab only the files fs. */
  ghost predicate Mapped(tree: Tree, labs: set<Label>, lab: Label, fs: set<string>, owners: map<string, seq<Owner>>) {
    forall f {:trigger OwnersAt(owners, f)} ::
      && (forall o :: o in OwnersAt(owners, f) <==> Listed(tree, labs, f, o) || (f in fs && Listed(tree, {lab}, f, o)))
      && Distinct(OwnersAt(owners, f))
  }

  lemma MapStart(tree: Tree, labs: set<Label>, lab: Label, owners: map<string, seq<Owner>>)
    requires MapsAll(tree, labs, owners)
    ensures Mapped(tree, labs, lab, {}, owners)
  {
  }

  lemma MapFile(tree: Tree, labs: set<Label>, lab: Label, fs: set<string>, owners: map<string, seq<Owner>>, f: string, o: Owner)
    requires Mapped(tree, labs, lab, fs, owners) && lab !in labs && f !in fs
    requires Listed(tree, {lab}, f, o) && o.owner == lab
    ensures Mapped(tree, labs, lab, fs + {f}, owners[f := OwnersAt(owners, f) + [o]])
  {
    var next := owners[f := OwnersAt(owners, f) + [o]];
    forall h
      ensures forall p :: p in OwnersAt(next, h) <==> Listed(tree, labs, h, p) || (h in fs + {f} && Listed(tree, {lab}, h, p))
      ensures Distinct(OwnersAt(next, h))
    {
      var before := OwnersAt(owners, h);
      if h == f {
        assert o !in before;
        forall p ensures p in OwnersAt(next, h) <==> Listed(tree, labs, h, p) || Listed(tree, {lab}, h, p) {
          assert Listed(tree, {lab}, h, p) ==> p == o;
        }
      }
    }
  }

  lemma MapTarget(tree: Tree, labs: set<Label>, lab: Label, owners: map<string, seq<Owner>>)
    requires Lookup(tree, lab).Some?
    requires Mapped(tree, labs, lab, Lookup(tree, lab).value.Files().Keys, owners)
    ensures MapsAll(tree, labs + {lab}, owners)
  {
    forall f
      ensures forall o :: o in OwnersAt(owners, f) <==> Listed(tree, labs + {lab}, f, o)
      ensures Distinct(OwnersAt(owners, f))
    {
      forall o ensures o in OwnersAt(owners, f) <==> Listed(tree, labs + {lab}, f, o) {
        assert Listed(tree, {lab}, f, o) ==> f in Lookup(tree, lab).value.Files();
      }
    }
  }

  /** The targets of the directories dirs. */
  ghost function LabelsOf(tree: Tree, dirs: set<string>): set<Label> {
    set d, lab | d in dirs && lab in TargetsIn(tree, d) :: lab
  }

  lemma MapsAllIsExact(tree: Tree, dirs: set<string>, owners: map<string, seq<Owner>>)
    requires WellFormed(tree) && MapsAll(tree, LabelsOf(tree, dirs), owners)
    ensures OwnersExact(tree, dirs, owners)
  {
    forall f
      ensures forall o :: o in OwnersAt(owners, f) <==> Owns(tree, dirs, f, o)
      ensures Distinct(OwnersAt(owners, f))
    {
      forall o ensures o in OwnersAt(owners, f) <==> Owns(tree, dirs, f, o) {
        assert Listed(tree, LabelsOf(tree, dirs), f, o) <==> Owns(tree, dirs, f, o) by {
          if o.owner in LabelsOf(tree, dirs) { assert o.owner.dir in dirs; }
          if o.owner.dir in dirs && Lookup(tree, o.owner).Some? { assert o.owner in LabelsOf(tree, dirs); }
        }
      }
    }
  }

  lemma LabelsOfNone(tree: Tree)
    ensures LabelsOf(tree, {}) == {}
  {
  }

  lemma LabelsOfMore(tree: Tree, dirs: set<string>, d: string)
    ensures LabelsOf(tree, dirs + {d}) == LabelsOf(tree, dirs) + TargetsIn(tree, d).Keys
  {
  }

  lemma MapNothing(tree: Tree)
    ensures MapsAll(tree, LabelsOf(tree, {}), map[])
  {
    assert forall f, o :: !Listed(tree, LabelsOf(tree, {}), f, o);
  }

  /** The targets of d are not among those of other directories. */
  lemma NotYet(tree: Tree, dirs: set<string>, d: string)
    requires WellFormed(tree) && d !in dirs
    ensures LabelsOf(tree, dirs) !! TargetsIn(tree, d).Keys
  {
    forall lab | lab in LabelsOf(tree, dirs) ensures lab !in TargetsIn(tree, d) {
      var e :| e in dirs && lab in TargetsIn(tree, e);
      assert lab.dir == e;
    }
  }

  lemma LookupIn(tree: Tree, d: string, lab: Label)
    requires WellFormed(tree) && lab in TargetsIn(tree, d)
    ensures Lookup(tree, lab) == Some(TargetsIn(tree, d)[lab])
  {
  }

  lemma LabelLoaded(tree: Tree, files: map<string, map<Label, Target>>, refs: map<string, set<string>>,
                    asserts: set<string>, targets: map<Label, Target>, dirs: set<string>, lab: Label)
    requires WellFormed(tree) && Agree(tree, files, refs, asserts, targets) && dirs <= files.Keys
    requires lab in LabelsOf(tree, dirs)
    ensures lab in targets && Lookup(tree, lab) == Some(targets[lab])
  {
    var d :| d in dirs && lab in TargetsIn(tree, d);
    assert lab.dir == d;
    assert Lookup(tree, lab).Some?;
  }
}
