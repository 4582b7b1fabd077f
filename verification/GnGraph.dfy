/** One platform's build graph: BUILD.gn files evaluated on demand, the files gn gen
    loads, gn check's file map, and what a target may include. */
module GnGraph {
  import opened Options
  import opened Digraph
  import opened GnTargets
  import opened GnGraphInvariants
  import GnCycles
  import opened Finite

  class Graph {
    const tree: Tree
    var files: map<string, map<Label, Target>>   // evaluated so far, by directory
    var refs: map<string, set<string>>
    var asserts: set<string>
    var targets: map<Label, Target>
    var loaded: Option<set<string>>
    var owners: map<string, seq<Owner>>
    var permitted: map<Label, set<Label>>         // memo of Permitted

    /** What has been evaluated is what the tree says. */
    ghost predicate FilesAgree()
      reads this`files, this`refs, this`asserts, this`targets
    {
      Agree(tree, files, refs, asserts, targets)
    }

    ghost predicate LoadedAgrees()
      reads this`loaded, this`files, this`owners
    {
      match loaded
      case None => owners == map[]
      case Some(s) => IsLoaded(tree, s) && s <= files.Keys && OwnersExact(tree, s, owners)
    }

    ghost predicate MemoAgrees()
      reads this`permitted
    {
      forall x, y :: x in permitted ==> (y in permitted[x] <==> MayInclude(tree, x, y))
    }

    ghost predicate Valid()
      reads this
    {
      WellFormed(tree) && FilesAgree() && LoadedAgrees() && MemoAgrees()
    }

    constructor (tree: Tree)
      requires WellFormed(tree)
      ensures Valid() && this.tree == tree && loaded == None
    {
      this.tree := tree;
      files, refs, asserts, targets, loaded, owners, permitted := map[], map[], {}, map[], None, map[], map[];
    }

    /** Evaluates the BUILD.gn of d once; its targets. */
    method LoadDir(d: string) returns (ts: map<Label, Target>)
      requires WellFormed(tree) && FilesAgree()
      modifies this`files, this`refs, this`asserts, this`targets
      ensures FilesAgree() && files.Keys == old(files.Keys) + {d}
      ensures ts == TargetsIn(tree, d)
    {
      hide Agree, WellFormed;
      if d in files {
        AgreeAt(tree, files, refs, asserts, targets, d);
        assert files.Keys == files.Keys + {d};
        return files[d];
      }
      AgreeAdd(tree, files, refs, asserts, targets, d);
      assert asserts + {} == asserts;
      files := files[d := map[]];
      refs := refs[d := {}];
      ts := map[];
      if d !in tree {
        assert targets + ts == targets;
        return;
      }
      match tree[d] {
        case AssertFailed =>
          asserts := asserts + {d};
          assert targets + ts == targets;
        case Evaluated(evaluated, referenced) =>
          ts := evaluated;
          assert files[d := ts] == old(files)[d := ts] && refs[d := referenced] == old(refs)[d := referenced];
          files := files[d := ts];
          refs := refs[d := referenced];
          targets := targets + ts;
      }
    }

    /** The target of a label, its BUILD.gn evaluated if need be. */
    method TargetOf(lab: Label) returns (t: Option<Target>)
      requires WellFormed(tree) && FilesAgree()
      modifies this`files, this`refs, this`asserts, this`targets
      ensures FilesAgree() && old(files.Keys) <= files.Keys
      ensures t == Lookup(tree, lab)
    {
      var ts := LoadDir(lab.dir);
      AgreeTarget(tree, files, refs, asserts, targets, lab);
      t := if lab in targets then Some(targets[lab]) else None;
    }

    /** One level of Permitted: the public_deps of the queue that are new. */
    method PublicDepsOfAll(queue: seq<Label>, seen0: set<Label>, ghost lab: Label) returns (nxt: seq<Label>, seen: set<Label>)
      requires WellFormed(tree) && FilesAgree() && Frontier(tree, lab, seen0, queue, [])
      modifies this`files, this`refs, this`asserts, this`targets
      ensures FilesAgree() && old(files.Keys) <= files.Keys
      ensures Frontier(tree, lab, seen, nxt, [])
      ensures seen <= seen0 + PublicDepsOf(tree) && if nxt == [] then seen == seen0 else seen0 < seen
    {
      hide Agree, Frontier, PublicDepsOf;
      nxt, seen := [], seen0;
      assert queue[0..] == queue;
      for i := 0 to |queue|
        invariant FilesAgree() && old(files.Keys) <= files.Keys
        invariant Frontier(tree, lab, seen, queue[i..], nxt)
        invariant seen <= seen0 + PublicDepsOf(tree) && if nxt == [] then seen == seen0 else seen0 < seen
      {
        var dt := TargetOf(queue[i]);
        if dt == None {
          FrontierSkip(tree, lab, seen, queue, i, nxt);
          continue;
        }
        var ps := dt.value.publicDeps;
        for j := 0 to |ps|
          invariant FilesAgree() && old(files.Keys) <= files.Keys
          invariant Frontier(tree, lab, seen, queue[i..], nxt)
          invariant forall k :: 0 <= k < j ==> ps[k] in seen
          invariant seen <= seen0 + PublicDepsOf(tree) && if nxt == [] then seen == seen0 else seen0 < seen
        {
          var p := ps[j];
          if p !in seen {
            PublicDepListed(tree, queue[i], p);
            FrontierAdd(tree, lab, seen, queue, i, nxt, p);
            seen := seen + {p};
            nxt := nxt + [p];
          }
        }
        FrontierDone(tree, lab, seen, queue, i, nxt);
      }
      assert queue[|queue|..] == [];
      FrontierTurn(tree, lab, seen, nxt);
    }

    /** Targets lab may include from: its deps, then their public_deps. */
    method PermittedSearch(lab: Label) returns (seen: set<Label>)
      requires WellFormed(tree) && FilesAgree()
      modifies this`files, this`refs, this`asserts, this`targets
      ensures FilesAgree() && old(files.Keys) <= files.Keys
      ensures forall y :: y in seen <==> MayInclude(tree, lab, y)
    {
      hide Agree, Frontier, PublicDepsOf, WellFormed, MayInclude;
      var t := TargetOf(lab);
      var queue := if t.Some? then t.value.AllDeps() else [];
      seen := set d | d in queue;
      ghost var universe := seen + PublicDepsOf(tree);
      FrontierStart(tree, lab, seen, queue);
      while queue != []
        invariant FilesAgree() && old(files.Keys) <= files.Keys
        invariant Frontier(tree, lab, seen, queue, []) && seen <= universe
        invariant Lookup(tree, lab) == None ==> seen == {} && queue == []
        decreases |universe - seen|, |queue|
      {
        ghost var before := seen;
        queue, seen := PublicDepsOfAll(queue, seen, lab);
        if queue != [] { FewerUnseen(universe, before, seen); }
      }
      FrontierEnds(tree, lab, seen);
    }

    /** The memoised answer, or the search's. */
    method Permitted(lab: Label) returns (seen: set<Label>)
      requires Valid()
      modifies this`files, this`refs, this`asserts, this`targets, this`permitted
      ensures Valid() && old(files.Keys) <= files.Keys
      ensures forall y :: y in seen <==> MayInclude(tree, lab, y)
    {
      hide Agree, WellFormed, IsLoaded, OwnersExact, MayInclude;
      if lab in permitted { return permitted[lab]; }
      seen := PermittedSearch(lab);
      permitted := permitted[lab := seen];
    }

    /** One level of LoadBuild: what the loadable directories of the queue reference. */
    method LoadLevel(queue: seq<string>, loaded0: set<string>, seen0: set<string>)
      returns (nxt: seq<string>, found: set<string>, seen: set<string>)
      requires WellFormed(tree) && FilesAgree() && Wave(tree, loaded0, seen0, queue, []) && loaded0 <= files.Keys
      modifies this`files, this`refs, this`asserts, this`targets
      ensures FilesAgree() && old(files.Keys) <= files.Keys && found <= files.Keys
      ensures Wave(tree, found, seen, nxt, [])
      ensures seen <= seen0 + RefsOf(tree) && if nxt == [] then seen == seen0 else seen0 < seen
    {
      hide Agree, Wave, WellFormed, RefsOf;
      nxt, found, seen := [], loaded0, seen0;
      assert queue[0..] == queue;
      for i := 0 to |queue|
        invariant FilesAgree() && old(files.Keys) <= files.Keys && found <= files.Keys
        invariant Wave(tree, found, seen, queue[i..], nxt)
        invariant seen <= seen0 + RefsOf(tree) && if nxt == [] then seen == seen0 else seen0 < seen
      {
        var d := queue[i];
        var ts := LoadDir(d);
        AgreeAt(tree, files, refs, asserts, targets, d);
        if d !in tree || d in asserts {
          WaveSkip(tree, found, seen, queue, i, nxt);
          continue;
        }
        WaveLoad(tree, found, seen, queue, i, nxt);
        found := found + {d};
        var todo := refs[d];
        while todo != {}
          invariant todo <= RefsIn(tree, d) && RefsIn(tree, d) - todo <= seen
          invariant Wave(tree, found, seen, queue[i..], nxt)
          invariant seen <= seen0 + RefsOf(tree) && if nxt == [] then seen == seen0 else seen0 < seen
          invariant FilesAgree() && old(files.Keys) <= files.Keys && found <= files.Keys
          decreases todo
        {
          var r :| r in todo;
          todo := todo - {r};
          if r !in seen {
            RefListed(tree, d, r);
            WaveAdd(tree, found, seen, queue, i, nxt, r);
            seen := seen + {r};
            nxt := nxt + [r];
          }
        }
        WaveDone(tree, found, seen, queue, i, nxt);
      }
      assert queue[|queue|..] == [];
      WaveTurn(tree, found, seen, nxt);
    }

    /** The directories whose BUILD.gn gn gen loads. */
    method LoadSearch() returns (found: set<string>)
      requires WellFormed(tree) && FilesAgree()
      modifies this`files, this`refs, this`asserts, this`targets
      ensures FilesAgree() && old(files.Keys) <= files.Keys && found <= files.Keys
      ensures IsLoaded(tree, found)
    {
      hide Agree, Wave, WellFormed, RefsOf, IsLoaded;
      found := {};
      var queue, seen := [ROOT], {ROOT};
      ghost var universe := {ROOT} + RefsOf(tree);
      WaveStart(tree);
      while queue != []
        invariant FilesAgree() && old(files.Keys) <= files.Keys && found <= files.Keys
        invariant Wave(tree, found, seen, queue, []) && seen <= universe
        decreases |universe - seen|, |queue|
      {
        ghost var before := seen;
        queue, found, seen := LoadLevel(queue, found, seen);
        if queue != [] { FewerUnseen(universe, before, seen); }
      }
      WaveEnds(tree, found, seen);
    }

    /** Enters the files of one target into the file map. */
    method AddTarget(lab: Label, t: Target, ghost labs: set<Label>)
      requires MapsAll(tree, labs, owners) && lab !in labs && Lookup(tree, lab) == Some(t)
      modifies this`owners
      ensures MapsAll(tree, labs + {lab}, owners)
    {
      hide MapsAll, Mapped;
      var fs := t.Files();
      var todo := fs.Keys;
      MapStart(tree, labs, lab, owners);
      assert fs.Keys - todo == {};
      while todo != {}
        invariant todo <= fs.Keys
        invariant Mapped(tree, labs, lab, fs.Keys - todo, owners)
        decreases todo
      {
        var f :| f in todo;
        MapFile(tree, labs, lab, fs.Keys - todo, owners, f, Owner(lab, fs[f].0, fs[f].1));
        assert fs.Keys - (todo - {f}) == (fs.Keys - todo) + {f};
        todo := todo - {f};
        owners := owners[f := OwnersAt(owners, f) + [Owner(lab, fs[f].0, fs[f].1)]];
      }
      assert fs.Keys - {} == fs.Keys;
      MapTarget(tree, labs, lab, owners);
    }

    /** The file map of the directories dirs, and their targets. */
    method FillOwners(dirs: set<string>)
      requires WellFormed(tree) && FilesAgree() && dirs <= files.Keys && owners == map[]
      modifies this`owners
      ensures OwnersExact(tree, dirs, owners)
    {
      hide MapsAll, Agree, WellFormed, OwnersExact, LabelsOf;
      var todo := dirs;
      MapNothing(tree);
      assert dirs - todo == {};
      while todo != {}
        invariant todo <= dirs && MapsAll(tree, LabelsOf(tree, dirs - todo), owners)
        decreases todo
      {
        var d :| d in todo;
        ghost var done := LabelsOf(tree, dirs - todo);
        AgreeAt(tree, files, refs, asserts, targets, d);
        LabelsOfMore(tree, dirs - todo, d);
        assert dirs - (todo - {d}) == (dirs - todo) + {d};
        NotYet(tree, dirs - todo, d);
        todo := todo - {d};
        var ts := files[d];
        var left := ts.Keys;
        assert done + (ts.Keys - left) == done;
        while left != {}
          invariant left <= ts.Keys && MapsAll(tree, done + (ts.Keys - left), owners)
          decreases left
        {
          var lab :| lab in left;
          LookupIn(tree, d, lab);
          AddTarget(lab, ts[lab], done + (ts.Keys - left));
          assert done + (ts.Keys - (left - {lab})) == done + (ts.Keys - left) + {lab};
          left := left - {lab};
        }
        assert done + (ts.Keys - {}) == done + ts.Keys;
      }
      assert dirs - {} == dirs;
      MapsAllIsExact(tree, dirs, owners);
    }

    /** The directories gn gen loads, and the file map they make. */
    method LoadBuild() returns (dirs: set<string>)
      requires Valid()
      modifies this`files, this`refs, this`asserts, this`targets, this`loaded, this`owners
      ensures Valid() && loaded == Some(dirs) && IsLoaded(tree, dirs)
      ensures old(loaded).Some? ==> unchanged(this)
    {
      hide Agree, IsLoaded, OwnersExact, MayInclude, WellFormed;
      if loaded.Some? { return loaded.value; }
      dirs := LoadSearch();
      loaded := Some(dirs);
      FillOwners(dirs);
    }

    /** gn check's file map entry for f. */
    method OwnersOf(f: string) returns (os: seq<Owner>)
      requires Valid()
      modifies this`files, this`refs, this`asserts, this`targets, this`loaded, this`owners
      ensures Valid() && loaded.Some?
      ensures Distinct(os) && forall o :: o in os <==> Owns(tree, loaded.value, f, o)
      ensures old(loaded).Some? ==> unchanged(this)
    {
      hide Agree, IsLoaded, MayInclude, WellFormed;
      var dirs := LoadBuild();
      os := OwnersAt(owners, f);
    }

    /** The labels of the loaded targets, directory by directory. */
    method LoadedLabels(dirs: set<string>) returns (nodes: seq<Label>)
      requires WellFormed(tree) && FilesAgree() && dirs <= files.Keys
      ensures Elements(nodes) == LabelsOf(tree, dirs)
      ensures forall lab :: lab in nodes ==> lab in targets && Lookup(tree, lab) == Some(targets[lab])
    {
      hide Agree, LabelsOf, WellFormed;
      nodes := [];
      var todo := dirs;
      assert dirs - todo == {};
      LabelsOfNone(tree);
      while todo != {}
        invariant todo <= dirs && Elements(nodes) == LabelsOf(tree, dirs - todo)
        decreases todo
      {
        var d :| d in todo;
        AgreeAt(tree, files, refs, asserts, targets, d);
        LabelsOfMore(tree, dirs - todo, d);
        assert dirs - (todo - {d}) == (dirs - todo) + {d};
        todo := todo - {d};
        var left := files[d].Keys;
        ghost var before := nodes;
        while left != {}
          invariant left <= files[d].Keys && Elements(nodes) == Elements(before) + (files[d].Keys - left)
          decreases left
        {
          var lab :| lab in left;
          assert files[d].Keys - (left - {lab}) == (files[d].Keys - left) + {lab};
          assert Elements(nodes + [lab]) == Elements(nodes) + {lab};
          left := left - {lab};
          nodes := nodes + [lab];
        }
        assert files[d].Keys - {} == files[d].Keys;
      }
      assert dirs - {} == dirs;
      forall lab | lab in nodes ensures lab in targets && Lookup(tree, lab) == Some(targets[lab]) {
        assert lab in Elements(nodes);
        LabelLoaded(tree, files, refs, asserts, targets, dirs, lab);
      }
    }

    /** Dependency cycles gn gen would refuse. */
    method Cycles() returns (out: seq<seq<Label>>, ghost nodes: seq<Label>)
      requires Valid()
      modifies this`files, this`refs, this`asserts, this`targets, this`loaded, this`owners
      ensures Valid() && loaded.Some? && IsLoaded(tree, loaded.value)
      ensures Elements(nodes) == LabelsOf(tree, loaded.value)
      ensures forall lab :: lab in nodes ==> lab in targets && Lookup(tree, lab) == Some(targets[lab])
      ensures GnCycles.Reports(GnCycles.LoadedGraph(nodes, targets), Elements(nodes), out)
    {
      hide Agree, IsLoaded, OwnersExact, MayInclude, LabelsOf;
      var dirs := LoadBuild();
      var labels := LoadedLabels(dirs);
      nodes := labels;
      out := GnCycles.Components(labels, targets);
    }
  }
}
