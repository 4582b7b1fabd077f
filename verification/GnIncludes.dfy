/** gn check's include rule: which #include of a target is an error. */
module GnIncludes {
  import opened Options
  import opened Digraph
  import opened GnTargets
  import opened GnGraphInvariants
  import opened GnGraph

  /** What _check_one reports: nothing, that the file is private to targets that the
      includer may include from, or that no dependency path leads to its owners. */
  datatype Verdict = Fine | PrivateTo(file: string, holders: set<Label>) | NoPath(file: string, owners: set<Label>)

  // ----- the rule, on the tree and the loaded directories alone

  ghost predicate Owned(tree: Tree, dirs: set<string>, f: string) {
    exists o :: Owns(tree, dirs, f, o)
  }

  /** The first candidate that is a source path and has an owner. */
  ghost function Resolved(tree: Tree, dirs: set<string>, cands: seq<string>): Option<string> {
    if cands == [] then None
    else if "//" <= cands[0] && Owned(tree, dirs, cands[0]) then Some(cands[0])
    else Resolved(tree, dirs, cands[1..])
  }

  /** o shows the file to x: it is public there, or x is a friend. */
  predicate Exposes(tree: Tree, x: Label, o: Owner) {
    || o.public
    || (Lookup(tree, o.owner).Some? && Befriends(Lookup(tree, o.owner).value.friends, x))
  }

  predicate Befriends(patterns: seq<string>, x: Label) {
    exists p :: p in patterns && LabelMatches(p, x)
  }

  predicate AllowsCircular(tree: Tree, x: Label, o: Owner) {
    Lookup(tree, o.owner).Some? && x in Lookup(tree, o.owner).value.allowCircular
  }

  /** Owner o settles that x may include the file. */
  ghost predicate Clears(tree: Tree, x: Label, o: Owner) {
    || o.owner == x
    || (if MayInclude(tree, x, o.owner) then Exposes(tree, x, o) else AllowsCircular(tree, x, o))
  }

  ghost function OwnerLabels(tree: Tree, dirs: set<string>, f: string): set<Label> {
    set lab | lab in LabelsOf(tree, dirs) && Lookup(tree, lab).Some? && f in Lookup(tree, lab).value.Files()
  }

  ghost function VerdictOf(tree: Tree, dirs: set<string>, x: Label, cands: seq<string>): Verdict {
    match Resolved(tree, dirs, cands)
    case None => Fine
    case Some(f) =>
      if exists o :: Owns(tree, dirs, f, o) && Clears(tree, x, o) then Fine
      else
        var near := set lab | lab in OwnerLabels(tree, dirs, f) && MayInclude(tree, x, lab);
        if near != {} then PrivateTo(f, near) else NoPath(f, OwnerLabels(tree, dirs, f))
  }

  /** The first candidate below the source root that a loaded target lists. */
  ghost predicate IsCandidate(tree: Tree, dirs: set<string>, f: string) {
    "//" <= f && exists lab :: Holds(tree, dirs, f, lab)
  }

  lemma {:induction false} ResolvedFirst(tree: Tree, dirs: set<string>, cands: seq<string>, f: string)
    ensures Resolved(tree, dirs, cands) == Some(f) <==>
            exists k :: 0 <= k < |cands| && cands[k] == f && IsCandidate(tree, dirs, f)
              && forall j :: 0 <= j < k ==> !IsCandidate(tree, dirs, cands[j])
  {
    hide IsCandidate;
    if cands != [] {
      var rest := cands[1..];
      CandidateIff(tree, dirs, cands[0]);
      ResolvedFirst(tree, dirs, rest, f);
      if IsCandidate(tree, dirs, cands[0]) {
        if cands[0] == f { assert cands[0] == f && IsCandidate(tree, dirs, f); }
      } else {
        if k :| 0 <= k < |rest| && rest[k] == f && IsCandidate(tree, dirs, f) && forall j :: 0 <= j < k ==> !IsCandidate(tree, dirs, rest[j]) {
          assert cands[k + 1] == f;
          forall j | 0 <= j < k + 1 ensures !IsCandidate(tree, dirs, cands[j]) {
            if j > 0 { assert cands[j] == rest[j - 1]; }
          }
        }
        if k :| 0 <= k < |cands| && cands[k] == f && IsCandidate(tree, dirs, f) && forall j :: 0 <= j < k ==> !IsCandidate(tree, dirs, cands[j]) {
          assert k > 0 && rest[k - 1] == f;
          assert forall j :: 0 <= j < k - 1 ==> rest[j] == cands[j + 1];
        }
      }
    }
  }

  lemma CandidateIff(tree: Tree, dirs: set<string>, f: string)
    ensures IsCandidate(tree, dirs, f) <==> "//" <= f && Owned(tree, dirs, f)
  {
    if o :| Owns(tree, dirs, f, o) {
      OwnsIff(tree, dirs, f, o);
      assert Holds(tree, dirs, f, o.owner);
    }
    if lab :| Holds(tree, dirs, f, lab) {
      var t := Lookup(tree, lab).value;
      var o := Owner(lab, IsPublic(t, f), f in t.outputs);
      OwnsIff(tree, dirs, f, o);
    }
  }

  lemma OwnerLabel(tree: Tree, dirs: set<string>, f: string, lab: Label)
    requires WellFormed(tree)
    ensures lab in OwnerLabels(tree, dirs, f) <==> exists o :: Owns(tree, dirs, f, o) && o.owner == lab
  {
    if lab in OwnerLabels(tree, dirs, f) {
      var fs := Lookup(tree, lab).value.Files();
      assert lab.dir in dirs;
      assert Owns(tree, dirs, f, Owner(lab, fs[f].0, fs[f].1));
    }
    if o :| Owns(tree, dirs, f, o) && o.owner == lab {
      assert lab in LabelsOf(tree, dirs);
    }
  }

  // ----- the checks

  method Resolve(graph: Graph, cands: seq<string>) returns (r: Option<string>)
    requires graph.Valid()
    modifies graph`files, graph`refs, graph`asserts, graph`targets, graph`loaded, graph`owners
    ensures graph.Valid() && graph.loaded.Some?
    ensures r == Resolved(graph.tree, graph.loaded.value, cands)
    ensures old(graph.loaded).Some? ==> unchanged(graph)
  {
    hide Agree, IsLoaded, MayInclude, WellFormed, OwnersExact;
    var dirs := graph.LoadBuild();
    label loaded:
    r := None;
    for i := 0 to |cands|
      invariant graph.Valid() && graph.loaded == Some(dirs)
      invariant unchanged@loaded(graph)
      invariant Resolved(graph.tree, dirs, cands) == Resolved(graph.tree, dirs, cands[i..])
    {
      if "//" <= cands[i] {
        var os := graph.OwnersOf(cands[i]);
        assert os != [] ==> Owns(graph.tree, dirs, cands[i], os[0]);
        if os != [] { return Some(cands[i]); }
      }
      assert cands[i..][1..] == cands[i + 1..];
    }
  }

  /** No owner among os settles that x may include the file. */
  ghost predicate NoneClears(tree: Tree, x: Label, os: seq<Owner>, n: nat) {
    n <= |os| && forall k :: 0 <= k < n ==> !Clears(tree, x, os[k])
  }

  /** The owners among the first n that x may include from. */
  ghost function Near(tree: Tree, x: Label, os: seq<Owner>, n: nat): set<Label>
    requires n <= |os|
  {
    set k | 0 <= k < n && MayInclude(tree, x, os[k].owner) :: os[k].owner
  }

  /** Goes through the owners of the file: whether one clears the include, else
      which of them x may include from. */
  method ScanOwners(graph: Graph, x: Label, os: seq<Owner>, permitted: set<Label>) returns (cleared: bool, near: set<Label>)
    requires WellFormed(graph.tree) && graph.FilesAgree()
    requires forall y :: y in permitted <==> MayInclude(graph.tree, x, y)
    requires forall k :: 0 <= k < |os| ==> os[k].owner != x
    modifies graph`files, graph`refs, graph`asserts, graph`targets
    ensures graph.FilesAgree() && old(graph.files.Keys) <= graph.files.Keys
    ensures cleared <==> exists o :: o in os && Clears(graph.tree, x, o)
    ensures !cleared ==> near == Near(graph.tree, x, os, |os|)
  {
    hide Agree, WellFormed, MayInclude, Befriends;
    near := {};
    for i := 0 to |os|
      invariant graph.FilesAgree() && old(graph.files.Keys) <= graph.files.Keys
      invariant NoneClears(graph.tree, x, os, i)
      invariant near == Near(graph.tree, x, os, i)
    {
      var o := os[i];
      var to := graph.TargetOf(o.owner);
      if o.owner in permitted {
        if o.public || (to.Some? && Befriends(to.value.friends, x)) {
          assert Clears(graph.tree, x, o) && o in os;
          return true, near;
        }
        near := near + {o.owner};
      } else if to.Some? && x in to.value.allowCircular {
        assert Clears(graph.tree, x, o) && o in os;
        return true, near;
      }
    }
    cleared := false;
  }

  /** The list of owners and the rule's sets of owners agree. */
  lemma SameOwners(tree: Tree, dirs: set<string>, x: Label, f: string, os: seq<Owner>)
    requires WellFormed(tree) && forall o :: o in os <==> Owns(tree, dirs, f, o)
    ensures (set k | 0 <= k < |os| :: os[k].owner) == OwnerLabels(tree, dirs, f)
    ensures Near(tree, x, os, |os|) == set lab | lab in OwnerLabels(tree, dirs, f) && MayInclude(tree, x, lab)
  {
    var all := set k | 0 <= k < |os| :: os[k].owner;
    forall lab ensures lab in all <==> lab in OwnerLabels(tree, dirs, f) {
      OwnerLabel(tree, dirs, f, lab);
      if k :| 0 <= k < |os| && os[k].owner == lab {
        assert os[k] in os;
      }
      if o :| Owns(tree, dirs, f, o) && o.owner == lab {
        assert o in os;
      }
    }
    forall lab ensures lab in Near(tree, x, os, |os|) <==> lab in all && MayInclude(tree, x, lab) {
    }
  }

  /** The rule in the fields of the targets: loaded target lab lists the file, and it is x itself,
      or x may include from it and the file is public there or x a friend, or x may not and lab
      allows x to include it circularly. */
  ghost predicate ClearedBy(tree: Tree, dirs: set<string>, x: Label, f: string, lab: Label) {
    && lab.dir in dirs && Lookup(tree, lab).Some?
    && var t := Lookup(tree, lab).value;
       && Lists(t, f)
       && (|| lab == x
           || (MayInclude(tree, x, lab) && (IsPublic(t, f) || exists p :: p in t.friends && LabelMatches(p, x)))
           || (!MayInclude(tree, x, lab) && x in t.allowCircular))
  }

  lemma ClearedIff(tree: Tree, dirs: set<string>, x: Label, f: string)
    ensures (exists o :: Owns(tree, dirs, f, o) && Clears(tree, x, o)) <==> exists lab :: ClearedBy(tree, dirs, x, f, lab)
  {
    hide MayInclude, LabelMatches;
    if o :| Owns(tree, dirs, f, o) && Clears(tree, x, o) {
      OwnsIff(tree, dirs, f, o);
      assert ClearedBy(tree, dirs, x, f, o.owner);
    }
    if lab :| ClearedBy(tree, dirs, x, f, lab) {
      var t := Lookup(tree, lab).value;
      var o := Owner(lab, IsPublic(t, f), f in t.outputs);
      OwnsIff(tree, dirs, f, o);
      assert Owns(tree, dirs, f, o) && Clears(tree, x, o);
    }
  }

  lemma FineIff(tree: Tree, dirs: set<string>, x: Label, cands: seq<string>)
    ensures VerdictOf(tree, dirs, x, cands) == Fine
       <==> match Resolved(tree, dirs, cands)
            case None => true
            case Some(f) => exists lab :: ClearedBy(tree, dirs, x, f, lab)
  {
    hide MayInclude, LabelsOf, Owns, Clears, ClearedBy;
    if Resolved(tree, dirs, cands).Some? {
      ClearedIff(tree, dirs, x, Resolved(tree, dirs, cands).value);
    }
  }

  /** lab is loaded and lists the file. */
  ghost predicate Holds(tree: Tree, dirs: set<string>, f: string, lab: Label) {
    lab.dir in dirs && Lookup(tree, lab).Some? && Lists(Lookup(tree, lab).value, f)
  }

  /** The reason of an error: the file is private to the targets that list it and that x may include
      from, when there are any; else no path leads to any of those that list it. */
  ghost predicate RightReason(tree: Tree, dirs: set<string>, x: Label, f: string, v: Verdict) {
    match v
    case Fine => true
    case PrivateTo(file, holders) =>
      && file == f && holders != {}
      && forall lab :: lab in holders <==> Holds(tree, dirs, f, lab) && MayInclude(tree, x, lab)
    case NoPath(file, owners) =>
      && file == f && (forall lab :: lab in owners <==> Holds(tree, dirs, f, lab))
      && forall lab :: Holds(tree, dirs, f, lab) ==> !MayInclude(tree, x, lab)
  }

  lemma ReasonIsRight(tree: Tree, dirs: set<string>, x: Label, cands: seq<string>)
    requires WellFormed(tree)
    ensures var v := VerdictOf(tree, dirs, x, cands);
            v != Fine ==> Resolved(tree, dirs, cands).Some? && RightReason(tree, dirs, x, Resolved(tree, dirs, cands).value, v)
  {
    hide MayInclude, Clears;
    if Resolved(tree, dirs, cands).Some? {
      var f := Resolved(tree, dirs, cands).value;
      forall lab ensures lab in OwnerLabels(tree, dirs, f) <==> Holds(tree, dirs, f, lab) {
        LoadedLabel(tree, dirs, lab);
      }
      var near := set lab | lab in OwnerLabels(tree, dirs, f) && MayInclude(tree, x, lab);
      hide OwnerLabels, Holds;
      forall lab | Holds(tree, dirs, f, lab) && MayInclude(tree, x, lab) ensures near != {} {
        assert lab in near;
      }
    }
  }

  lemma LoadedLabel(tree: Tree, dirs: set<string>, lab: Label)
    requires WellFormed(tree)
    ensures Lookup(tree, lab).Some? ==> (lab in LabelsOf(tree, dirs) <==> lab.dir in dirs)
  {
  }

  /** gn check's rule for one include of target x; cands are the paths that the
      quoted name may stand for, in order. */
  method CheckOne(graph: Graph, x: Label, cands: seq<string>) returns (v: Verdict)
    requires graph.Valid()
    modifies graph
    ensures graph.Valid() && graph.loaded.Some?
    ensures v == VerdictOf(graph.tree, graph.loaded.value, x, cands)
    ensures v == Fine <==>
            match Resolved(graph.tree, graph.loaded.value, cands)
            case None => true
            case Some(f) => exists lab :: ClearedBy(graph.tree, graph.loaded.value, x, f, lab)
    ensures v != Fine ==>
              && Resolved(graph.tree, graph.loaded.value, cands).Some?
              && RightReason(graph.tree, graph.loaded.value, x, Resolved(graph.tree, graph.loaded.value, cands).value, v)
  {
    hide RightReason;
    hide Agree, IsLoaded, MayInclude, WellFormed, OwnersExact, ClearedBy, LabelMatches, Befriends, LabelsOf, Resolved, Exposes, AllowsCircular, Near;
    var target := Resolve(graph, cands);
    ghost var dirs := graph.loaded.value;
    FineIff(graph.tree, dirs, x, cands);
    ReasonIsRight(graph.tree, dirs, x, cands);
    if target.None? { return Fine; }
    var os := graph.OwnersOf(target.value);
    SameOwners(graph.tree, dirs, x, target.value, os);
    if exists k :: 0 <= k < |os| && os[k].owner == x {
      ghost var k :| 0 <= k < |os| && os[k].owner == x;
      assert Owns(graph.tree, dirs, target.value, os[k]) && Clears(graph.tree, x, os[k]);
      return Fine;
    }
    var permitted := graph.Permitted(x);
    var cleared, near := ScanOwners(graph, x, os, permitted);
    if cleared { return Fine; }
    v := if near != {} then PrivateTo(target.value, near) else NoPath(target.value, set k | 0 <= k < |os| :: os[k].owner);
  }

  // ----- what the rule says

  /** The verdict depends on the tree alone: not on what was loaded before, on the
      memo, or on the order of the owners. */
  lemma VerdictStable(tree: Tree, dirs: set<string>, dirs': set<string>, x: Label, cands: seq<string>)
    requires IsLoaded(tree, dirs) && IsLoaded(tree, dirs')
    ensures VerdictOf(tree, dirs, x, cands) == VerdictOf(tree, dirs', x, cands)
  {
    LoadedUnique(tree, dirs, dirs');
  }

  /** The tree in which x also depends on y. */
  ghost function WithDep(tree: Tree, x: Label, y: Label): Tree
    requires Lookup(tree, x).Some?
  {
    var t := Lookup(tree, x).value;
    tree[x.dir := tree[x.dir].(targets := tree[x.dir].targets[x := t.(deps := t.deps + [y])])]
  }

  /** What the message advises clears the error: depending on an owner that exposes
      the file. */
  lemma AddedDepClears(tree: Tree, dirs: set<string>, x: Label, cands: seq<string>, o: Owner)
    requires WellFormed(tree) && Lookup(tree, x).Some?
    requires Resolved(tree, dirs, cands).Some? && Owns(tree, dirs, Resolved(tree, dirs, cands).value, o)
    requires Exposes(tree, x, o)
    ensures VerdictOf(WithDep(tree, x, o.owner), dirs, x, cands) == Fine
  {
    var next := WithDep(tree, x, o.owner);
    forall lab
      ensures Lookup(next, lab).Some? <==> Lookup(tree, lab).Some?
      ensures lab != x ==> Lookup(next, lab) == Lookup(tree, lab)
    {
    }
    var t, u := Lookup(tree, x).value, Lookup(next, x).value;
    assert u == t.(deps := t.deps + [o.owner]);
    assert u.Files() == t.Files();
    SameOwning(tree, next, dirs, x, cands);
    MayIncludeDep(next, x, o.owner);
    assert Clears(next, x, o);
  }

  lemma {:induction false} SameOwning(tree: Tree, next: Tree, dirs: set<string>, x: Label, cands: seq<string>)
    requires forall lab :: Lookup(next, lab).Some? <==> Lookup(tree, lab).Some?
    requires forall lab :: Lookup(tree, lab).Some? ==> Lookup(next, lab).value.Files() == Lookup(tree, lab).value.Files()
    ensures forall f, o :: Owns(next, dirs, f, o) <==> Owns(tree, dirs, f, o)
    ensures Resolved(next, dirs, cands) == Resolved(tree, dirs, cands)
  {
    if cands != [] {
      SameOwning(tree, next, dirs, x, cands[1..]);
      assert Owned(next, dirs, cands[0]) <==> Owned(tree, dirs, cands[0]);
    }
  }
}
