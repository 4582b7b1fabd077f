/** cycle_path: one shortest cycle through the first target of a reported component. */
module GnCyclePath {
  import opened Digraph
  import opened GnTargets
  import opened GnTarjan
  import opened GnCycles
  import opened Finite

  /** The parents found so far, and the distance of each from the start. */
  datatype Tree = Tree(start: Label, parent: map<Label, Label>, dist: map<Label, nat>)

  ghost predicate Up(g: Edges, t: Tree, d: Label) {
    && d in t.parent && t.parent[d] in t.dist && Edge(g, t.parent[d], d)
    && Num(t.dist, d) == Num(t.dist, t.parent[d]) + 1
  }

  ghost predicate Grown(g: Edges, members: set<Label>, t: Tree) {
    && t.start !in t.parent
    && t.dist.Keys == t.parent.Keys + {t.start} <= members
    && Num(t.dist, t.start) == 0
    && (forall d {:trigger Up(g, t, d)} :: d in t.parent ==> Up(g, t, d))
  }

  /** The edge from x to d leads to a member already reached, and not back to the start. */
  ghost predicate Followed(members: set<Label>, t: Tree, x: Label, d: Label) {
    d in members ==> d != t.start && d in t.dist && Num(t.dist, d) <= Num(t.dist, x) + 1
  }

  /** All edges of x have been followed. */
  ghost predicate Done(g: Edges, members: set<Label>, t: Tree, x: Label) {
    forall d {:trigger Followed(members, t, x, d)} :: Edge(g, x, d) ==> Followed(members, t, x, d)
  }

  /** All members nearer than n are done. */
  ghost predicate DoneBefore(g: Edges, members: set<Label>, t: Tree, n: nat) {
    forall x {:trigger Done(g, members, t, x)} :: x in t.dist && Num(t.dist, x) < n ==> Done(g, members, t, x)
  }

  /** A walk from the start is at most as far from it as it is long. */
  lemma {:induction false} WalkReached(g: Edges, members: set<Label>, t: Tree, n: nat, p: seq<Label>)
    requires Grown(g, members, t) && DoneBefore(g, members, t, n)
    requires IsWalk(g, p) && p[0] == t.start && Elements(p) <= members && |p| - 1 <= n
    ensures p[|p| - 1] in t.dist && Num(t.dist, p[|p| - 1]) <= |p| - 1
  {
    if |p| > 1 {
      var q := p[..|p| - 1];
      WalkReached(g, members, t, n, q);
      assert Edge(g, p[|p| - 2], p[|p| - 1]);
      assert Done(g, members, t, p[|p| - 2]);
      assert Followed(members, t, p[|p| - 2], p[|p| - 1]);
    }
  }

  lemma DoneAvoidsStart(g: Edges, members: set<Label>, t: Tree, n: nat, x: Label, d: Label)
    requires DoneBefore(g, members, t, n) && x in t.dist && Num(t.dist, x) < n
    requires Edge(g, x, d) && d in members
    ensures d != t.start
  {
    assert Done(g, members, t, x);
    assert Followed(members, t, x, d);
  }

  /** With all members nearer than n done, a cycle through the start has more than n edges. */
  lemma CycleIsLonger(g: Edges, members: set<Label>, t: Tree, n: nat, q: seq<Label>)
    requires Grown(g, members, t) && DoneBefore(g, members, t, n)
    requires IsCycle(g, q) && q[0] == t.start && Elements(q) <= members
    ensures |q| - 1 > n
  {
    if |q| - 1 <= n {
      var z := q[|q| - 2];
      WalkReached(g, members, t, n, q[..|q| - 1]);
      assert Edge(g, z, q[|q| - 1]);
      DoneAvoidsStart(g, members, t, n, z, q[|q| - 1]);
    }
  }

  /** A member reached for the first time from x. */
  ghost function Add(t: Tree, x: Label, d: Label): Tree {
    t.(parent := t.parent[d := x], dist := t.dist[d := Num(t.dist, x) + 1])
  }

  lemma AddKeeps(g: Edges, members: set<Label>, t: Tree, x: Label, d: Label, n: nat)
    requires Grown(g, members, t) && DoneBefore(g, members, t, n)
    requires x in t.dist && Num(t.dist, x) == n && Edge(g, x, d) && d in members && d !in t.dist
    ensures Grown(g, members, Add(t, x, d)) && DoneBefore(g, members, Add(t, x, d), n)
    ensures Followed(members, Add(t, x, d), x, d)
    ensures forall y :: Done(g, members, t, y) && y in t.dist ==> Done(g, members, Add(t, x, d), y)
    ensures forall e :: Followed(members, t, x, e) ==> Followed(members, Add(t, x, d), x, e)
  {
    var u := Add(t, x, d);
    forall e | e in u.parent ensures Up(g, u, e) {
      if e != d { assert Up(g, t, e); }
    }
    forall y | Done(g, members, t, y) && y in t.dist ensures Done(g, members, u, y) {
      forall e | Edge(g, y, e) ensures Followed(members, u, y, e) {
        assert Followed(members, t, y, e);
      }
    }
  }

  /** path[-1] back to the start over parents. */
  method ClimbToStart(parent: map<Label, Label>, start: Label, lab: Label,
                      ghost g: Edges, ghost members: set<Label>, ghost t: Tree)
    returns (path: seq<Label>)
    requires Grown(g, members, t) && lab in t.dist && t.parent == parent && t.start == start
    ensures |path| == Num(t.dist, lab) + 1 && path[0] == lab && path[|path| - 1] == t.start
    ensures forall i :: 0 <= i < |path| ==> path[i] in t.dist && Num(t.dist, path[i]) == |path| - 1 - i
    ensures forall i :: 0 <= i < |path| - 1 ==> Edge(g, path[i + 1], path[i])
  {
    path := [lab];
    while path[|path| - 1] != start
      invariant path != [] && path[0] == lab
      invariant forall i :: 0 <= i < |path| ==> path[i] in t.dist && Num(t.dist, path[i]) + i == Num(t.dist, lab)
      invariant forall i :: 0 <= i < |path| - 1 ==> Edge(g, path[i + 1], path[i])
      decreases Num(t.dist, path[|path| - 1])
    {
      var d := path[|path| - 1];
      assert Up(g, t, d);
      path := path + [parent[d]];
    }
    assert Num(t.dist, path[|path| - 1]) == 0;
  }

  function Reversed<T>(s: seq<T>): (r: seq<T>)
    ensures |r| == |s| && forall i :: 0 <= i < |s| ==> r[i] == s[|s| - 1 - i]
  {
    if s == [] then [] else Reversed(s[1..]) + [s[0]]
  }

  /** The deps of a target in the order that succ reads them. */
  function Deps(t: Target): seq<Label> {
    t.publicDeps + t.deps + t.dataDeps
  }

  /** The breadth-first search at distance n: queue is all that is n away, nxt what
      is known to be n + 1 away, and the first i of the queue are done. */
  ghost predicate Level(g: Edges, members: set<Label>, t: Tree, n: nat, queue: seq<Label>, nxt: seq<Label>, i: nat) {
    && Grown(g, members, t) && DoneBefore(g, members, t, n)
    && (forall x :: x in queue <==> x in t.dist && Num(t.dist, x) == n)
    && (forall x :: x in nxt <==> x in t.dist && Num(t.dist, x) == n + 1)
    && (forall x :: x in t.dist ==> Num(t.dist, x) <= n + 1)
    && i <= |queue| && (forall k :: 0 <= k < i ==> Done(g, members, t, queue[k]))
  }

  lemma LevelAdd(g: Edges, members: set<Label>, t: Tree, n: nat, queue: seq<Label>, nxt: seq<Label>, i: nat, d: Label)
    requires Level(g, members, t, n, queue, nxt, i) && i < |queue|
    requires Edge(g, queue[i], d) && d in members && d !in t.dist
    ensures Level(g, members, Add(t, queue[i], d), n, queue, nxt + [d], i)
    ensures Followed(members, Add(t, queue[i], d), queue[i], d)
    ensures forall e :: Followed(members, t, queue[i], e) ==> Followed(members, Add(t, queue[i], d), queue[i], e)
  {
    assert queue[i] in queue;
    AddKeeps(g, members, t, queue[i], d, n);
    forall k | 0 <= k < i ensures Done(g, members, Add(t, queue[i], d), queue[k]) {
      assert queue[k] in queue;
    }
  }

  lemma LevelSeen(g: Edges, members: set<Label>, t: Tree, n: nat, queue: seq<Label>, nxt: seq<Label>, i: nat, d: Label)
    requires Level(g, members, t, n, queue, nxt, i) && i < |queue|
    requires d in t.parent
    ensures Followed(members, t, queue[i], d)
  {
    assert queue[i] in queue;
  }

  lemma LevelEnds(g: Edges, members: set<Label>, t: Tree, n: nat, queue: seq<Label>, nxt: seq<Label>)
    requires Level(g, members, t, n, queue, nxt, |queue|)
    ensures Level(g, members, t, n + 1, nxt, [], 0)
  {
    forall x | x in t.dist && Num(t.dist, x) < n + 1 ensures Done(g, members, t, x) {
      if Num(t.dist, x) == n {
        var k :| 0 <= k < |queue| && queue[k] == x;
      }
    }
  }

  /** The search cannot run dry: a cyclic component has a cycle through each member. */
  lemma QueueNotEmpty(g: Edges, members: set<Label>, t: Tree, n: nat, queue: seq<Label>)
    requires Level(g, members, t, n, queue, [], 0)
    requires IsComponent(g, members) && Cyclic(g, members) && t.start in members && Closed(g)
    ensures queue != []
  {
    if queue == [] {
      var q := ComponentHasCycle(g, members, t.start);
      CycleInMembers(g, members, q);
      assert DoneBefore(g, members, t, |q|) by {
        forall x | x in t.dist && Num(t.dist, x) < |q| ensures Done(g, members, t, x) {
          assert x !in queue;
        }
      }
      CycleIsLonger(g, members, t, |q|, q);
    }
  }

  /** A cycle through a member of a component stays in the component. */
  lemma CycleInMembers(g: Edges, members: set<Label>, q: seq<Label>)
    requires IsComponent(g, members) && Closed(g) && IsCycle(g, q) && q[0] in members
    ensures Elements(q) <= members
  {
    CycleInComponent(g, q);
    ComponentsMeet(g, members, ComponentOf(g, q[0]), q[0]);
  }

  /** A cycle through its first element that repeats nothing else and is as short as
      any cycle through that element. */
  ghost predicate ShortestCycle(g: Edges, path: seq<Label>) {
    && IsCycle(g, path)
    && (forall i, j :: 0 <= i < j < |path| - 1 ==> path[i] != path[j])
    && (forall q :: IsCycle(g, q) && q[0] == path[0] ==> |path| <= |q|)
  }

  /** The way back to the start, turned round and closed, is a shortest cycle. */
  lemma ClosedPathIsShortest(g: Edges, members: set<Label>, t: Tree, n: nat, back: seq<Label>, path: seq<Label>)
    requires IsComponent(g, members) && Closed(g)
    requires Grown(g, members, t) && DoneBefore(g, members, t, n)
    requires |back| == n + 1 && back[n] == t.start && Edge(g, back[0], t.start)
    requires forall i :: 0 <= i < |back| ==> back[i] in t.dist && Num(t.dist, back[i]) == n - i
    requires forall i :: 0 <= i < n ==> Edge(g, back[i + 1], back[i])
    requires path == Reversed(back) + [t.start]
    ensures ShortestCycle(g, path) && path[0] == t.start && Elements(path) <= members
  {
    hide IsComponent, DoneBefore, IsWalk, Closed, Edge;
    ClosedPathIsCycle(g, t, n, back, path);
    BackAndForth(t, n, back, path, members);
    forall q | IsCycle(g, q) && q[0] == path[0] ensures |path| <= |q| {
      NoCycleIsShorter(g, members, t, n, q);
    }
  }

  lemma NoCycleIsShorter(g: Edges, members: set<Label>, t: Tree, n: nat, q: seq<Label>)
    requires IsComponent(g, members) && Closed(g)
    requires Grown(g, members, t) && DoneBefore(g, members, t, n)
    requires IsCycle(g, q) && q[0] == t.start
    ensures n + 2 <= |q|
  {
    hide IsComponent, DoneBefore, IsCycle, Closed;
    CycleInMembers(g, members, q);
    CycleIsLonger(g, members, t, n, q);
  }

  /** Every step of the way is a member of its own. */
  lemma BackAndForth(t: Tree, n: nat, back: seq<Label>, path: seq<Label>, members: set<Label>)
    requires t.dist.Keys <= members
    requires |back| == n + 1 && back[n] == t.start
    requires forall i :: 0 <= i < |back| ==> back[i] in t.dist && Num(t.dist, back[i]) == n - i
    requires path == Reversed(back) + [t.start]
    ensures forall i, j :: 0 <= i < j < |path| - 1 ==> path[i] != path[j]
    ensures Elements(path) <= members
  {
    forall i, j | 0 <= i < j < |path| - 1 ensures path[i] != path[j] {
      assert path[i] == back[n - i] && path[j] == back[n - j];
    }
    forall i | 0 <= i < |path| ensures path[i] in members {
      if i <= n { assert path[i] == back[n - i]; }
    }
  }

  lemma ClosedPathIsCycle(g: Edges, t: Tree, n: nat, back: seq<Label>, path: seq<Label>)
    requires |back| == n + 1 && back[n] == t.start && Edge(g, back[0], t.start)
    requires forall i :: 0 <= i < n ==> Edge(g, back[i + 1], back[i])
    requires path == Reversed(back) + [t.start]
    ensures IsCycle(g, path) && path[0] == t.start && |path| == n + 2
  {
    forall i | 0 <= i < |path| - 1 ensures Edge(g, path[i], path[i + 1]) {
      if i < n { assert path[i] == back[n - i] && path[i + 1] == back[n - i - 1]; }
    }
  }

  /** A component as Components lists it. */
  ghost predicate IsReported(nodes: seq<Label>, targets: map<Label, Target>, comp: seq<Label>)
  {
    && (forall lab :: lab in nodes ==> lab in targets)
    && ListsCyclic(LoadedGraph(nodes, targets), Elements(nodes), comp)
  }

  /** Inside a component the loaded graph has just the deps that are members. */
  lemma MemberEdges(nodes: seq<Label>, targets: map<Label, Target>, comp: seq<Label>, x: Label, d: Label)
    requires IsReported(nodes, targets, comp) && x in comp && d in comp
    ensures x in targets
    ensures Edge(LoadedGraph(nodes, targets), x, d) <==> d in Deps(targets[x])
  {
    assert x in Elements(comp) && d in Elements(comp);
  }

  /** The level and the growth of parent in one scan. */
  ghost predicate Scanning(g: Edges, members: set<Label>, t: Tree, n: nat, queue: seq<Label>, nxt: seq<Label>, i: nat,
                           parent: map<Label, Label>, parent0: map<Label, Label>) {
    && t.parent == parent && Level(g, members, t, n, queue, nxt, i)
    && if nxt == [] then parent == parent0 else parent0.Keys < parent.Keys
  }

  lemma ScanAdds(g: Edges, members: set<Label>, t: Tree, n: nat, queue: seq<Label>, nxt: seq<Label>, i: nat, d: Label,
                 parent: map<Label, Label>, parent0: map<Label, Label>)
    requires Scanning(g, members, t, n, queue, nxt, i, parent, parent0) && i < |queue|
    requires Edge(g, queue[i], d) && d in members && d !in parent && d != t.start
    ensures Scanning(g, members, Add(t, queue[i], d), n, queue, nxt + [d], i, parent[d := queue[i]], parent0)
    ensures Followed(members, Add(t, queue[i], d), queue[i], d)
    ensures forall e :: Followed(members, t, queue[i], e) ==> Followed(members, Add(t, queue[i], d), queue[i], e)
  {
    LevelAdd(g, members, t, n, queue, nxt, i, d);
  }

  lemma ScanDone(g: Edges, members: set<Label>, t: Tree, n: nat, queue: seq<Label>, nxt: seq<Label>, i: nat)
    requires Level(g, members, t, n, queue, nxt, i) && i < |queue|
    requires forall d :: Edge(g, queue[i], d) && d in members ==> Followed(members, t, queue[i], d)
    ensures Level(g, members, t, n, queue, nxt, i + 1)
  {
    forall d | Edge(g, queue[i], d) ensures Followed(members, t, queue[i], d) {
    }
  }

  /** Follows the deps ds of queue[i]: either one leads back to the start and the
      cycle is closed, or all are followed. */
  method Scan(ds: seq<Label>, members: set<Label>, start: Label, parent0: map<Label, Label>, nxt0: seq<Label>, lab: Label,
              ghost g: Edges, ghost t0: Tree, ghost n: nat, ghost queue: seq<Label>, ghost i: nat, ghost before: map<Label, Label>)
    returns (found: bool, path: seq<Label>, parent: map<Label, Label>, nxt: seq<Label>, ghost t: Tree)
    requires IsComponent(g, members) && Closed(g)
    requires i < |queue| && queue[i] == lab && t0.start == start
    requires Scanning(g, members, t0, n, queue, nxt0, i, parent0, before)
    requires forall d :: d in members ==> (Edge(g, lab, d) <==> d in ds)
    ensures found ==> path != [] && path[0] == start && Elements(path) <= members && ShortestCycle(g, path)
    ensures !found ==> t.start == start && Scanning(g, members, t, n, queue, nxt, i + 1, parent, before)
  {
    hide IsComponent, Level, ShortestCycle, Elements;
    found, path, parent, nxt, t := false, [], parent0, nxt0, t0;
    for j := 0 to |ds|
      invariant t.start == start && Scanning(g, members, t, n, queue, nxt, i, parent, before)
      invariant forall k :: 0 <= k < j ==> Followed(members, t, lab, ds[k])
    {
      var d := ds[j];
      if d !in members { continue; }
      if d == start {
        LevelLab(g, members, t, n, queue, nxt, i);
        var back := ClimbToStart(parent, start, lab, g, members, t);
        path := if |back| > 1 then [start] + Reversed(back)[1..] + [start] else [start, start];
        assert Reversed(back)[0] == start;
        assert path == Reversed(back) + [start];
        ClosedPathIsShortest(g, members, t, n, back, path);
        found := true;
        return;
      }
      if d !in parent {
        ScanAdds(g, members, t, n, queue, nxt, i, d, parent, before);
        t := Add(t, lab, d);
        parent := parent[d := lab];
        nxt := nxt + [d];
      } else {
        LevelSeen(g, members, t, n, queue, nxt, i, d);
      }
    }
    ScanDone(g, members, t, n, queue, nxt, i);
  }

  lemma LevelLab(g: Edges, members: set<Label>, t: Tree, n: nat, queue: seq<Label>, nxt: seq<Label>, i: nat)
    requires Level(g, members, t, n, queue, nxt, i) && i < |queue|
    ensures Grown(g, members, t) && DoneBefore(g, members, t, n) && queue[i] in t.dist && Num(t.dist, queue[i]) == n
    ensures queue[i] in members
  {
    assert queue[i] in queue;
  }

  /** The targets of one level in turn, as Scan. */
  method ScanLevel(ghost nodes: seq<Label>, targets: map<Label, Target>, comp: seq<Label>, members: set<Label>, start: Label,
                   parent0: map<Label, Label>, queue: seq<Label>, ghost t0: Tree, ghost n: nat)
    returns (found: bool, path: seq<Label>, parent: map<Label, Label>, nxt: seq<Label>, ghost t: Tree)
    requires IsReported(nodes, targets, comp) && members == Elements(comp) && t0.start == start && t0.parent == parent0
    requires Level(LoadedGraph(nodes, targets), members, t0, n, queue, [], 0)
    ensures found ==> path != [] && path[0] == start && Elements(path) <= members && ShortestCycle(LoadedGraph(nodes, targets), path)
    ensures !found ==> t.start == start && t.parent == parent && Level(LoadedGraph(nodes, targets), members, t, n + 1, nxt, [], 0)
    ensures !found ==> if nxt == [] then parent == parent0 else parent0.Keys < parent.Keys <= members
  {
    hide Level, IsReported, IsComponent, Cyclic, ShortestCycle, LoadedGraph;
    ReportedFacts(nodes, targets, comp);
    ghost var g := LoadedGraph(nodes, targets);
    found, path, parent, nxt, t := false, [], parent0, [], t0;
    for i := 0 to |queue|
      invariant t.start == start && Scanning(g, members, t, n, queue, nxt, i, parent, parent0)
    {
      var lab := queue[i];
      LevelLab(g, members, t, n, queue, nxt, i);
      forall d | d in members ensures lab in targets && (Edge(g, lab, d) <==> d in Deps(targets[lab])) {
        MemberEdges(nodes, targets, comp, lab, d);
      }
      assert lab in members;
      found, path, parent, nxt, t := Scan(Deps(targets[lab]), members, start, parent, nxt, lab, g, t, n, queue, i, parent0);
      if found { return; }
    }
    LevelEnds(g, members, t, n, queue, nxt);
    LevelKeys(g, members, t, n + 1, nxt, [], 0);
  }

  lemma LevelStart(g: Edges, members: set<Label>, start: Label)
    requires start in members
    ensures Level(g, members, Tree(start, map[], map[start := 0]), 0, [start], [], 0)
  {
  }

  /** One cycle through comp[0] inside the component, as labels. */
  method CyclePath(ghost nodes: seq<Label>, targets: map<Label, Target>, comp: seq<Label>) returns (path: seq<Label>)
    requires IsReported(nodes, targets, comp)
    ensures path != [] && comp != [] && path[0] == comp[0] && Elements(path) <= Elements(comp)
    ensures ShortestCycle(LoadedGraph(nodes, targets), path)
  {
    hide ShortestCycle, Cyclic, IsComponent, Level, IsReported, LoadedGraph;
    ReportedFacts(nodes, targets, comp);
    ghost var g := LoadedGraph(nodes, targets);
    var members := set x | x in comp;
    var start := comp[0];
    var parent: map<Label, Label> := map[];
    var queue := [start];
    ghost var t, n := Tree(start, map[], map[start := 0]), 0;
    LevelStart(g, members, start);
    path := comp;
    while queue != []
      invariant t.start == start && t.parent == parent && Level(g, members, t, n, queue, [], 0)
      decreases |members - parent.Keys|, |queue|
    {
      ghost var before := parent;
      var found, nxt;
      found, path, parent, nxt, t := ScanLevel(nodes, targets, comp, members, start, parent, queue, t, n);
      if found { return; }
      if nxt != [] { FewerUnseen(members, before.Keys, parent.Keys); }
      queue := nxt;
      n := n + 1;
    }
    QueueNotEmpty(g, members, t, n, queue);
  }

  lemma ReportedFacts(nodes: seq<Label>, targets: map<Label, Target>, comp: seq<Label>)
    requires IsReported(nodes, targets, comp)
    ensures forall lab :: lab in nodes ==> lab in targets
    ensures comp != [] && Closed(LoadedGraph(nodes, targets))
    ensures IsComponent(LoadedGraph(nodes, targets), Elements(comp)) && Cyclic(LoadedGraph(nodes, targets), Elements(comp))
  {
  }

  lemma LevelKeys(g: Edges, members: set<Label>, t: Tree, n: nat, queue: seq<Label>, nxt: seq<Label>, i: nat)
    requires Level(g, members, t, n, queue, nxt, i)
    ensures t.parent.Keys <= members
  {
  }
}
