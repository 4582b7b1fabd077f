/** Finite directed graphs of labelled targets: walks, reachability, components. */
module Digraph {
  import opened Finite

  /** A target label //dir:name. */
  datatype Label = Label(dir: string, name: string)

  function LabelText(lab: Label): string {
    lab.dir + ":" + lab.name
  }

  /** Every node with its successors, in the order they are listed. */
  type Edges = map<Label, seq<Label>>

  ghost predicate Edge(g: Edges, x: Label, y: Label) {
    x in g && y in g[x]
  }

  /** No edge leaves the graph. */
  ghost predicate Closed(g: Edges) {
    forall x, y :: Edge(g, x, y) ==> y in g
  }

  ghost predicate IsWalk(g: Edges, p: seq<Label>) {
    && p != []
    && forall i :: 0 <= i < |p| - 1 ==> Edge(g, p[i], p[i + 1])
  }

  ghost predicate WalkFromTo(g: Edges, p: seq<Label>, x: Label, y: Label) {
    IsWalk(g, p) && p[0] == x && p[|p| - 1] == y
  }

  ghost predicate Reach(g: Edges, x: Label, y: Label) {
    exists p :: WalkFromTo(g, p, x, y)
  }

  lemma ReachSelf(g: Edges, x: Label)
    ensures Reach(g, x, x)
  {
    assert WalkFromTo(g, [x], x, x);
  }

  lemma ReachEdge(g: Edges, x: Label, y: Label)
    requires Edge(g, x, y)
    ensures Reach(g, x, y)
  {
    assert WalkFromTo(g, [x, y], x, y);
  }

  lemma ReachTransitive(g: Edges, x: Label, y: Label, z: Label)
    requires Reach(g, x, y) && Reach(g, y, z)
    ensures Reach(g, x, z)
  {
    var p :| WalkFromTo(g, p, x, y);
    var q :| WalkFromTo(g, q, y, z);
    assert WalkFromTo(g, p + q[1..], x, z);
  }

  /** A set that no edge leaves keeps every walk that starts in it. */
  lemma {:induction false} WalkStaysIn(g: Edges, s: set<Label>, p: seq<Label>)
    requires forall x, y :: x in s && Edge(g, x, y) ==> y in s
    requires IsWalk(g, p) && p[0] in s
    ensures forall i :: 0 <= i < |p| ==> p[i] in s
  {
    if |p| > 1 {
      assert Edge(g, p[0], p[1]);
      WalkStaysIn(g, s, p[1..]);
    }
  }

  lemma ReachStaysIn(g: Edges, s: set<Label>, x: Label, y: Label)
    requires forall u, v :: u in s && Edge(g, u, v) ==> v in s
    requires x in s && Reach(g, x, y)
    ensures y in s
  {
    var p :| WalkFromTo(g, p, x, y);
    WalkStaysIn(g, s, p);
  }

  /** A strongly connected component: every member reaches every other, and
      nothing outside both reaches and is reached from a member. */
  ghost predicate IsComponent(g: Edges, c: set<Label>) {
    && c != {}
    && c <= g.Keys
    && (forall x, y :: x in c && y in c ==> Reach(g, x, y))
    && (forall x, y :: x in c && Reach(g, x, y) && Reach(g, y, x) ==> y in c)
  }

  /** The component holds a cycle: two members or more, or a self edge. */
  ghost predicate Cyclic(g: Edges, c: set<Label>) {
    |c| > 1 || exists x :: x in c && Edge(g, x, x)
  }

  /** A closed walk of at least one edge. */
  ghost predicate IsCycle(g: Edges, p: seq<Label>) {
    |p| > 1 && IsWalk(g, p) && p[0] == p[|p| - 1]
  }

  /** Any part of a walk is a walk. */
  lemma WalkPart(g: Edges, p: seq<Label>, i: nat, j: nat)
    requires IsWalk(g, p) && i <= j < |p|
    ensures WalkFromTo(g, p[i..j + 1], p[i], p[j])
  {
  }

  /** The component of a node. */
  ghost function ComponentOf(g: Edges, x: Label): set<Label> {
    set y | y in g && Reach(g, x, y) && Reach(g, y, x)
  }

  lemma ComponentOfIsComponent(g: Edges, x: Label)
    requires Closed(g) && x in g
    ensures x in ComponentOf(g, x) && IsComponent(g, ComponentOf(g, x))
  {
    var c := ComponentOf(g, x);
    ReachSelf(g, x);
    forall a, b | a in c && b in c ensures Reach(g, a, b) {
      ReachTransitive(g, a, x, b);
    }
    forall a, b | a in c && Reach(g, a, b) && Reach(g, b, a) ensures b in c {
      ReachTransitive(g, x, a, b);
      ReachTransitive(g, b, a, x);
      ReachStaysIn(g, g.Keys, x, b);
    }
  }

  /** A cycle lies in one component, and that component is cyclic. */
  lemma CycleInComponent(g: Edges, p: seq<Label>)
    requires Closed(g) && IsCycle(g, p)
    ensures p[0] in g && Elements(p) <= ComponentOf(g, p[0])
    ensures IsComponent(g, ComponentOf(g, p[0])) && Cyclic(g, ComponentOf(g, p[0]))
  {
    var x, c := p[0], ComponentOf(g, p[0]);
    assert Edge(g, p[0], p[1]);
    forall i | 0 <= i < |p| ensures p[i] in c {
      WalkPart(g, p, 0, i);
      WalkPart(g, p, i, |p| - 1);
      ReachStaysIn(g, g.Keys, x, p[i]);
    }
    ComponentOfIsComponent(g, x);
    if p[1] != x {
      assert {x, p[1]} <= c;
      CardinalityOfPair(c, x, p[1]);
    }
  }

  lemma CardinalityOfPair<T>(c: set<T>, x: T, y: T)
    requires x in c && y in c && x != y
    ensures |c| > 1
  {
    assert y in c - {x};
    assert |c - {x}| > 0;
  }

  /** A cyclic component has a cycle through each of its members. */
  lemma ComponentHasCycle(g: Edges, c: set<Label>, x: Label) returns (p: seq<Label>)
    requires IsComponent(g, c) && Cyclic(g, c) && x in c
    ensures IsCycle(g, p) && p[0] == x
  {
    if c == {x} {
      assert |c| == 1;
      p := [x, x];
    } else {
      var y :| y in c && y != x;
      var there :| WalkFromTo(g, there, x, y);
      var back :| WalkFromTo(g, back, y, x);
      p := there + back[1..];
    }
  }
}
