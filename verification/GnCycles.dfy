/** Graph.cycles: the dependency cycles gn gen would refuse. */
module GnCycles {
  import opened Digraph
  import opened GnTarjan
  import opened GnTargets
  import Text
  import opened Finite

  /** The deps of t that are loaded targets, public_deps first. */
  function Succ(known: set<Label>, t: Target): seq<Label> {
    KeepKnown(t.publicDeps + t.deps + t.dataDeps, known)
  }

  function KeepKnown(ds: seq<Label>, known: set<Label>): (r: seq<Label>)
    ensures forall d :: d in r <==> d in ds && d in known
  {
    if ds == [] then []
    else (if ds[0] in known then [ds[0]] else []) + KeepKnown(ds[1..], known)
  }

  /** The graph of the loaded targets over deps, public_deps and data_deps. */
  function LoadedGraph(nodes: seq<Label>, targets: map<Label, Target>): (g: Edges)
    requires forall lab :: lab in nodes ==> lab in targets
    ensures Closed(g)
  {
    var known := set x | x in nodes;
    map lab | lab in known :: Succ(known, targets[lab])
  }

  /** A target being expanded and how many of its edges have been read. */
  datatype Frame = Frame(node: Label, pos: nat)

  // ----- the work path and the stack are the ordered form of the search state

  ghost predicate Rising(index: map<Label, nat>, xs: seq<Label>) {
    forall i, j :: 0 <= i < j < |xs| ==> Num(index, xs[i]) < Num(index, xs[j])
  }

  ghost function Nodes(work: seq<Frame>): (xs: seq<Label>)
    ensures |xs| == |work| && forall i :: 0 <= i < |xs| ==> xs[i] == work[i].node
  {
    seq(|work|, i requires 0 <= i < |work| => work[i].node)
  }

  /** What frame f has read. */
  ghost predicate FrameRead(g: Edges, s: Search, f: Frame) {
    && f.node in g && f.pos <= |g[f.node]|
    && SetAt(s.read, f.node) == Elements(g[f.node][..f.pos])
  }

  ghost predicate Lined(g: Edges, s: Search, work: seq<Frame>, stack: seq<Label>) {
    && s.path == Elements(Nodes(work))
    && Rising(s.index, Nodes(work))
    && s.on == Elements(stack)
    && Rising(s.index, stack)
    && (forall i :: 0 <= i < |work| ==> FrameRead(g, s, work[i]))
  }

  ghost function Unread(g: Edges, work: seq<Frame>): nat {
    if work == [] then 0
    else
      var f := work[|work| - 1];
      Unread(g, work[..|work| - 1]) + if f.node in g && f.pos <= |g[f.node]| then |g[f.node]| - f.pos else 0
  }

  lemma RisingExtends(index: map<Label, nat>, xs: seq<Label>, w: Label, n: nat)
    requires Rising(index, xs) && w !in index
    requires forall x :: x in xs ==> x in index && Num(index, x) < n
    ensures Rising(index[w := n], xs + [w])
  {
    forall i, j | 0 <= i < j < |xs + [w]|
      ensures Num(index[w := n], (xs + [w])[i]) < Num(index[w := n], (xs + [w])[j])
    {
      assert xs[i] in xs;
      if j < |xs| { assert xs[j] in xs; }
    }
  }

  lemma LinedEnter(g: Edges, s: Search, work: seq<Frame>, stack: seq<Label>, w: Label)
    requires Shape(g, s) && Lined(g, s, work, stack) && w in g && w !in s.index
    ensures Lined(g, Enter(s, w), work + [Frame(w, 0)], stack + [w])
  {
    var t := Enter(s, w);
    assert Nodes(work + [Frame(w, 0)]) == Nodes(work) + [w];
    RisingExtends(s.index, Nodes(work), w, s.next);
    RisingExtends(s.index, stack, w, s.next);
    forall i | 0 <= i < |work| + 1 ensures FrameRead(g, t, (work + [Frame(w, 0)])[i]) {
      if i < |work| {
        assert FrameRead(g, s, work[i]);
        assert work[i].node in Nodes(work);
      }
    }
  }

  /** The last frame is the innermost open target. */
  lemma LinedTop(g: Edges, s: Search, work: seq<Frame>, stack: seq<Label>)
    requires Lined(g, s, work, stack) && work != []
    ensures IsTop(s, work[|work| - 1].node)
    ensures |work| > 1 ==> IsTop(Close(s, work[|work| - 1].node), work[|work| - 2].node)
  {
    var xs, n := Nodes(work), |work|;
    assert xs[n - 1] in xs;
    forall u | u in s.path ensures Num(s.index, u) <= Num(s.index, xs[n - 1]) {
      var i :| 0 <= i < n && xs[i] == u;
    }
    if n > 1 {
      assert xs[n - 2] in xs;
      forall u | u in s.path && u != xs[n - 1] ensures Num(s.index, u) <= Num(s.index, xs[n - 2]) {
        var i :| 0 <= i < n && xs[i] == u;
      }
    }
  }

  /** Frame k reads its next edge. */
  lemma LinedMark(g: Edges, s: Search, work: seq<Frame>, stack: seq<Label>, k: nat)
    requires Lined(g, s, work, stack) && k < |work| && work[k].node in s.read
    requires work[k].node in g && work[k].pos < |g[work[k].node]|
    ensures Lined(g, Mark(s, work[k].node, g[work[k].node][work[k].pos]),
                  work[k := Frame(work[k].node, work[k].pos + 1)], stack)
  {
    var v, pos := work[k].node, work[k].pos;
    var next := work[k := Frame(v, pos + 1)];
    var t := Mark(s, v, g[v][pos]);
    assert Nodes(next) == Nodes(work);
    assert FrameRead(g, s, work[k]);
    assert g[v][..pos + 1] == g[v][..pos] + [g[v][pos]];
    forall i | 0 <= i < |work| ensures FrameRead(g, t, next[i]) {
      assert FrameRead(g, s, work[i]);
      assert Nodes(work)[i] == work[i].node && Nodes(work)[k] == v;
    }
  }

  lemma LinedClose(g: Edges, s: Search, work: seq<Frame>, stack: seq<Label>)
    requires Lined(g, s, work, stack) && work != []
    ensures Lined(g, Close(s, work[|work| - 1].node), work[..|work| - 1], stack)
  {
    var front, v := work[..|work| - 1], work[|work| - 1].node;
    var xs := Nodes(work);
    assert Nodes(front) == xs[..|work| - 1];
    assert xs == Nodes(front) + [v];
    forall x | x in Nodes(front) ensures x != v {
      var i :| 0 <= i < |front| && Nodes(front)[i] == x;
      assert Num(s.index, xs[i]) < Num(s.index, xs[|work| - 1]);
    }
    forall i | 0 <= i < |front| ensures FrameRead(g, Close(s, v), front[i]) {
      assert FrameRead(g, s, work[i]);
    }
  }

  /** Cutting the stack at v takes off what lies above v. */
  lemma CutStack(s: Search, stack: seq<Label>, k: nat)
    requires s.on == Elements(stack) && Rising(s.index, stack) && k < |stack|
    ensures Elements(stack[k..]) == Above(s, stack[k])
    ensures Elements(stack[..k]) == s.on - Above(s, stack[k])
  {
    var v := stack[k];
    assert stack == stack[..k] + stack[k..];
    forall x | x in stack[..k] ensures Num(s.index, x) < Num(s.index, v) {
      var i :| 0 <= i < k && stack[i] == x;
    }
    forall x | x in stack[k..] ensures Num(s.index, v) <= Num(s.index, x) {
      var i :| 0 <= i < |stack[k..]| && stack[k..][i] == x;
      assert stack[k + i] == x;
    }
  }

  lemma LinedSettle(g: Edges, s: Search, work: seq<Frame>, stack: seq<Label>, k: nat)
    requires Lined(g, s, work, stack) && work != []
    requires k < |stack| && stack[k] == work[|work| - 1].node
    ensures Lined(g, Settle(s, stack[k]), work[..|work| - 1], stack[..k])
  {
    LinedClose(g, s, work, stack);
    CutStack(s, stack, k);
    var front := work[..|work| - 1];
    forall i | 0 <= i < |front| ensures FrameRead(g, Settle(s, stack[k]), front[i]) {
      assert FrameRead(g, Close(s, stack[k]), front[i]);
    }
  }

  /** w is what the next unread edge of frame f leads to. */
  predicate ReadsNext(g: Edges, f: Frame, w: Label) {
    f.node in g && f.pos < |g[f.node]| && g[f.node][f.pos] == w
  }

  ghost function Advance(work: seq<Frame>): seq<Frame>
    requires work != []
  {
    work[..|work| - 1] + [Frame(work[|work| - 1].node, work[|work| - 1].pos + 1)]
  }

  lemma TopFacts(g: Edges, s: Search, work: seq<Frame>, stack: seq<Label>)
    requires Inv(g, s) && Lined(g, s, work, stack) && work != []
    ensures var v := work[|work| - 1].node;
            v in s.path && v in s.read && v in s.index && v in g && v in s.on && IsTop(s, v)
            && Num(s.low, v) <= Num(s.index, v) < s.next
  {
    var v := work[|work| - 1].node;
    LinedTop(g, s, work, stack);
    assert LowReached(g, s, v);
  }

  lemma AdvanceKeeps(g: Edges, s: Search, work: seq<Frame>, stack: seq<Label>, w: Label)
    requires Inv(g, s) && Lined(g, s, work, stack) && work != [] && ReadsNext(g, work[|work| - 1], w)
    requires w in s.index && (w in s.on ==> Num(s.low, work[|work| - 1].node) <= Num(s.index, w))
    ensures Inv(g, Mark(s, work[|work| - 1].node, w)) && Lined(g, Mark(s, work[|work| - 1].node, w), Advance(work), stack)
    ensures Mark(s, work[|work| - 1].node, w).Settled() == s.Settled()
  {
    hide Inv, Lined, IsTop;
    var v, n := work[|work| - 1].node, |work|;
    TopFacts(g, s, work, stack);
    MarkKeeps(g, s, v, w);
    LinedMark(g, s, work, stack, n - 1);
    assert work[n - 1 := Frame(v, work[n - 1].pos + 1)] == Advance(work);
  }

  /** A root is opened. */
  lemma OpenRootKeeps(g: Edges, s: Search, stack: seq<Label>, w: Label)
    requires Inv(g, s) && Lined(g, s, [], stack) && w in g && w !in s.index
    ensures Inv(g, Enter(s, w)) && Lined(g, Enter(s, w), [Frame(w, 0)], stack + [w])
    ensures Enter(s, w).Settled() == s.Settled()
  {
    EnterKeeps(g, s, w);
    LinedEnter(g, s, [], stack, w);
    assert [] + [Frame(w, 0)] == [Frame(w, 0)];
  }

  lemma CanEnterNext(g: Edges, s: Search, work: seq<Frame>, stack: seq<Label>, w: Label)
    requires Inv(g, s) && Lined(g, s, work, stack) && work != [] && ReadsNext(g, work[|work| - 1], w)
    requires w !in s.index
    ensures CanEnter(g, s, w) && Shape(g, s) && Enter(s, w).Settled() == s.Settled()
  {
    TopFacts(g, s, work, stack);
    assert Edge(g, work[|work| - 1].node, w);
  }

  /** The edge read next leads to a target not seen before. */
  lemma OpenNextKeeps(g: Edges, s: Search, work: seq<Frame>, stack: seq<Label>, w: Label)
    requires Inv(g, s) && Lined(g, s, work, stack) && work != [] && ReadsNext(g, work[|work| - 1], w)
    requires w !in s.index
    ensures var t := Mark(Enter(s, w), work[|work| - 1].node, w);
            Inv(g, t) && t.Settled() == s.Settled() && Lined(g, t, Advance(work) + [Frame(w, 0)], stack + [w])
  {
    hide Inv, Lined, IsTop, Shape, CanEnter;
    var v, n := work[|work| - 1].node, |work|;
    var t, next := Enter(s, w), work + [Frame(w, 0)];
    TopFacts(g, s, work, stack);
    CanEnterNext(g, s, work, stack, w);
    EnterKeeps(g, s, w);
    LinedEnter(g, s, work, stack, w);
    MarkKeeps(g, t, v, w);
    LinedMark(g, t, next, stack + [w], n - 1);
    assert next[n - 1 := Frame(v, work[n - 1].pos + 1)] == Advance(work) + [Frame(w, 0)];
  }

  ghost function LowerTo(s: Search, v: Label, w: Label): Search
    requires v in s.low
  {
    if w in s.on then Lower(s, v, Num(s.index, w)) else s
  }

  lemma LowerToKeeps(g: Edges, s: Search, work: seq<Frame>, stack: seq<Label>, w: Label)
    requires Inv(g, s) && Lined(g, s, work, stack) && work != [] && ReadsNext(g, work[|work| - 1], w)
    requires w in s.index && work[|work| - 1].node in s.low
    ensures var v := work[|work| - 1].node; var t := LowerTo(s, v, w);
            Inv(g, t) && Lined(g, t, work, stack) && t.Settled() == s.Settled()
            && t.index == s.index && t.on == s.on && (w in s.on ==> Num(t.low, v) <= Num(s.index, w))
  {
    var v := work[|work| - 1].node;
    TopFacts(g, s, work, stack);
    if w in s.on {
      ReachEdge(g, v, w);
      LowerKeeps(g, s, v, w);
    }
    LinedSame(g, s, LowerTo(s, v, w), work, stack);
  }

  /** low plays no part in how the search state is laid out. */
  lemma LinedSame(g: Edges, s: Search, t: Search, work: seq<Frame>, stack: seq<Label>)
    requires Lined(g, s, work, stack) && t == s.(low := t.low)
    ensures Lined(g, t, work, stack)
  {
    forall i | 0 <= i < |work| ensures FrameRead(g, t, work[i]) {
      assert FrameRead(g, s, work[i]);
    }
  }

  /** The edge read next leads to a target seen before. */
  lemma SeenKeeps(g: Edges, s: Search, work: seq<Frame>, stack: seq<Label>, w: Label)
    requires Inv(g, s) && Lined(g, s, work, stack) && work != [] && ReadsNext(g, work[|work| - 1], w)
    requires w in s.index
    ensures work[|work| - 1].node in s.low
    ensures var v := work[|work| - 1].node; var t := Mark(LowerTo(s, v, w), v, w);
            Inv(g, t) && t.Settled() == s.Settled() && Lined(g, t, Advance(work), stack)
  {
    hide Inv, Lined, IsTop;
    TopInLow(g, s, work, stack);
    LowerToKeeps(g, s, work, stack, w);
    AdvanceKeeps(g, LowerTo(s, work[|work| - 1].node, w), work, stack, w);
  }

  lemma TopInLow(g: Edges, s: Search, work: seq<Frame>, stack: seq<Label>)
    requires Inv(g, s) && Lined(g, s, work, stack) && work != []
    ensures work[|work| - 1].node in s.low && work[|work| - 1].node in s.index
    ensures |work| > 1 ==> work[|work| - 2].node in s.low && work[|work| - 2].node != work[|work| - 1].node
  {
    TopFacts(g, s, work, stack);
    if |work| > 1 {
      var xs := Nodes(work);
      assert xs[|work| - 2] in xs;
      assert Num(s.index, xs[|work| - 2]) < Num(s.index, xs[|work| - 1]);
    }
  }

  /** The last frame has read all its edges. */
  ghost predicate Exhausted(g: Edges, work: seq<Frame>) {
    work != [] && var f := work[|work| - 1]; f.node in g && f.pos == |g[f.node]|
  }

  lemma ExhaustedRead(g: Edges, s: Search, work: seq<Frame>, stack: seq<Label>)
    requires Lined(g, s, work, stack) && Exhausted(g, work)
    ensures SetAt(s.read, work[|work| - 1].node) == Out(g, work[|work| - 1].node)
  {
    var f := work[|work| - 1];
    assert FrameRead(g, s, f);
    assert g[f.node][..f.pos] == g[f.node];
  }

  /** The target that opened v takes over what v has reached. */
  ghost function Inherit(s: Search, u: Label, v: Label): Search
    requires u in s.low
  {
    Lower(s, u, Num(s.low, v))
  }

  /** The stack member whose index is low of v. */
  lemma LowWitness(g: Edges, s: Search, v: Label) returns (y: Label)
    requires Inv(g, s) && v in s.path
    ensures y in s.on && Num(s.index, y) == Num(s.low, v) && Reach(g, v, y)
  {
    assert LowReached(g, s, v);
    y :| y in s.on && Num(s.index, y) == Num(s.low, v) && Reach(g, v, y);
  }

  lemma AnchorWitness(g: Edges, s: Search, x: Label) returns (a: Label)
    requires Inv(g, s) && x in s.on
    ensures a in s.path && Num(s.index, a) <= Num(s.index, x) && Reach(g, x, a)
  {
    assert Anchored(g, s, x);
    a :| a in s.path && Num(s.index, a) <= Num(s.index, x) && Reach(g, x, a);
  }

  lemma ParentFacts(g: Edges, s: Search, work: seq<Frame>, stack: seq<Label>)
    requires Inv(g, s) && Lined(g, s, work, stack) && |work| > 1
    ensures work[|work| - 2].node in s.path && Reach(g, work[|work| - 2].node, work[|work| - 1].node)
  {
    var xs := Nodes(work);
    assert xs[|work| - 2] in xs && xs[|work| - 1] in xs;
    assert Num(s.index, xs[|work| - 2]) < Num(s.index, xs[|work| - 1]);
  }

  lemma InheritKeeps(g: Edges, s: Search, work: seq<Frame>, stack: seq<Label>)
    requires Inv(g, s) && Lined(g, s, work, stack) && |work| > 1
    requires work[|work| - 2].node in s.low
    ensures var t := Inherit(s, work[|work| - 2].node, work[|work| - 1].node);
            Inv(g, t) && Lined(g, t, work, stack) && t.Settled() == s.Settled()
  {
    hide Inv, Lined, IsTop, Reach;
    var v, u := work[|work| - 1].node, work[|work| - 2].node;
    TopFacts(g, s, work, stack);
    ParentFacts(g, s, work, stack);
    var y := LowWitness(g, s, v);
    ReachTransitive(g, u, v, y);
    LowerKeeps(g, s, u, y);
    LinedSame(g, s, Lower(s, u, Num(s.low, v)), work, stack);
  }

  /** A target that reaches below itself was opened by another. */
  lemma LowBelow(g: Edges, s: Search, work: seq<Frame>, stack: seq<Label>)
    requires Inv(g, s) && Lined(g, s, work, stack) && work != []
    ensures Num(s.low, work[|work| - 1].node) != Num(s.index, work[|work| - 1].node) ==> |work| > 1
  {
    hide Inv, IsTop, Reach, FrameRead;
    var v := work[|work| - 1].node;
    TopFacts(g, s, work, stack);
    var y := LowWitness(g, s, v);
    var a := AnchorWitness(g, s, y);
    if |work| == 1 {
      assert Nodes(work) == [v];
      assert a == v;
    }
  }

  /** The last frame is done and its target stays on the stack. */
  lemma CloseLastKeeps(g: Edges, s: Search, work: seq<Frame>, stack: seq<Label>)
    requires Inv(g, s) && Lined(g, s, work, stack) && Exhausted(g, work) && |work| > 1
    requires var v := work[|work| - 1].node; Num(s.low, v) != Num(s.index, v)
    requires Num(s.low, work[|work| - 2].node) <= Num(s.low, work[|work| - 1].node)
    ensures var t := Close(s, work[|work| - 1].node);
            Inv(g, t) && Lined(g, t, work[..|work| - 1], stack) && t.Settled() == s.Settled()
  {
    hide Inv;
    var v, u := work[|work| - 1].node, work[|work| - 2].node;
    TopFacts(g, s, work, stack);
    LinedTop(g, s, work, stack);
    ExhaustedRead(g, s, work, stack);
    CloseKeeps(g, s, v, u);
    LinedClose(g, s, work, stack);
  }

  /** The last frame is done and what is above its target is a component. */
  lemma SettleLastKeeps(g: Edges, s: Search, work: seq<Frame>, stack: seq<Label>, k: nat)
    requires Inv(g, s) && Lined(g, s, work, stack) && Exhausted(g, work)
    requires k < |stack| && stack[k] == work[|work| - 1].node
    requires var v := work[|work| - 1].node; Num(s.low, v) == Num(s.index, v)
    ensures var t := Settle(s, stack[k]);
            Inv(g, t) && Lined(g, t, work[..|work| - 1], stack[..k])
            && t.Settled() == s.Settled() + Elements(stack[k..]) && t.on == s.on - Elements(stack[k..])
    ensures IsComponent(g, Elements(stack[k..])) && Elements(stack[k..]) !! s.Settled()
  {
    hide Inv;
    var v := stack[k];
    TopFacts(g, s, work, stack);
    ExhaustedRead(g, s, work, stack);
    SettleKeeps(g, s, v);
    SettleComponent(g, s, v);
    CutStack(s, stack, k);
    LinedSettle(g, s, work, stack, k);
  }

  /** Where v is on the stack. */
  lemma StackPosition(g: Edges, s: Search, work: seq<Frame>, stack: seq<Label>) returns (k: nat)
    requires Inv(g, s) && Lined(g, s, work, stack) && work != []
    ensures k < |stack| && stack[k] == work[|work| - 1].node
    ensures forall i, j :: 0 <= i < j < |stack| ==> stack[i] != stack[j]
    ensures s.on == Elements(stack) && stack[k] in Elements(stack[k..])
  {
    TopFacts(g, s, work, stack);
    k :| 0 <= k < |stack| && stack[k] == work[|work| - 1].node;
    assert stack[k..][0] == stack[k];
  }

  // ----- what has been reported so far

  /** The labels of a component, in order of their text, each once. */
  ghost predicate Listing(comp: seq<Label>) {
    forall i, j :: 0 <= i < j < |comp| ==>
      comp[i] != comp[j] && Text.AtMost(comp[i].dir + ":" + comp[i].name, comp[j].dir + ":" + comp[j].name)
  }

  ghost predicate ListsCyclic(g: Edges, settled: set<Label>, comp: seq<Label>) {
    Listing(comp) && IsComponent(g, Elements(comp)) && Cyclic(g, Elements(comp)) && Elements(comp) <= settled
  }

  ghost predicate Reported(out: seq<seq<Label>>, c: set<Label>) {
    exists i :: 0 <= i < |out| && Elements(out[i]) == c
  }

  /** out lists each cyclic component inside `settled` once, and nothing else. */
  ghost predicate Reports(g: Edges, settled: set<Label>, out: seq<seq<Label>>) {
    && (forall i :: 0 <= i < |out| ==> ListsCyclic(g, settled, out[i]))
    && (forall i, j :: 0 <= i < j < |out| ==> Elements(out[i]) !! Elements(out[j]))
    && (forall c {:trigger Reported(out, c)} :: IsComponent(g, c) && Cyclic(g, c) && c <= settled ==> Reported(out, c))
  }

  /** Components that meet are the same. */
  lemma ComponentsMeet(g: Edges, c: set<Label>, d: set<Label>, x: Label)
    requires IsComponent(g, c) && IsComponent(g, d) && x in c && x in d
    ensures c == d
  {
  }

  /** Settling a component that is not cyclic leaves the report complete. */
  lemma ReportsStay(g: Edges, settled: set<Label>, out: seq<seq<Label>>, c: set<Label>)
    requires Reports(g, settled, out) && IsComponent(g, c) && !Cyclic(g, c)
    ensures Reports(g, settled + c, out)
  {
    forall d | IsComponent(g, d) && Cyclic(g, d) && d <= settled + c ensures Reported(out, d) {
      if x :| x in d && x in c {
        ComponentsMeet(g, c, d, x);
      } else {
        assert d <= settled;
      }
    }
    forall i | 0 <= i < |out| ensures ListsCyclic(g, settled + c, out[i]) {
      assert ListsCyclic(g, settled, out[i]);
    }
  }

  lemma ReportedMore(out: seq<seq<Label>>, comp: seq<Label>, c: set<Label>)
    requires Reported(out, c) || c == Elements(comp)
    ensures Reported(out + [comp], c)
  {
    if Reported(out, c) {
      var i :| 0 <= i < |out| && Elements(out[i]) == c;
      assert Elements((out + [comp])[i]) == c;
    } else {
      assert Elements((out + [comp])[|out|]) == c;
    }
  }

  /** Settling a cyclic component and reporting it keeps the report complete. */
  lemma ReportsGrow(g: Edges, settled: set<Label>, out: seq<seq<Label>>, c: set<Label>, comp: seq<Label>)
    requires Reports(g, settled, out) && IsComponent(g, c) && Cyclic(g, c) && c !! settled
    requires Listing(comp) && Elements(comp) == c
    ensures Reports(g, settled + c, out + [comp])
  {
    var next := out + [comp];
    forall d | IsComponent(g, d) && Cyclic(g, d) && d <= settled + c ensures Reported(next, d) {
      if x :| x in d && x in c {
        ComponentsMeet(g, c, d, x);
      } else {
        assert d <= settled;
        assert Reported(out, d);
      }
      ReportedMore(out, comp, d);
    }
    forall i | 0 <= i < |next| ensures ListsCyclic(g, settled + c, next[i]) {
      assert i < |out| ==> ListsCyclic(g, settled, out[i]);
    }
    forall i, j | 0 <= i < j < |next| ensures Elements(next[i]) !! Elements(next[j]) {
      assert ListsCyclic(g, settled, out[i]);
    }
  }

  // ----- the search

  /** Takes the stack down to v, as the loop that collects a component does. */
  method PopComponent(stack: seq<Label>, on: set<Label>, v: Label, ghost k: nat)
    returns (rest: seq<Label>, left: set<Label>, comp: seq<Label>)
    requires k < |stack| && stack[k] == v
    requires forall i, j :: 0 <= i < j < |stack| ==> stack[i] != stack[j]
    requires on == Elements(stack)
    ensures rest == stack[..k] && left == on - Elements(stack[k..])
    ensures Elements(comp) == Elements(stack[k..])
    ensures forall i, j :: 0 <= i < j < |comp| ==> comp[i] != comp[j]
  {
    rest, left, comp := stack, on, [];
    while true
      invariant k < |rest| <= |stack| && rest == stack[..|rest|]
      invariant |comp| == |stack| - |rest|
      invariant forall i :: 0 <= i < |comp| ==> comp[i] == stack[|stack| - 1 - i]
      invariant left == on - Elements(comp)
      decreases |rest|
    {
      var w := rest[|rest| - 1];
      rest := rest[..|rest| - 1];
      left := left - {w};
      comp := comp + [w];
      if w == v { break; }
    }
    assert |rest| == k;
    forall x | x in stack[k..] ensures x in comp {
      var i :| 0 <= i < |stack[k..]| && stack[k..][i] == x;
      assert comp[|stack| - 1 - (k + i)] == x;
    }
    forall x | x in comp ensures x in stack[k..] {
      var i :| 0 <= i < |comp| && comp[i] == x;
      assert stack[k..][|stack| - 1 - i - k] == x;
    }
  }

  /** Sorting a listing of distinct labels keeps them and keeps them distinct. */
  lemma SortedListing(comp: seq<Label>)
    requires forall i, j :: 0 <= i < j < |comp| ==> comp[i] != comp[j]
    ensures Listing(Text.Sorted(comp, LabelText))
    ensures Elements(Text.Sorted(comp, LabelText)) == Elements(comp)
  {
    PermutedDistinct(comp, Text.Sorted(comp, LabelText));
  }

  /** Adds a component that was found to the report if it is cyclic. */
  method Report(g: Edges, ghost settled: set<Label>, out: seq<seq<Label>>, ghost c: set<Label>, comp: seq<Label>, v: Label)
    returns (r: seq<seq<Label>>)
    requires Reports(g, settled, out) && IsComponent(g, c) && c !! settled
    requires Elements(comp) == c && v in c && v in g
    requires forall i, j :: 0 <= i < j < |comp| ==> comp[i] != comp[j]
    ensures Reports(g, settled + c, r)
  {
    hide Reports, Cyclic, IsComponent, Listing;
    CyclicListing(g, c, comp, v);
    if |comp| > 1 || v in g[v] {
      SortedListing(comp);
      ReportsGrow(g, settled, out, c, Text.Sorted(comp, LabelText));
      r := out + [Text.Sorted(comp, LabelText)];
    } else {
      ReportsStay(g, settled, out, c);
      r := out;
    }
  }

  /** The variables of one run of the search; g gives the edges that succ reads. */
  class Run {
    const g: Edges
    var index: map<Label, nat>
    var low: map<Label, nat>
    var on: set<Label>
    var stack: seq<Label>
    var work: seq<Frame>
    var counter: nat
    var out: seq<seq<Label>>
    ghost var s: Search

    ghost predicate Valid()
      reads this
    {
      && s.index == index && s.low == low && s.on == on && s.next == counter
      && Inv(g, s) && Lined(g, s, work, stack) && Reports(g, s.Settled(), out)
    }

    constructor (g: Edges)
      requires Closed(g)
      ensures Valid() && this.g == g && work == [] && index == map[]
    {
      this.g := g;
      index, low, on, stack, work, counter, out := map[], map[], {}, [], [], 0, [];
      s := Search(map[], map[], {}, {}, map[], 0);
    }

    /** A new target: the next index, on the stack, and a frame of its own. */
    method Push(w: Label)
      modifies this
      ensures index == old(index)[w := old(counter)] && low == old(low)[w := old(counter)] && counter == old(counter) + 1
      ensures stack == old(stack) + [w] && on == old(on) + {w} && work == old(work) + [Frame(w, 0)]
      ensures out == old(out) && s == old(s)
    {
      index, low := index[w := counter], low[w := counter];
      counter := counter + 1;
      stack := stack + [w];
      on := on + {w};
      work := work + [Frame(w, 0)];
    }

    method OpenRoot(w: Label)
      requires Valid() && w in g && w !in index && work == []
      modifies this
      ensures Valid() && work != [] && index.Keys == old(index.Keys) + {w}
    {
      hide Inv, Lined, Reports;
      OpenRootKeeps(g, s, stack, w);
      assert [] + [Frame(w, 0)] == [Frame(w, 0)];
      s := Enter(s, w);
      Push(w);
    }

    /** Reads the next edge of the last frame. */
    method ReadEdge() returns (advanced: bool)
      requires Valid() && work != []
      requires var f := work[|work| - 1]; f.node in g && f.pos < |g[f.node]|
      modifies this
      ensures Valid() && work != [] && index.Keys <= g.Keys
      ensures advanced ==> old(index.Keys) < index.Keys
      ensures !advanced ==> index == old(index) && work == Advance(old(work))
    {
      hide Inv, Lined, Reports;
      var v, pos := work[|work| - 1].node, work[|work| - 1].pos;
      var w := g[v][pos];
      advanced := w !in index;
      if advanced {
        OpenNextKeeps(g, s, work, stack, w);
        s := Mark(Enter(s, w), v, w);
        work := work[..|work| - 1] + [Frame(v, pos + 1)];
        Push(w);
      } else {
        SeenKeeps(g, s, work, stack, w);
        s := Mark(LowerTo(s, v, w), v, w);
        work := work[..|work| - 1] + [Frame(v, pos + 1)];
        if w in on {
          low := low[v := if low[v] <= index[w] then low[v] else index[w]];
        }
      }
      IndexInGraph(g, s);
    }
  
    /** Reads on from the last frame until a new target is opened or all its edges are read. */
    method ReadEdges() returns (advanced: bool)
      requires Valid() && work != []
      modifies this
      ensures Valid() && index.Keys <= g.Keys
      ensures advanced ==> work != [] && old(index.Keys) < index.Keys
      ensures !advanced ==> Exhausted(g, work) && index == old(index)
      ensures !advanced ==> |work| == |old(work)| && Unread(g, work) <= Unread(g, old(work))
    {
      hide Inv, Lined, Reports;
      advanced := false;
      LastFrame(g, s, work, stack);
      while !advanced && work[|work| - 1].pos < |g[work[|work| - 1].node]|
        invariant Valid() && work != [] && index.Keys <= g.Keys
        invariant advanced ==> old(index.Keys) < index.Keys
        invariant !advanced ==> index == old(index) && |work| == |old(work)| && Unread(g, work) <= Unread(g, old(work))
        invariant var f := work[|work| - 1]; f.node in g && f.pos <= |g[f.node]|
        decreases !advanced, Unread(g, work)
      {
        UnreadAdvance(g, work);
        advanced := ReadEdge();
        LastFrame(g, s, work, stack);
      }
    }

    /** Hands what the last target has reached to the one that opened it. */
    method PassUp()
      requires Valid() && |work| > 1
      modifies this`low, this`s
      ensures Valid() && s.Settled() == old(s.Settled())
      ensures low.Keys == old(low.Keys) && work[|work| - 1].node in low && work[|work| - 2].node in low
      ensures low[work[|work| - 1].node] == old(Num(low, work[|work| - 1].node))
      ensures low[work[|work| - 2].node] <= low[work[|work| - 1].node]
    {
      hide Inv, Lined, Reports;
      TopInLow(g, s, work, stack);
      InheritKeeps(g, s, work, stack);
      var v, u := work[|work| - 1].node, work[|work| - 2].node;
      s := Inherit(s, u, v);
      low := low[u := if low[u] <= low[v] then low[u] else low[v]];
    }

    /** Takes the component of the last target off the stack and reports it if it is cyclic. */
    method Collect()
      requires Valid() && Exhausted(g, work)
      requires Num(low, work[|work| - 1].node) == Num(index, work[|work| - 1].node)
      modifies this
      ensures Valid() && index == old(index) && work == old(work)[..|old(work)| - 1]
    {
      hide Inv, Lined, Reports, IsComponent, Elements, FrameRead, Above;
      var v := work[|work| - 1].node;
      ghost var k := StackPosition(g, s, work, stack);
      ghost var c, settled := Elements(stack[k..]), s.Settled();
      SettleLastKeeps(g, s, work, stack, k);
      s := Settle(s, v);
      work := work[..|work| - 1];
      var comp;
      stack, on, comp := PopComponent(stack, on, v, k);
      out := Report(g, settled, out, c, comp, v);
    }

    /** Closes the last frame; if its target reaches nothing below it, what is above
        it on the stack is a component. */
    method Retreat()
      requires Valid() && Exhausted(g, work)
      modifies this
      ensures Valid() && index == old(index) && work == old(work)[..|old(work)| - 1]
    {
      hide Inv, Lined, Reports;
      var v := work[|work| - 1].node;
      LowBelow(g, s, work, stack);
      TopInLow(g, s, work, stack);
      if |work| > 1 { PassUp(); }
      if low[v] == index[v] {
        Collect();
      } else {
        CloseLastKeeps(g, s, work, stack);
        s := Close(s, v);
        work := work[..|work| - 1];
      }
    }

    /** The search from one root. */
    method Explore(root: Label)
      requires Valid() && root in g && root !in index && work == []
      modifies this
      ensures Valid() && work == [] && root in index && old(index.Keys) <= index.Keys
    {
      hide Inv, Lined, Reports;
      OpenRoot(root);
      IndexInGraph(g, s);
      while work != []
        invariant Valid() && old(index.Keys) + {root} <= index.Keys <= g.Keys
        decreases |g.Keys - index.Keys|, Unread(g, work), |work|
      {
        ghost var seen, before := index.Keys, work;
        var advanced := ReadEdges();
        if advanced {
          FewerUnseen(g.Keys, seen, index.Keys);
        } else {
          ghost var all := work;
          Retreat();
          UnreadFront(g, all);
        }
      }
    }
  }

  lemma IndexInGraph(g: Edges, s: Search)
    requires Inv(g, s)
    ensures s.index.Keys <= g.Keys
  {
  }

  lemma LastFrame(g: Edges, s: Search, work: seq<Frame>, stack: seq<Label>)
    requires Inv(g, s) && Lined(g, s, work, stack) && work != []
    ensures var f := work[|work| - 1]; f.node in g && f.pos <= |g[f.node]|
    ensures s.index.Keys <= g.Keys
  {
    assert FrameRead(g, s, work[|work| - 1]);
  }

  lemma UnreadAdvance(g: Edges, work: seq<Frame>)
    requires work != [] && var f := work[|work| - 1]; f.node in g && f.pos < |g[f.node]|
    ensures Unread(g, Advance(work)) == Unread(g, work) - 1
  {
    assert Advance(work)[..|work| - 1] == work[..|work| - 1];
  }

  /** A component found as a list of distinct labels, v among them, is cyclic just
      when it has two members or v depends on itself. */
  lemma CyclicListing(g: Edges, c: set<Label>, comp: seq<Label>, v: Label)
    requires Elements(comp) == c && v in c && v in g
    requires forall i, j :: 0 <= i < j < |comp| ==> comp[i] != comp[j]
    ensures Cyclic(g, c) <==> |comp| > 1 || v in g[v]
  {
    DistinctSize(comp);
    if |comp| == 1 {
      assert comp[0] == v;
    }
  }

  lemma {:induction false} DistinctSize(comp: seq<Label>)
    requires forall i, j :: 0 <= i < j < |comp| ==> comp[i] != comp[j]
    ensures |Elements(comp)| == |comp|
  {
    if comp != [] {
      var front := comp[..|comp| - 1];
      DistinctSize(front);
      assert Elements(comp) == Elements(front) + {comp[|comp| - 1]};
    }
  }

  /** The strongly connected components of the loaded targets that hold a cycle,
      each once, each as its labels in order. */
  method Components(nodes: seq<Label>, targets: map<Label, Target>) returns (out: seq<seq<Label>>)
    requires forall lab :: lab in nodes ==> lab in targets
    ensures Reports(LoadedGraph(nodes, targets), Elements(nodes), out)
  {
    hide Inv, Lined, Reports;
    var g := LoadedGraph(nodes, targets);
    var run := new Run(g);
    for r := 0 to |nodes|
      invariant run.Valid() && run.work == [] && run.g == g && fresh(run)
      invariant Elements(nodes[..r]) <= run.index.Keys
    {
      assert nodes[..r + 1] == nodes[..r] + [nodes[r]];
      if nodes[r] !in run.index {
        run.Explore(nodes[r]);
      }
    }
    assert nodes[..|nodes|] == nodes;
    AllSettled(g, run.s, run.stack);
    IndexInGraph(g, run.s);
    assert run.s.Settled() == Elements(nodes);
    return run.out;
  }

  lemma UnreadFront(g: Edges, work: seq<Frame>)
    requires work != []
    ensures Unread(g, work[..|work| - 1]) <= Unread(g, work)
  {
  }

  /** With no frame left, everything seen is settled. */
  lemma AllSettled(g: Edges, s: Search, stack: seq<Label>)
    requires Inv(g, s) && Lined(g, s, [], stack)
    ensures s.Settled() == s.index.Keys
  {
    assert Nodes([]) == [];
    if x :| x in s.on {
      SomethingOpen(g, s, x);
    }
  }

  lemma SomethingOpen(g: Edges, s: Search, x: Label)
    requires Inv(g, s) && x in s.on
    ensures s.path != {}
  {
    assert Anchored(g, s, x);
  }

  // ----- what the report says

  /** gn gen refuses a loop of dependencies: the report is empty just when the graph
      has no cycle at all. */
  lemma EmptyIffAcyclic(g: Edges, out: seq<seq<Label>>)
    requires Closed(g) && Reports(g, g.Keys, out)
    ensures out == [] <==> forall p :: !IsCycle(g, p)
  {
    if p :| IsCycle(g, p) {
      CycleInComponent(g, p);
      assert Reported(out, ComponentOf(g, p[0]));
    }
    if out != [] {
      assert ListsCyclic(g, g.Keys, out[0]);
      var p := ComponentHasCycle(g, Elements(out[0]), out[0][0]);
    }
  }

  /** Two targets are listed together just when some cycle passes through both. */
  lemma TogetherIffOnCycle(g: Edges, out: seq<seq<Label>>, x: Label, y: Label)
    requires Closed(g) && Reports(g, g.Keys, out)
    ensures (exists i :: 0 <= i < |out| && x in out[i] && y in out[i])
       <==> (exists p :: IsCycle(g, p) && p[0] == x && y in p)
  {
    if i :| 0 <= i < |out| && x in out[i] && y in out[i] {
      assert ListsCyclic(g, g.Keys, out[i]);
      if x == y {
        var p := ComponentHasCycle(g, Elements(out[i]), x);
        assert y in p;
      } else {
        assert x in Elements(out[i]) && y in Elements(out[i]);
        assert Reach(g, x, y) && Reach(g, y, x);
        var there :| WalkFromTo(g, there, x, y);
        var back :| WalkFromTo(g, back, y, x);
        var p := there + back[1..];
        assert p[|there| - 1] == y;
        assert IsCycle(g, p) && p[0] == x && y in p;
      }
    }
    if p :| IsCycle(g, p) && p[0] == x && y in p {
      CycleInComponent(g, p);
      assert Reported(out, ComponentOf(g, x));
      var i :| 0 <= i < |out| && Elements(out[i]) == ComponentOf(g, x);
      assert x in Elements(p) && y in Elements(p);
      assert x in Elements(out[i]) && y in Elements(out[i]);
    }
  }
}
