/** The state of the cycle search and what every step of it keeps. The search is
    Tarjan's, with an explicit path of open targets; Search holds what the argument
    is about, the stack and the path as sets ordered by index. */
module GnTarjan {
  import opened Finite
  import opened Digraph

  datatype Search = Search(
    index: map<Label, nat>,       // when each target was first seen
    low: map<Label, nat>,         // the earliest stack member it is known to reach
    on: set<Label>,               // on the stack: seen, component not yet known
    path: set<Label>,             // open: being expanded
    read: map<Label, set<Label>>, // the successors of each that have been read
    next: nat)                    // the next index
  {
    /** Targets whose component is settled. */
    ghost function Settled(): set<Label> {
      index.Keys - on
    }
  }

  ghost function Num(m: map<Label, nat>, x: Label): nat {
    if x in m then m[x] else 0
  }

  ghost function SetAt(m: map<Label, set<Label>>, x: Label): set<Label> {
    if x in m then m[x] else {}
  }

  ghost predicate Tied(index: map<Label, nat>, x: Label, y: Label) {
    Num(index, x) == Num(index, y)
  }

  ghost predicate Shape(g: Edges, s: Search) {
    && Closed(g)
    && s.index.Keys == s.low.Keys == s.read.Keys
    && s.path <= s.on <= s.index.Keys <= g.Keys
    && (forall x :: x in s.index ==> Num(s.index, x) < s.next)
  }

  /** No two open targets have the same index. */
  ghost predicate IndicesDiffer(s: Search) {
    forall x, y {:trigger Tied(s.index, x, y)} :: x in s.path && y in s.path && Tied(s.index, x, y) ==> x == y
  }

  lemma FewerOpenStayApart(s: Search, t: Search)
    requires IndicesDiffer(s) && t.path <= s.path && t.index == s.index
    ensures IndicesDiffer(t)
  {
    forall x, y | x in t.path && y in t.path && Tied(t.index, x, y) ensures x == y {
      assert Tied(s.index, x, y);
    }
  }

  /** The successors of x, as a set. */
  ghost function Out(g: Edges, x: Label): set<Label> {
    if x in g then Elements(g[x]) else {}
  }

  /** Stack members reach the members above them. */
  ghost predicate Up(g: Edges, s: Search)
  {
    forall x, y {:trigger Reach(g, x, y)} :: x in s.on && y in s.on && Num(s.index, x) <= Num(s.index, y) ==> Reach(g, x, y)
  }

  /** x reaches an open target that is at or below it. */
  ghost predicate Anchored(g: Edges, s: Search, x: Label)
  {
    exists v :: v in s.path && Num(s.index, v) <= Num(s.index, x) && Reach(g, x, v)
  }

  ghost predicate Down(g: Edges, s: Search)
  {
    forall x {:trigger Anchored(g, s, x)} :: x in s.on ==> Anchored(g, s, x)
  }

  /** Reading leads to seen targets; all edges of a closed target are read; settled
      targets lead only to settled ones. */
  ghost predicate Explored(g: Edges, s: Search)
  {
    && (forall x :: x in s.index ==> SetAt(s.read, x) <= s.index.Keys)
    && (forall x :: x in s.index && x !in s.path ==> SetAt(s.read, x) == Out(g, x))
    && (forall x, w :: x in s.Settled() && Edge(g, x, w) ==> w in s.Settled())
  }

  /** low of v is the index of a stack member that v reaches, v's own at most. */
  ghost predicate LowReached(g: Edges, s: Search, v: Label)
  {
    && Num(s.low, v) <= Num(s.index, v)
    && exists y :: y in s.on && Num(s.index, y) == Num(s.low, v) && Reach(g, v, y)
  }

  ghost predicate LowsReached(g: Edges, s: Search)
  {
    forall v {:trigger LowReached(g, s, v)} :: v in s.path ==> LowReached(g, s, v)
  }

  /** v is the last open target at or below x on the stack. */
  ghost predicate Owns(index: map<Label, nat>, on: set<Label>, path: set<Label>, v: Label, x: Label) {
    && v in path && x in on && Num(index, v) <= Num(index, x)
    && forall u :: u in path && Num(index, u) <= Num(index, x) ==> Num(index, u) <= Num(index, v)
  }

  /** low of an open target bounds every edge that what it owns has read into the stack. */
  ghost predicate LowsBound(g: Edges, s: Search)
  {
    forall v, x, w {:trigger Owns(s.index, s.on, s.path, v, x), w in SetAt(s.read, x)} ::
      Owns(s.index, s.on, s.path, v, x) && w in SetAt(s.read, x) && w in s.on ==> Num(s.low, v) <= Num(s.index, w)
  }

  ghost predicate Inv(g: Edges, s: Search) {
    Shape(g, s) && IndicesDiffer(s) && Up(g, s) && Down(g, s) && Explored(g, s) && LowsReached(g, s) && LowsBound(g, s)
  }

  /** v is the innermost open target. */
  ghost predicate IsTop(s: Search, v: Label) {
    v in s.path && forall u :: u in s.path ==> Num(s.index, u) <= Num(s.index, v)
  }

  // ----- a target is seen for the first time and opened

  ghost function Enter(s: Search, w: Label): Search {
    Search(s.index[w := s.next], s.low[w := s.next], s.on + {w}, s.path + {w}, s.read[w := {}], s.next + 1)
  }

  /** At a root nothing is open; else the innermost open target leads to w. */
  ghost predicate CanEnter(g: Edges, s: Search, w: Label) {
    && w in g && w !in s.index
    && (s.path != {} ==> exists v :: IsTop(s, v) && Edge(g, v, w))
  }

  lemma EnterShape(g: Edges, s: Search, w: Label)
    requires Shape(g, s) && IndicesDiffer(s) && CanEnter(g, s, w)
    ensures Shape(g, Enter(s, w)) && IndicesDiffer(Enter(s, w))
  {
    var t := Enter(s, w);
    forall x, y | x in t.path && y in t.path && Tied(t.index, x, y) ensures x == y {
      assert Tied(s.index, x, y);
    }
  }

  /** Every stack member reaches the innermost open target. */
  lemma TopReached(g: Edges, s: Search, v: Label, x: Label)
    requires Shape(g, s) && Up(g, s) && Down(g, s) && IsTop(s, v) && x in s.on
    ensures Reach(g, x, v)
  {
    assert Anchored(g, s, x);
    var a :| a in s.path && Num(s.index, a) <= Num(s.index, x) && Reach(g, x, a);
    assert Reach(g, a, v);
    ReachTransitive(g, x, a, v);
  }

  lemma EnterUp(g: Edges, s: Search, w: Label)
    requires Shape(g, s) && Up(g, s) && Down(g, s) && CanEnter(g, s, w) && Shape(g, Enter(s, w))
    ensures Up(g, Enter(s, w))
  {
    var t := Enter(s, w);
    ReachSelf(g, w);
    forall x, y | x in t.on && y in t.on && Num(t.index, x) <= Num(t.index, y) ensures Reach(g, x, y) {
      if x != w == y {
        assert Anchored(g, s, x);
        var v :| IsTop(s, v) && Edge(g, v, w);
        TopReached(g, s, v, x);
        ReachEdge(g, v, w);
        ReachTransitive(g, x, v, w);
      }
    }
  }

  lemma EnterDown(g: Edges, s: Search, w: Label)
    requires Shape(g, s) && Down(g, s) && CanEnter(g, s, w) && Shape(g, Enter(s, w))
    ensures Down(g, Enter(s, w))
  {
    var t := Enter(s, w);
    ReachSelf(g, w);
    forall x | x in t.on ensures Anchored(g, t, x) {
      if x != w {
        assert Anchored(g, s, x);
      }
    }
  }

  lemma EnterLowsReached(g: Edges, s: Search, w: Label)
    requires Shape(g, s) && LowsReached(g, s) && CanEnter(g, s, w) && Shape(g, Enter(s, w))
    ensures LowsReached(g, Enter(s, w))
  {
    var t := Enter(s, w);
    ReachSelf(g, w);
    forall v | v in t.path ensures LowReached(g, t, v) {
      if v != w {
        assert LowReached(g, s, v);
      }
    }
  }

  lemma EnterExplored(g: Edges, s: Search, w: Label)
    requires Shape(g, s) && Explored(g, s) && CanEnter(g, s, w) && Shape(g, Enter(s, w))
    ensures Explored(g, Enter(s, w))
  {
    assert Enter(s, w).Settled() == s.Settled();
  }

  lemma EnterLowsBound(g: Edges, s: Search, w: Label)
    requires Shape(g, s) && Explored(g, s) && LowsBound(g, s) && CanEnter(g, s, w) && Shape(g, Enter(s, w))
    ensures LowsBound(g, Enter(s, w))
  {
    var t := Enter(s, w);
    forall v, x, y | Owns(t.index, t.on, t.path, v, x) && y in SetAt(t.read, x) && y in t.on ensures Num(t.low, v) <= Num(t.index, y) {
      EnterOwns(g, s, w, v, x);
      assert y in SetAt(s.read, x) && y in s.on;
      assert Num(s.low, v) <= Num(s.index, y);
    }
  }

  /** The new target owns nothing but itself, and has read nothing. */
  lemma EnterOwns(g: Edges, s: Search, w: Label, v: Label, x: Label)
    requires Shape(g, s) && CanEnter(g, s, w) && Owns(Enter(s, w).index, Enter(s, w).on, Enter(s, w).path, v, x)
    requires SetAt(Enter(s, w).read, x) != {}
    ensures x != w && v != w && x in s.index && v in s.index && Owns(s.index, s.on, s.path, v, x)
  {
    var t := Enter(s, w);
    assert x != w;
    assert Num(t.index, x) < s.next;
    forall u | u in s.path && Num(s.index, u) <= Num(s.index, x) ensures Num(s.index, u) <= Num(s.index, v) {
      assert Num(t.index, u) == Num(s.index, u);
    }
  }

  lemma EnterKeeps(g: Edges, s: Search, w: Label)
    requires Inv(g, s) && CanEnter(g, s, w)
    ensures Inv(g, Enter(s, w))
  {
    EnterShape(g, s, w);
    EnterUp(g, s, w);
    EnterDown(g, s, w);
    EnterExplored(g, s, w);
    EnterLowsReached(g, s, w);
    EnterLowsBound(g, s, w);
  }

  // ----- low is lowered, an edge is read: index, stack and path stay

  ghost function Lower(s: Search, v: Label, k: nat): Search
  {
    if k < Num(s.low, v) then s.(low := s.low[v := k]) else s
  }

  ghost function Mark(s: Search, v: Label, w: Label): Search
  {
    s.(read := s.read[v := SetAt(s.read, v) + {w}])
  }

  ghost predicate SamePlace(s: Search, t: Search) {
    && t.index == s.index && t.on == s.on && t.path == s.path && t.next == s.next
    && t.low.Keys == t.read.Keys == s.index.Keys
  }

  lemma SamePlaceKeeps(g: Edges, s: Search, t: Search)
    requires Shape(g, s) && Up(g, s) && Down(g, s) && SamePlace(s, t)
    ensures Shape(g, t) && Up(g, t) && Down(g, t)
  {
    assert Shape(g, t);
    forall x | x in t.on ensures Anchored(g, t, x) {
      assert Anchored(g, s, x);
    }
  }

  lemma LowerKeeps(g: Edges, s: Search, v: Label, w: Label)
    requires Inv(g, s) && v in s.path && w in s.on && Reach(g, v, w)
    ensures Inv(g, Lower(s, v, Num(s.index, w)))
  {
    var t := Lower(s, v, Num(s.index, w));
    SamePlaceKeeps(g, s, t);
    FewerOpenStayApart(s, t);
    LowerReached(g, s, v, w);
    assert LowsBound(g, t) by {
      forall u, x, y | Owns(t.index, t.on, t.path, u, x) && y in SetAt(t.read, x) && y in t.on ensures Num(t.low, u) <= Num(t.index, y) {
        assert Owns(s.index, s.on, s.path, u, x);
      }
    }
    assert t.Settled() == s.Settled();
  }

  lemma LowerReached(g: Edges, s: Search, v: Label, w: Label)
    requires Shape(g, s) && LowsReached(g, s) && v in s.path && w in s.on && Reach(g, v, w)
    requires Shape(g, Lower(s, v, Num(s.index, w)))
    ensures LowsReached(g, Lower(s, v, Num(s.index, w)))
  {
    var t := Lower(s, v, Num(s.index, w));
    forall u | u in t.path ensures LowReached(g, t, u) {
      assert LowReached(g, s, u);
    }
  }

  lemma MarkKeeps(g: Edges, s: Search, v: Label, w: Label)
    requires Inv(g, s) && v in s.path && Edge(g, v, w) && w in s.index
    requires w in s.on ==> Num(s.low, v) <= Num(s.index, w)
    ensures Inv(g, Mark(s, v, w))
  {
    SamePlaceKeeps(g, s, Mark(s, v, w));
    FewerOpenStayApart(s, Mark(s, v, w));
    MarkBound(g, s, v, w);
    MarkReached(g, s, v, w);
    assert Mark(s, v, w).Settled() == s.Settled();
  }

  lemma MarkReached(g: Edges, s: Search, v: Label, w: Label)
    requires Shape(g, s) && LowsReached(g, s) && v in s.path && Shape(g, Mark(s, v, w))
    ensures LowsReached(g, Mark(s, v, w))
  {
    var t := Mark(s, v, w);
    forall u | u in t.path ensures LowReached(g, t, u) {
      assert LowReached(g, s, u);
    }
  }

  lemma MarkBound(g: Edges, s: Search, v: Label, w: Label)
    requires Shape(g, s) && IndicesDiffer(s) && LowsBound(g, s) && v in s.path && w in s.index
    requires w in s.on ==> Num(s.low, v) <= Num(s.index, w)
    requires Shape(g, Mark(s, v, w))
    ensures LowsBound(g, Mark(s, v, w))
  {
    var t := Mark(s, v, w);
    forall u, x, y | Owns(t.index, t.on, t.path, u, x) && y in SetAt(t.read, x) && y in t.on ensures Num(t.low, u) <= Num(t.index, y) {
      assert Owns(s.index, s.on, s.path, u, x);
      if y !in SetAt(s.read, x) {
        assert x == v && y == w;
        assert Tied(s.index, u, v);
      }
    }
  }

  // ----- the innermost open target v is closed and stays on the stack

  ghost function Close(s: Search, v: Label): Search {
    s.(path := s.path - {v})
  }

  /** All edges of v are read, it reaches a target below it, and the open target u
      just below it has taken over its low. */
  ghost predicate CanClose(g: Edges, s: Search, v: Label, u: Label)
  {
    && IsTop(s, v) && IsTop(Close(s, v), u)
    && SetAt(s.read, v) == Out(g, v)
    && Num(s.low, u) <= Num(s.low, v) < Num(s.index, v)
  }

  lemma CloseDown(g: Edges, s: Search, v: Label, u: Label)
    requires Shape(g, s) && Down(g, s) && LowsReached(g, s) && CanClose(g, s, v, u) && Shape(g, Close(s, v))
    ensures Down(g, Close(s, v))
  {
    var t := Close(s, v);
    assert LowReached(g, s, v);
    var y :| y in s.on && Num(s.index, y) == Num(s.low, v) && Reach(g, v, y);
    assert Anchored(g, s, y);
    var a :| a in s.path && Num(s.index, a) <= Num(s.index, y) && Reach(g, y, a);
    ReachTransitive(g, v, y, a);
    forall x | x in t.on ensures Anchored(g, t, x) {
      assert Anchored(g, s, x);
      var b :| b in s.path && Num(s.index, b) <= Num(s.index, x) && Reach(g, x, b);
      if b == v {
        ReachTransitive(g, x, v, a);
        assert a in t.path;
      } else {
        assert b in t.path;
      }
    }
  }

  lemma CloseBound(g: Edges, s: Search, v: Label, u: Label)
    requires Shape(g, s) && IndicesDiffer(s) && LowsBound(g, s) && CanClose(g, s, v, u) && Shape(g, Close(s, v))
    ensures LowsBound(g, Close(s, v))
  {
    var t := Close(s, v);
    forall a, x, y | Owns(t.index, t.on, t.path, a, x) && y in SetAt(t.read, x) && y in t.on ensures Num(t.low, a) <= Num(t.index, y) {
      if Num(s.index, v) <= Num(s.index, x) {
        assert Owns(s.index, s.on, s.path, v, x);
        assert Tied(s.index, a, u);
      } else {
        assert Owns(s.index, s.on, s.path, a, x);
      }
    }
  }

  lemma CloseReached(g: Edges, s: Search, v: Label)
    requires Shape(g, s) && LowsReached(g, s) && Shape(g, Close(s, v))
    ensures LowsReached(g, Close(s, v))
  {
    forall u | u in Close(s, v).path ensures LowReached(g, Close(s, v), u) {
      assert LowReached(g, s, u);
    }
  }

  lemma CloseKeeps(g: Edges, s: Search, v: Label, u: Label)
    requires Inv(g, s) && CanClose(g, s, v, u)
    ensures Inv(g, Close(s, v))
  {
    assert Shape(g, Close(s, v));
    FewerOpenStayApart(s, Close(s, v));
    CloseDown(g, s, v, u);
    CloseBound(g, s, v, u);
    CloseReached(g, s, v);
    assert Close(s, v).Settled() == s.Settled();
  }

  // ----- v is closed and settled, with everything above it on the stack

  /** The stack from v up. */
  ghost function Above(s: Search, v: Label): set<Label>
  {
    set x | x in s.on && Num(s.index, v) <= Num(s.index, x)
  }

  ghost function Settle(s: Search, v: Label): Search
  {
    s.(path := s.path - {v}, on := s.on - Above(s, v))
  }

  /** All edges of v are read and it reaches nothing below it. */
  ghost predicate CanSettle(g: Edges, s: Search, v: Label)
  {
    IsTop(s, v) && SetAt(s.read, v) == Out(g, v) && Num(s.low, v) == Num(s.index, v)
  }

  /** Edges from what is about to be settled stay in it or among settled targets. */
  lemma SettleClosed(g: Edges, s: Search, v: Label, x: Label, w: Label)
    requires Shape(g, s) && IndicesDiffer(s) && Explored(g, s) && LowsBound(g, s) && CanSettle(g, s, v)
    requires x in Above(s, v) && Edge(g, x, w)
    ensures w in Above(s, v) || w in s.Settled()
  {
    assert Tied(s.index, x, v) || x !in s.path;
    assert w in SetAt(s.read, x);
    assert Owns(s.index, s.on, s.path, v, x);
  }

  lemma SettleMutual(g: Edges, s: Search, v: Label, x: Label)
    requires Shape(g, s) && Up(g, s) && Down(g, s) && CanSettle(g, s, v) && x in Above(s, v)
    ensures Reach(g, x, v) && Reach(g, v, x)
  {
    TopReached(g, s, v, x);
  }

  lemma SettleMaximal(g: Edges, s: Search, v: Label, x: Label, y: Label)
    requires Shape(g, s) && IndicesDiffer(s) && Explored(g, s) && LowsBound(g, s) && CanSettle(g, s, v)
    requires x in Above(s, v) && Reach(g, x, y) && Reach(g, y, x)
    ensures y in Above(s, v)
  {
    var around := Above(s, v) + s.Settled();
    forall a, w | a in around && Edge(g, a, w) ensures w in around {
      if a in Above(s, v) { SettleClosed(g, s, v, a, w); }
    }
    ReachStaysIn(g, around, x, y);
    if y in s.Settled() {
      ReachStaysIn(g, s.Settled(), y, x);
    }
  }

  /** What is settled together is a component. */
  lemma SettleComponent(g: Edges, s: Search, v: Label)
    requires Inv(g, s) && CanSettle(g, s, v)
    ensures IsComponent(g, Above(s, v))
  {
    var c := Above(s, v);
    assert v in c;
    forall x, y | x in c && y in c ensures Reach(g, x, y) {
      SettleMutual(g, s, v, x);
      SettleMutual(g, s, v, y);
      ReachTransitive(g, x, v, y);
    }
    forall x, y | x in c && Reach(g, x, y) && Reach(g, y, x) ensures y in c {
      SettleMaximal(g, s, v, x, y);
    }
  }

  lemma SettleShape(g: Edges, s: Search, v: Label)
    requires Shape(g, s) && IndicesDiffer(s) && CanSettle(g, s, v)
    ensures Shape(g, Settle(s, v))
    ensures Settle(s, v).Settled() == s.Settled() + Above(s, v)
  {
    forall u | u in s.path - {v} ensures u !in Above(s, v) {
      assert Num(s.index, u) == Num(s.index, v) ==> Tied(s.index, u, v);
    }
  }

  lemma SettleDown(g: Edges, s: Search, v: Label)
    requires Shape(g, s) && Down(g, s) && CanSettle(g, s, v) && Shape(g, Settle(s, v))
    ensures Down(g, Settle(s, v))
  {
    var t := Settle(s, v);
    forall x | x in t.on ensures Anchored(g, t, x) {
      assert Anchored(g, s, x);
      var a :| a in s.path && Num(s.index, a) <= Num(s.index, x) && Reach(g, x, a);
      assert a in t.path;
    }
  }

  lemma SettleReached(g: Edges, s: Search, v: Label)
    requires Shape(g, s) && LowsReached(g, s) && CanSettle(g, s, v) && Shape(g, Settle(s, v))
    ensures LowsReached(g, Settle(s, v))
  {
    var t := Settle(s, v);
    forall u | u in t.path ensures LowReached(g, t, u) {
      assert LowReached(g, s, u);
      var y :| y in s.on && Num(s.index, y) == Num(s.low, u) && Reach(g, u, y);
      assert y in t.on;
    }
  }

  lemma SettleBound(g: Edges, s: Search, v: Label)
    requires Shape(g, s) && LowsBound(g, s) && CanSettle(g, s, v) && Shape(g, Settle(s, v))
    ensures LowsBound(g, Settle(s, v))
  {
    var t := Settle(s, v);
    forall a, x, y | Owns(t.index, t.on, t.path, a, x) && y in SetAt(t.read, x) && y in t.on ensures Num(t.low, a) <= Num(t.index, y) {
      assert Owns(s.index, s.on, s.path, a, x);
    }
  }

  lemma SettleExplored(g: Edges, s: Search, v: Label)
    requires Shape(g, s) && IndicesDiffer(s) && Explored(g, s) && LowsBound(g, s) && CanSettle(g, s, v) && Shape(g, Settle(s, v))
    requires Settle(s, v).Settled() == s.Settled() + Above(s, v)
    ensures Explored(g, Settle(s, v))
  {
    var t := Settle(s, v);
    forall x, w | x in t.Settled() && Edge(g, x, w) ensures w in t.Settled() {
      if x in Above(s, v) { SettleClosed(g, s, v, x, w); }
    }
  }

  lemma SettleKeeps(g: Edges, s: Search, v: Label)
    requires Inv(g, s) && CanSettle(g, s, v)
    ensures Inv(g, Settle(s, v))
    ensures Settle(s, v).Settled() == s.Settled() + Above(s, v)
  {
    SettleShape(g, s, v);
    FewerOpenStayApart(s, Settle(s, v));
    SettleDown(g, s, v);
    SettleReached(g, s, v);
    SettleBound(g, s, v);
    SettleExplored(g, s, v);
  }
}
