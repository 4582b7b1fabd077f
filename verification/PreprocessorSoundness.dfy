/** line_compiled over-approximates the lines C keeps, and is exact on conditions of
    known operating system flags, 0 and 1. */
module PreprocessorSoundness {
  import opened Options
  import opened Conditions
  import opened ConditionSemantics
  import opened Preprocessor

  /** A condition after the first of its frame holds, among the first n. */
  ghost predicate LaterTrue(frame: seq<Recorded>, n: nat, w: World) {
    exists j :: 1 <= j < n && j < |frame| && Truth(frame[j].0, w)
  }

  function OpenCond(opener: Line): Recorded {
    match opener
    case If(c) => (c, true)
    case Ifdef(name) => (DefinedCond(name), true)
    case Ifndef(name) => (DefinedCond(name), false)
    case _ => (Unlexed(""), true)
  }

  ghost predicate FormedCond(c: Cond) {
    c.Expr? ==> FormedDisj(c.d)
  }

  ghost predicate FormedFrame(frame: seq<Recorded>) {
    forall j :: 0 <= j < |frame| ==> FormedCond(frame[j].0)
  }

  ghost predicate Wants(frame: seq<Recorded>, n: nat, b: bool) {
    n <= |frame| && forall j :: 0 <= j < n ==> frame[j].1 == b
  }

  /** The recorded frame of a live section says which of its groups is the current one. */
  ghost predicate Matches(frame: seq<Recorded>, s: Section, w: World)
    requires s.Live?
  {
    var n := |frame|;
    && n > 0 && FormedFrame(frame)
    && (s.opener.If? || s.opener.Ifdef? || s.opener.Ifndef?)
    && frame[0].0 == OpenCond(s.opener).0
    && if s.closing then
         s.taken && Wants(frame, n, false) && s.active == !(Opens(s.opener, w) || LaterTrue(frame, n, w))
       else if n == 1 then
         frame[0].1 == OpenCond(s.opener).1 && s.taken == s.active == Opens(s.opener, w)
       else
         && Wants(frame, n - 1, false) && frame[n - 1].1
         && s.taken == (Opens(s.opener, w) || LaterTrue(frame, n, w))
         && s.active == (Truth(frame[n - 1].0, w) && !Opens(s.opener, w) && !LaterTrue(frame, n - 1, w))
  }

  ghost predicate Agrees(stack: seq<seq<Recorded>>, sections: seq<Section>, open: seq<bool>, w: World) {
    && |stack| == |sections| == |open|
    && forall k :: 0 <= k < |stack| ==>
         && (sections[k].Live? <==> Included(sections[..k]))
         && sections[k].closing == open[k]
         && FormedFrame(stack[k])
         && (sections[k].Live? ==> Matches(stack[k], sections[k], w))
  }

  /** defined(X) is an expression whose value the checker never knows. */
  lemma DefinedFacts(name: string, flags: set<string>)
    ensures FormedCond(DefinedCond(name)) && !KnownCond(DefinedCond(name)) && Eval(DefinedCond(name), flags) == None
  {
    var a := Lit(Defined(name));
    assert FormedConj(OneAtom(a)) && !KnownConj(OneAtom(a)) && ConjKleene(OneAtom(a), flags) == None;
    EvalIsKleene(DefinedCond(name).d, flags);
  }

  lemma AgreesEnter(stack: seq<seq<Recorded>>, sections: seq<Section>, open: seq<bool>, w: World, line: Line)
    requires Agrees(stack, sections, open, w) && FormedLine(line)
    requires line.If? || line.Ifdef? || line.Ifndef?
    ensures Agrees(stack + [[OpenCond(line)]], Enter(sections, line, w), open + [false], w)
  {
    var stack', sections' := stack + [[OpenCond(line)]], Enter(sections, line, w);
    if !line.If? { DefinedFacts(line.name, {}); }
    assert FormedFrame([OpenCond(line)]);
    forall k | 0 <= k < |stack'| ensures sections'[..k] == (if k < |stack| then sections[..k] else sections) {
    }
  }

  /** Only the innermost section and its frame change. */
  lemma AgreesTop(stack: seq<seq<Recorded>>, sections: seq<Section>, open: seq<bool>, w: World,
                  frame: seq<Recorded>, s: Section, closing: bool)
    requires Agrees(stack, sections, open, w) && stack != []
    requires s.Live? == sections[|stack| - 1].Live? && s.closing == closing && FormedFrame(frame)
    requires s.Live? ==> Matches(frame, s, w)
    ensures var n := |stack|; Agrees(stack[..n - 1] + [frame], sections[..n - 1] + [s], open[..n - 1] + [closing], w)
  {
    hide Matches, FormedFrame, Included;
    var n := |stack|;
    var stack', sections', open' := stack[..n - 1] + [frame], sections[..n - 1] + [s], open[..n - 1] + [closing];
    forall k | 0 <= k < n
      ensures (sections'[k].Live? <==> Included(sections'[..k])) && sections'[k].closing == open'[k]
      ensures FormedFrame(stack'[k]) && (sections'[k].Live? ==> Matches(stack'[k], sections'[k], w))
    {
      assert sections'[..k] == sections[..k];
      if k < n - 1 {
        assert stack'[k] == stack[k] && sections'[k] == sections[k] && open'[k] == open[k];
      } else {
        assert stack'[k] == frame && sections'[k] == s && open'[k] == closing && sections[k] == sections[|stack| - 1];
      }
    }
  }

  lemma ElifMatches(frame: seq<Recorded>, s: Section, c: Cond, w: World)
    requires s.Live? && !s.closing && Matches(frame, s, w) && FormedCond(c)
    ensures var active := !s.taken && Truth(c, w);
            Matches(AllFalse(frame) + [(c, true)], Live(s.opener, s.taken || active, active, false), w)
  {
    var n, next := |frame|, AllFalse(frame) + [(c, true)];
    assert LaterTrue(next, n, w) == LaterTrue(frame, n, w) by {
      SameLater(frame, next, n, w);
    }
    assert LaterTrue(next, n + 1, w) == (LaterTrue(next, n, w) || Truth(c, w)) by {
      assert next[n] == (c, true);
    }
    assert !LaterTrue(frame, 1, w);
    assert FormedFrame(next);
  }

  lemma SameLater(frame: seq<Recorded>, next: seq<Recorded>, n: nat, w: World)
    requires n <= |frame| && n <= |next| && forall j :: 0 <= j < n ==> next[j].0 == frame[j].0
    ensures LaterTrue(next, n, w) == LaterTrue(frame, n, w)
  {
    if j :| 1 <= j < n && j < |frame| && Truth(frame[j].0, w) {
      assert Truth(next[j].0, w);
    }
    if j :| 1 <= j < n && j < |next| && Truth(next[j].0, w) {
      assert Truth(frame[j].0, w);
    }
  }

  lemma ElseMatches(frame: seq<Recorded>, s: Section, w: World)
    requires s.Live? && !s.closing && Matches(frame, s, w)
    ensures Matches(AllFalse(frame), Live(s.opener, true, !s.taken, true), w)
  {
    SameLater(frame, AllFalse(frame), |frame|, w);
    assert !LaterTrue(frame, 1, w);
  }

  lemma AgreesPop(stack: seq<seq<Recorded>>, sections: seq<Section>, open: seq<bool>, w: World)
    requires Agrees(stack, sections, open, w) && stack != []
    ensures var n := |stack|; Agrees(stack[..n - 1], sections[..n - 1], open[..n - 1], w)
  {
    var n := |stack|;
    forall k | 0 <= k < n - 1 ensures sections[..n - 1][..k] == sections[..k] {
    }
  }

  lemma AgreesAtTop(stack: seq<seq<Recorded>>, sections: seq<Section>, open: seq<bool>, w: World)
    requires Agrees(stack, sections, open, w) && open != []
    ensures var n := |open|;
            |stack| == |sections| == n && sections[n - 1].closing == open[n - 1] && FormedFrame(stack[n - 1])
            && (sections[n - 1].Live? ==> Matches(stack[n - 1], sections[n - 1], w))
  {
  }

  lemma AgreesElif(stack: seq<seq<Recorded>>, sections: seq<Section>, open: seq<bool>, w: World, c: Cond)
    requires Agrees(stack, sections, open, w) && FormedCond(c) && open != [] && !open[|open| - 1]
    ensures Agrees(Push(stack, Elif(c)), Step(sections, Elif(c), w), open, w)
  {
    hide Agrees, Matches, FormedCond, Truth;
    AgreesAtTop(stack, sections, open, w);
    var n := |stack|;
    var frame, s := stack[n - 1], sections[n - 1];
    var next := if s.Live? then Live(s.opener, s.taken || (!s.taken && Truth(c, w)), !s.taken && Truth(c, w), s.closing) else s;
    if s.Live? { ElifMatches(frame, s, c, w); }
    assert FormedFrame(AllFalse(frame) + [(c, true)]);
    AgreesTop(stack, sections, open, w, AllFalse(frame) + [(c, true)], next, false);
    assert open[..n - 1] + [false] == open;
    assert s.Skipped? ==> sections[..n - 1] + [s] == sections;
  }

  lemma AgreesElse(stack: seq<seq<Recorded>>, sections: seq<Section>, open: seq<bool>, w: World)
    requires Agrees(stack, sections, open, w) && open != [] && !open[|open| - 1]
    ensures Agrees(Push(stack, Else), Step(sections, Else, w), open[..|open| - 1] + [true], w)
  {
    var n := |stack|;
    var frame, s := stack[n - 1], sections[n - 1];
    if s.Live? { ElseMatches(frame, s, w); }
    AgreesTop(stack, sections, open, w, AllFalse(frame), if s.Live? then Live(s.opener, true, !s.taken, true) else Skipped(true), true);
  }

  lemma AgreesStep(stack: seq<seq<Recorded>>, sections: seq<Section>, open: seq<bool>, w: World, line: Line)
    requires Agrees(stack, sections, open, w) && FormedLine(line) && Fits1(open, line)
    ensures Agrees(Push(stack, line), Step(sections, line, w), Nest(open, line), w)
  {
    hide Agrees, Matches, FormedFrame;
    AgreesSize(stack, sections, open, w);
    match line
    case If(_) => AgreesEnter(stack, sections, open, w, line);
    case Ifdef(_) => AgreesEnter(stack, sections, open, w, line);
    case Ifndef(_) => AgreesEnter(stack, sections, open, w, line);
    case Elif(c) => AgreesElif(stack, sections, open, w, c);
    case Else => AgreesElse(stack, sections, open, w);
    case Endif => AgreesPop(stack, sections, open, w);
    case Plain =>
  }

  lemma AgreesSize(stack: seq<seq<Recorded>>, sections: seq<Section>, open: seq<bool>, w: World)
    requires Agrees(stack, sections, open, w)
    ensures |stack| == |sections| == |open|
  {
  }

  lemma {:induction false} AgreesAlways(lines: seq<Line>, w: World)
    requires WellNested(lines) && FormedLines(lines)
    ensures Agrees(StackAfter(lines), SectionsAfter(lines, w), Nesting(lines), w)
  {
    if lines != [] {
      var n := |lines| - 1;
      var front := lines[..n];
      forall i | 0 <= i < n ensures front[..i] == lines[..i] {}
      assert WellNested(front) by {
        forall i | 0 <= i < n ensures Fits1(Nesting(front[..i]), front[i]) {
          assert Fits1(Nesting(lines[..i]), lines[i]);
        }
      }
      AgreesAlways(front, w);
      assert Fits1(Nesting(front), lines[n]);
      assert FormedLine(lines[n]);
      AgreesStep(StackAfter(front), SectionsAfter(front, w), Nesting(front), w, lines[n]);
    }
  }

  // ----- from frames to conditions

  lemma {:induction false} InFlatten<T>(frames: seq<seq<T>>, x: T)
    ensures x in Flatten(frames) <==> exists k :: 0 <= k < |frames| && x in frames[k]
  {
    if frames != [] {
      InFlatten(frames[1..], x);
      if k :| 0 <= k < |frames| && x in frames[k] {
        if k > 0 { assert x in frames[1..][k - 1]; }
      }
      if k :| 0 <= k < |frames[1..]| && x in frames[1..][k] {
        assert x in frames[k + 1];
      }
    }
  }

  /** The value the checker gives a condition, if any, is C's. */
  lemma EvalAgrees(c: Cond, flags: set<string>, w: World)
    requires FormedCond(c) && Fits(w, flags)
    ensures Eval(c, flags).Some? ==> Eval(c, flags).value == Truth(c, w)
  {
    if c.Expr? { EvalSound(c.d, flags, w); }
  }

  /** In an included group, no condition recorded for it rules it out. */
  lemma ActiveAllows(frame: seq<Recorded>, s: Section, flags: set<string>, w: World, j: nat)
    requires s.Live? && Matches(frame, s, w) && s.active && Fits(w, flags) && j < |frame|
    ensures Allows(frame[j], flags)
  {
    var n := |frame|;
    EvalAgrees(frame[j].0, flags, w);
    if j == 0 {
      if s.opener.Ifdef? || s.opener.Ifndef? { DefinedFacts(s.opener.name, flags); }
      assert !LaterTrue(frame, 1, w);
    } else {
      assert !(s.closing || j < n - 1) || !Truth(frame[j].0, w);
    }
  }

  /** Line i is kept by C only if line_compiled is true of its conditions, whatever
      the operands that the checker does not know are. */
  lemma KeptIsCompiled(lines: seq<Line>, i: nat, flags: set<string>, w: World)
    requires i <= |lines| && WellNested(lines[..i]) && FormedLines(lines[..i]) && Fits(w, flags)
    requires Kept(lines, i, w)
    ensures forall r: Recorded :: r in Flatten(StackAfter(lines[..i])) ==> Allows(r, flags)
  {
    var stack: seq<seq<Recorded>> := StackAfter(lines[..i]);
    var sections := SectionsAfter(lines[..i], w);
    AgreesAlways(lines[..i], w);
    forall r | r in Flatten(stack) ensures Allows(r, flags) {
      InFlatten(stack, r);
      var k :| 0 <= k < |stack| && r in stack[k];
      var j :| 0 <= j < |stack[k]| && stack[k][j] == r;
      ActiveAllows(stack[k], sections[k], flags, w, j);
    }
  }

  /** Only known flags, 0 and 1, joined by !, &&, || and parentheses. */
  ghost predicate KnownCond(c: Cond) {
    c.Expr? && KnownDisj(c.d)
  }

  lemma KnownAllows(r: Recorded, flags: set<string>, w: World)
    requires FormedCond(r.0) && KnownCond(r.0) && Fits(w, flags)
    ensures Allows(r, flags) <==> Truth(r.0, w) == r.1
  {
    EvalExact(r.0.d, flags, w);
  }

  /** A frame of known conditions that all allow the line belongs to an included group. */
  lemma AllowsActive(frame: seq<Recorded>, s: Section, flags: set<string>, w: World)
    requires s.Live? && Matches(frame, s, w) && Fits(w, flags)
    requires forall j :: 0 <= j < |frame| ==> KnownCond(frame[j].0) && Allows(frame[j], flags)
    ensures s.active
  {
    forall j | 0 <= j < |frame| ensures Truth(frame[j].0, w) == frame[j].1 {
      KnownAllows(frame[j], flags, w);
    }
    if !s.opener.If? { DefinedFacts(s.opener.name, flags); }
    assert s.opener.If?;
    assert Opens(s.opener, w) == Truth(frame[0].0, w);
  }

  /** When all conditions of a line are known, line_compiled is exactly what C does. */
  lemma CompiledIffKept(lines: seq<Line>, i: nat, flags: set<string>, w: World)
    requires i <= |lines| && WellNested(lines[..i]) && FormedLines(lines[..i]) && Fits(w, flags)
    requires forall r: Recorded :: r in Flatten(StackAfter(lines[..i])) ==> KnownCond(r.0)
    ensures (forall r: Recorded :: r in Flatten(StackAfter(lines[..i])) ==> Allows(r, flags)) <==> Kept(lines, i, w)
  {
    var stack: seq<seq<Recorded>> := StackAfter(lines[..i]);
    var sections := SectionsAfter(lines[..i], w);
    if Kept(lines, i, w) {
      KeptIsCompiled(lines, i, flags, w);
    } else {
      AgreesAlways(lines[..i], w);
      var k := FirstOff(sections);
      if forall r: Recorded :: r in Flatten(stack) ==> Allows(r, flags) {
        forall j | 0 <= j < |stack[k]| ensures KnownCond(stack[k][j].0) && Allows(stack[k][j], flags) {
          InFlatten(stack, stack[k][j]);
        }
        AllowsActive(stack[k], sections[k], flags, w);
      }
    }
  }

  /** The outermost section whose group is not included; all around it are. */
  lemma {:induction false} FirstOff(sections: seq<Section>) returns (k: nat)
    requires !Included(sections)
    ensures k < |sections| && Included(sections[..k]) && !(sections[k].Live? && sections[k].active)
  {
    k := 0;
    while k < |sections| && sections[k].Live? && sections[k].active
      invariant k <= |sections| && Included(sections[..k])
    {
      k := k + 1;
    }
  }

  // ----- a defect that the unknown value of defined(...) hides

  /** The conditions recorded for a line hold in w. */
  ghost predicate RecordedTruly(lines: seq<Line>, i: nat, w: World)
    requires i <= |lines|
  {
    forall r: Recorded :: r in Flatten(StackAfter(lines[..i])) ==> Truth(r.0, w) == r.1
  }

  /** The section was opened by #ifndef and is past its first group. */
  ghost predicate PastIfndef(frame: seq<Recorded>, s: Section) {
    s.Live? && s.opener.Ifndef? && (s.closing || |frame| > 1)
  }

  lemma FrameTruth(frame: seq<Recorded>, s: Section, w: World)
    requires s.Live? && Matches(frame, s, w) && s.active
    ensures (forall j :: 0 <= j < |frame| ==> Truth(frame[j].0, w) == frame[j].1) <==> !PastIfndef(frame, s)
  {
    var n := |frame|;
    if s.opener.Ifdef? || s.opener.Ifndef? { DefinedTruth(s.opener.name, w); }
    assert !LaterTrue(frame, 1, w);
    if PastIfndef(frame, s) {
      assert Truth(frame[0].0, w) != frame[0].1;
    } else {
      forall j | 1 <= j < n ensures Truth(frame[j].0, w) == frame[j].1 {
        assert !(s.closing || j < n - 1) || !Truth(frame[j].0, w);
      }
    }
  }

  /** No enclosing section is an #ifndef past its first group. */
  ghost predicate NonePastIfndef(stack: seq<seq<Recorded>>, sections: seq<Section>) {
    forall k :: 0 <= k < |stack| && k < |sections| ==> !PastIfndef(stack[k], sections[k])
  }

  lemma TrulyNotPast(stack: seq<seq<Recorded>>, sections: seq<Section>, open: seq<bool>, w: World)
    requires Agrees(stack, sections, open, w) && Included(sections)
    ensures (forall r: Recorded :: r in Flatten(stack) ==> Truth(r.0, w) == r.1) <==> NonePastIfndef(stack, sections)
  {
    if NonePastIfndef(stack, sections) {
      forall r: Recorded | r in Flatten(stack) ensures Truth(r.0, w) == r.1 {
        InFlatten(stack, r);
        var k :| 0 <= k < |stack| && r in stack[k];
        FrameTruth(stack[k], sections[k], w);
      }
    } else {
      var k :| 0 <= k < |stack| && PastIfndef(stack[k], sections[k]);
      FrameTruth(stack[k], sections[k], w);
      var j :| 0 <= j < |stack[k]| && Truth(stack[k][j].0, w) != stack[k][j].1;
      InFlatten(stack, stack[k][j]);
    }
  }

  /** The conditions recorded for a kept line are true just when it stands in no
      later group of an #ifndef. */
  lemma RecordedTrulyIff(lines: seq<Line>, i: nat, w: World)
    requires i <= |lines| && WellNested(lines[..i]) && FormedLines(lines[..i]) && Kept(lines, i, w)
    ensures RecordedTruly(lines, i, w) <==> NonePastIfndef(StackAfter(lines[..i]), SectionsAfter(lines[..i], w))
  {
    AgreesAlways(lines[..i], w);
    TrulyNotPast(StackAfter(lines[..i]), SectionsAfter(lines[..i], w), Nesting(lines[..i]), w);
  }

  lemma AfterOneMore(lines: seq<Line>, line: Line, w: World)
    ensures StackAfter(lines + [line]) == Push(StackAfter(lines), line)
    ensures SectionsAfter(lines + [line], w) == Step(SectionsAfter(lines, w), line, w)
  {
    assert (lines + [line])[..|lines|] == lines;
  }

  lemma IfndefElseStates(w: World)
    requires w.operand(Defined("X"))
    ensures Nesting([Ifndef("X")]) == [false]
    ensures SectionsAfter([Ifndef("X"), Else], w) == [Live(Ifndef("X"), true, true, true)]
    ensures StackAfter([Ifndef("X"), Else]) == [[(DefinedCond("X"), false)]]
  {
    hide DefinedCond;
    assert Nesting([]) == [] && StackAfter([]) == [] && SectionsAfter([], w) == [];
    assert [] + [Ifndef("X")] == [Ifndef("X")] && [Ifndef("X")] + [Else] == [Ifndef("X"), Else];
    assert [Ifndef("X")][..0] == [];
    AfterOneMore([], Ifndef("X"), w);
    assert StackAfter([Ifndef("X")]) == [[(DefinedCond("X"), false)]];
    assert SectionsAfter([Ifndef("X")], w) == [Live(Ifndef("X"), false, false, false)];
    AfterOneMore([Ifndef("X")], Else, w);
    assert AllFalse([(DefinedCond("X"), false)]) == [(DefinedCond("X"), false)];
  }

  /** Under #else of an #ifndef, the condition recorded is that the name is not
      defined, where C requires that it is. */
  lemma IfndefElseRecordedWrong(w: World)
    requires w.operand(Defined("X"))
    ensures var lines := [Ifndef("X"), Else];
            WellNested(lines) && Kept(lines, 2, w) && !RecordedTruly(lines, 2, w)
  {
    hide StackAfter, SectionsAfter, Truth;
    var lines: seq<Line> := [Ifndef("X"), Else];
    IfndefElseStates(w);
    assert lines[..2] == lines && lines[..1] == [Ifndef("X")];
    var frame: seq<Recorded> := [(DefinedCond("X"), false)];
    InFlatten([frame], frame[0]);
    assert frame[0] in [frame][0];
    DefinedTruth("X", w);
  }

  lemma DefinedTruth(name: string, w: World)
    ensures Truth(DefinedCond(name), w) == w.operand(Defined(name))
  {
    assert ConjTruth(OneAtom(Lit(Defined(name))), w) == w.operand(Defined(name));
  }
}
