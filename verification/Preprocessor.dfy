/** Which lines a platform may compile: preprocessor_conditions and line_compiled
    against C's conditional inclusion. */
module Preprocessor {
  import opened Options
  import opened Conditions
  import opened ConditionSemantics

  /** The expression of an #if or #elif; Unlexed is one the checker cannot split
      into tokens. */
  datatype Cond = Expr(d: Disj) | Unlexed(text: string)

  datatype Line = If(c: Cond) | Ifdef(name: string) | Ifndef(name: string) | Elif(c: Cond) | Else | Endif | Plain

  /** A recorded condition: the expression and the value it must have. */
  type Recorded = (Cond, bool)

  function DefinedCond(name: string): Cond {
    Expr(OneConj(OneAtom(Lit(Defined(name)))))
  }

  function Eval(c: Cond, flags: set<string>): Tri {
    match c
    case Expr(d) => EvalTokens(DisjTokens(d), flags)
    case Unlexed(_) => None
  }

  // ----- the checker

  function AllFalse(frame: seq<Recorded>): (r: seq<Recorded>)
    ensures |r| == |frame| && forall i :: 0 <= i < |r| ==> r[i] == (frame[i].0, false)
  {
    if frame == [] then [] else [(frame[0].0, false)] + AllFalse(frame[1..])
  }

  function Flatten<T>(frames: seq<seq<T>>): seq<T> {
    if frames == [] then [] else frames[0] + Flatten(frames[1..])
  }

  /** The stack of frames after one more line. */
  function Push(stack: seq<seq<Recorded>>, line: Line): seq<seq<Recorded>> {
    var n := |stack|;
    match line
    case If(c) => stack + [[(c, true)]]
    case Ifdef(name) => stack + [[(DefinedCond(name), true)]]
    case Ifndef(name) => stack + [[(DefinedCond(name), false)]]
    case Elif(c) => if n == 0 then stack else stack[..n - 1] + [AllFalse(stack[n - 1]) + [(c, true)]]
    case Else => if n == 0 then stack else stack[..n - 1] + [AllFalse(stack[n - 1])]
    case Endif => if n == 0 then stack else stack[..n - 1]
    case Plain => stack
  }

  function StackAfter(lines: seq<Line>): seq<seq<Recorded>> {
    if lines == [] then [] else Push(StackAfter(lines[..|lines| - 1]), lines[|lines| - 1])
  }

  lemma StackStarts()
    ensures StackAfter([]) == [] && Flatten<Recorded>([]) == []
  {
  }

  lemma StackGrows(lines: seq<Line>, i: nat)
    requires i < |lines|
    ensures StackAfter(lines[..i + 1]) == Push(StackAfter(lines[..i]), lines[i])
  {
    assert lines[..i + 1][..i] == lines[..i];
  }

  /** The conditions of every line; entry 0 stands before the first line. */
  method PreprocessorConditions(lines: seq<Line>) returns (out: seq<seq<Recorded>>)
    ensures |out| == |lines| + 1
    ensures forall i :: 0 <= i <= |lines| ==> out[i] == Flatten(StackAfter(lines[..i]))
  {
    var stack: seq<seq<Recorded>> := [];
    out := [[]];
    StackStarts();
    hide StackAfter, Flatten, AllFalse, DefinedCond;
    for i := 0 to |lines|
      invariant stack == StackAfter(lines[..i])
      invariant |out| == i + 1
      invariant forall k :: 0 <= k <= i ==> out[k] == Flatten(StackAfter(lines[..k]))
    {
      StackGrows(lines, i);
      var n := |stack|;
      match lines[i] {
        case If(c) => stack := stack + [[(c, true)]];
        case Ifdef(name) => stack := stack + [[(DefinedCond(name), true)]];
        case Ifndef(name) => stack := stack + [[(DefinedCond(name), false)]];
        case Elif(c) => if n > 0 { stack := stack[..n - 1] + [AllFalse(stack[n - 1]) + [(c, true)]]; }
        case Else => if n > 0 { stack := stack[..n - 1] + [AllFalse(stack[n - 1])]; }
        case Endif => if n > 0 { stack := stack[..n - 1]; }
        case Plain =>
      }
      out := out + [Flatten(stack)];
    }
  }

  /** The condition does not rule the line out. */
  predicate Allows(r: Recorded, flags: set<string>) {
    Eval(r.0, flags) == None || Eval(r.0, flags) == Some(r.1)
  }

  /** Whether a line under conds may be compiled. */
  method LineCompiled(conds: seq<Recorded>, flags: set<string>) returns (b: bool)
    ensures b <==> forall k :: 0 <= k < |conds| ==> Allows(conds[k], flags)
  {
    for i := 0 to |conds|
      invariant forall k :: 0 <= k < i ==> Allows(conds[k], flags)
    {
      if !Allows(conds[i], flags) { return false; }
    }
    return true;
  }

  // ----- C: conditional inclusion

  /** An open #if section: Skipped inside a group that is itself skipped; else the
      directive that opened it, whether a group was included already, whether the
      current one is, and whether #else was seen. */
  datatype Section = Skipped(closing: bool) | Live(opener: Line, taken: bool, active: bool, closing: bool)

  function Truth(c: Cond, w: World): bool {
    match c
    case Expr(d) => DisjTruth(d, w)
    case Unlexed(text) => w.other(text)
  }

  /** Whether the first group of a section is included. */
  function Opens(line: Line, w: World): bool {
    match line
    case If(c) => Truth(c, w)
    case Ifdef(name) => w.operand(Defined(name))
    case Ifndef(name) => !w.operand(Defined(name))
    case _ => false
  }

  predicate Included(sections: seq<Section>) {
    forall k :: 0 <= k < |sections| ==> sections[k].Live? && sections[k].active
  }

  function Enter(sections: seq<Section>, line: Line, w: World): seq<Section> {
    sections + [if Included(sections) then Live(line, Opens(line, w), Opens(line, w), false) else Skipped(false)]
  }

  /** C's reading of one more line. */
  function Step(sections: seq<Section>, line: Line, w: World): seq<Section> {
    var n := |sections|;
    match line
    case If(_) => Enter(sections, line, w)
    case Ifdef(_) => Enter(sections, line, w)
    case Ifndef(_) => Enter(sections, line, w)
    case Elif(c) =>
      if n == 0 then sections else
      (match sections[n - 1]
       case Skipped(_) => sections
       case Live(opener, taken, _, closing) =>
         var active := !taken && Truth(c, w);
         sections[..n - 1] + [Live(opener, taken || active, active, closing)])
    case Else =>
      if n == 0 then sections else
      (match sections[n - 1]
       case Skipped(_) => sections[..n - 1] + [Skipped(true)]
       case Live(opener, taken, _, _) => sections[..n - 1] + [Live(opener, true, !taken, true)])
    case Endif => if n == 0 then sections else sections[..n - 1]
    case Plain => sections
  }

  function SectionsAfter(lines: seq<Line>, w: World): seq<Section> {
    if lines == [] then [] else Step(SectionsAfter(lines[..|lines| - 1], w), lines[|lines| - 1], w)
  }

  /** Line i is compiled in world w. */
  predicate Kept(lines: seq<Line>, i: nat, w: World)
    requires i <= |lines|
  {
    Included(SectionsAfter(lines[..i], w))
  }

  // ----- well-nested sources

  /** What a line does to the open sections. */
  function Nest(open: seq<bool>, line: Line): seq<bool> {
    var n := |open|;
    match line
    case Else => if n == 0 then open else open[..n - 1] + [true]
    case Endif => if n == 0 then open else open[..n - 1]
    case Elif(_) => open
    case Plain => open
    case _ => open + [false]
  }

  /** For each open section, whether #else was seen. */
  function Nesting(lines: seq<Line>): seq<bool> {
    if lines == [] then [] else Nest(Nesting(lines[..|lines| - 1]), lines[|lines| - 1])
  }

  /** #elif, #else and #endif stand in an open section, #elif and #else before its #else. */
  ghost predicate WellNested(lines: seq<Line>) {
    forall i :: 0 <= i < |lines| ==> Fits1(Nesting(lines[..i]), lines[i])
  }

  predicate Fits1(open: seq<bool>, line: Line) {
    match line
    case Elif(_) => open != [] && !open[|open| - 1]
    case Else => open != [] && !open[|open| - 1]
    case Endif => open != []
    case _ => true
  }

  /** Every expression is one C's grammar allows. */
  ghost predicate FormedLines(lines: seq<Line>) {
    forall i :: 0 <= i < |lines| ==> FormedLine(lines[i])
  }

  ghost predicate FormedLine(line: Line) {
    match line
    case If(c) => c.Expr? ==> FormedDisj(c.d)
    case Elif(c) => c.Expr? ==> FormedDisj(c.d)
    case _ => true
  }
}
