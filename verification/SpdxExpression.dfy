/**
 * Checking an SPDX licence expression: the checker walks over the tokens with a parenthesis depth
 * and two flags; here it is proved to accept exactly a grammar (Annex D of SPDX 2.3, and a little
 * more around WITH).
 */
module SpdxExpression {
  import opened SpdxTokens

  /** The identifiers an expression may use: licences and exceptions of the SPDX list, and the
      LicenseRef-s the document declares. */
  datatype Names = Names(licenses: set<string>, exceptions: set<string>, refs: set<string>)

  datatype Problem =
    | EmptyExpression
    | UnexpectedOpen
    | UnbalancedClose
    | OperatorWithoutOperand(operator: string)
    | MissingOperator(before: string)
    | UnknownException(name: string)
    | NotDeclared(name: string)
    | UnknownLicense(name: string)
    | Incomplete

  datatype State = State(depth: int, expectOperand: bool, afterWith: bool)

  const START := State(0, true, false)

  const REF_PREFIX := "LicenseRef-"

  predicate IsOperator(t: string) {
    t == "AND" || t == "OR" || t == "WITH"
  }

  predicate IsReserved(t: string) {
    t == "(" || t == ")" || IsOperator(t)
  }

  /** The identifier without the "+" that asks for a later version. */
  function Core(t: string): string {
    if t != "" && t[|t| - 1] == '+' then t[..|t| - 1] else t
  }

  /** What is wrong with using t as a name, in either position. */
  function NameProblems(names: Names, t: string, afterWith: bool): seq<Problem> {
    if afterWith then if t in names.exceptions then [] else [UnknownException(t)]
    else if REF_PREFIX <= t then if t in names.refs then [] else [NotDeclared(t)]
    else if Core(t) in names.licenses then [] else [UnknownLicense(t)]
  }

  function Found(names: Names, s: State, t: string): seq<Problem> {
    if t == "(" then if s.expectOperand then [] else [UnexpectedOpen]
    else if t == ")" then if s.depth - 1 < 0 || s.expectOperand then [UnbalancedClose] else []
    else if IsOperator(t) then if s.expectOperand then [OperatorWithoutOperand(t)] else []
    else (if s.expectOperand then [] else [MissingOperator(t)]) + NameProblems(names, t, s.afterWith)
  }

  function Next(s: State, t: string): State {
    if t == "(" then s.(depth := s.depth + 1)
    else if t == ")" then s.(depth := s.depth - 1)
    else if IsOperator(t) then s.(expectOperand := true, afterWith := t == "WITH")
    else s.(expectOperand := false, afterWith := false)
  }

  /** The problems found from state s on. */
  function Problems(names: Names, s: State, tokens: seq<string>): seq<Problem>
    decreases |tokens|
  {
    if tokens == [] then if s.depth != 0 || s.expectOperand then [Incomplete] else []
    else Found(names, s, tokens[0]) + Problems(names, Next(s, tokens[0]), tokens[1..])
  }

  function ProblemsOf(names: Names, expr: string): seq<Problem> {
    if expr == "NOASSERTION" || expr == "NONE" then []
    else if Tokens(expr) == [] then [EmptyExpression]
    else Problems(names, START, Tokens(expr))
  }

  // ------------------------------------------------------------- the grammar

  datatype Term = Name(id: string) | Group(inner: Expr)

  datatype Expr = One(term: Term) | More(term: Term, op: string, rest: Expr)

  function TermTokens(t: Term): seq<string> {
    match t
    case Name(id) => [id]
    case Group(e) => ["("] + ExprTokens(e) + [")"]
  }

  function ExprTokens(e: Expr): seq<string> {
    match e
    case One(t) => TermTokens(t)
    case More(t, op, rest) => TermTokens(t) + [op] + ExprTokens(rest)
  }

  /** Every name is usable where it stands: the first name to the right of a WITH, through any
      parentheses, is an exception, every other one is a licence. */
  predicate TermOk(names: Names, t: Term, afterWith: bool) {
    match t
    case Name(id) => !IsReserved(id) && NameProblems(names, id, afterWith) == []
    case Group(e) => ExprOk(names, e, afterWith)
  }

  predicate ExprOk(names: Names, e: Expr, afterWith: bool) {
    match e
    case One(t) => TermOk(names, t, afterWith)
    case More(t, op, rest) => TermOk(names, t, afterWith) && IsOperator(op) && ExprOk(names, rest, op == "WITH")
  }

  /** The grammar the checker decides. */
  ghost predicate Derivable(names: Names, tokens: seq<string>) {
    exists e :: ExprOk(names, e, false) && ExprTokens(e) == tokens
  }

  /** E ::= T ((AND | OR) T)*, T ::= licence | ( E ): the part of the grammar without exceptions. */
  predicate Plain(names: Names, e: Expr) {
    match e
    case One(t) => PlainTerm(names, t)
    case More(t, op, rest) => PlainTerm(names, t) && (op == "AND" || op == "OR") && Plain(names, rest)
  }

  predicate PlainTerm(names: Names, t: Term) {
    match t
    case Name(id) => !IsReserved(id) && NameProblems(names, id, false) == []
    case Group(e) => Plain(names, e)
  }

  // ------------------------------------------------- the checker accepts the grammar

  lemma {:induction false} ProblemsStep(names: Names, s: State, t: string, rest: seq<string>)
    ensures Problems(names, s, [t] + rest) == Found(names, s, t) + Problems(names, Next(s, t), rest)
  {
    assert ([t] + rest)[1..] == rest;
  }

  lemma {:induction false} TermRuns(names: Names, t: Term, afterWith: bool, depth: nat, rest: seq<string>)
    requires TermOk(names, t, afterWith)
    ensures Problems(names, State(depth, true, afterWith), TermTokens(t) + rest)
         == Problems(names, State(depth, false, false), rest)
    decreases t
  {
    var s := State(depth, true, afterWith);
    match t
    case Name(id) =>
      ProblemsStep(names, s, id, rest);
    case Group(e) =>
      var tail := [")"] + rest;
      assert TermTokens(t) + rest == ["("] + (ExprTokens(e) + tail);
      ProblemsStep(names, s, "(", ExprTokens(e) + tail);
      ExprRuns(names, e, afterWith, depth + 1, tail);
      ProblemsStep(names, State(depth + 1, false, false), ")", rest);
  }

  /** Reading a derivable expression leaves the checker past one operand with nothing found. */
  lemma {:induction false} ExprRuns(names: Names, e: Expr, afterWith: bool, depth: nat, rest: seq<string>)
    requires ExprOk(names, e, afterWith)
    ensures Problems(names, State(depth, true, afterWith), ExprTokens(e) + rest)
         == Problems(names, State(depth, false, false), rest)
    decreases e
  {
    match e
    case One(t) =>
      TermRuns(names, t, afterWith, depth, rest);
    case More(t, op, more) =>
      var tail := ExprTokens(more) + rest;
      assert ExprTokens(e) + rest == TermTokens(t) + ([op] + tail);
      TermRuns(names, t, afterWith, depth, [op] + tail);
      ProblemsStep(names, State(depth, false, false), op, tail);
      ExprRuns(names, more, op == "WITH", depth, rest);
  }

  // ------------------------------------------------- the grammar has all the checker accepts

  lemma CleanStep(names: Names, s: State, tokens: seq<string>)
    requires Problems(names, s, tokens) == []
    ensures tokens == [] ==> s.depth == 0 && !s.expectOperand
    ensures tokens != [] ==> Found(names, s, tokens[0]) == [] && Problems(names, Next(s, tokens[0]), tokens[1..]) == []
  {
  }

  /** From where an operand is wanted, a clean run reads one expression and stops at a
      parenthesis or at the end. */
  lemma {:induction false} Parse(names: Names, depth: nat, afterWith: bool, tokens: seq<string>)
    returns (e: Expr, rest: seq<string>)
    requires Problems(names, State(depth, true, afterWith), tokens) == []
    ensures ExprOk(names, e, afterWith) && tokens == ExprTokens(e) + rest
    ensures Problems(names, State(depth, false, false), rest) == []
    ensures rest != [] ==> rest[0] == ")"
    decreases |tokens|, 1
  {
    hide Problems;
    var term, after := ParseTerm(names, depth, afterWith, tokens);
    if after == [] || after[0] == ")" {
      return One(term), after;
    }
    CleanStep(names, State(depth, false, false), after);
    var more, end := Parse(names, depth, after[0] == "WITH", after[1..]);
    e, rest := More(term, after[0], more), end;
    assert tokens == TermTokens(term) + ([after[0]] + (ExprTokens(more) + end));
  }

  lemma {:induction false} ParseTerm(names: Names, depth: nat, afterWith: bool, tokens: seq<string>)
    returns (t: Term, rest: seq<string>)
    requires Problems(names, State(depth, true, afterWith), tokens) == []
    ensures TermOk(names, t, afterWith) && tokens == TermTokens(t) + rest
    ensures Problems(names, State(depth, false, false), rest) == []
    ensures |rest| < |tokens|
    decreases |tokens|, 0
  {
    hide Problems;
    CleanStep(names, State(depth, true, afterWith), tokens);
    if tokens[0] == "(" {
      var inner, after := Parse(names, depth + 1, afterWith, tokens[1..]);
      CleanStep(names, State(depth + 1, false, false), after);
      t, rest := Group(inner), after[1..];
      assert tokens == ["("] + (ExprTokens(inner) + ([")"] + rest));
    } else {
      t, rest := Name(tokens[0]), tokens[1..];
    }
  }

  /** The checker finds nothing in a token list exactly when the grammar derives it. */
  lemma CleanIffDerivable(names: Names, tokens: seq<string>)
    ensures Problems(names, START, tokens) == [] <==> Derivable(names, tokens)
  {
    if Problems(names, START, tokens) == [] {
      var e, rest := Parse(names, 0, false, tokens);
      assert rest == [];
      assert ExprTokens(e) + [] == ExprTokens(e);
    }
    if Derivable(names, tokens) {
      var e :| ExprOk(names, e, false) && ExprTokens(e) == tokens;
      ExprRuns(names, e, false, 0, []);
      assert tokens + [] == tokens;
    }
  }

  lemma {:induction false} PlainIsOk(names: Names, e: Expr)
    requires Plain(names, e)
    ensures ExprOk(names, e, false)
    decreases e
  {
    match e
    case One(t) => PlainTermIsOk(names, t);
    case More(t, op, rest) => PlainTermIsOk(names, t); PlainIsOk(names, rest);
  }

  lemma {:induction false} PlainTermIsOk(names: Names, t: Term)
    requires PlainTerm(names, t)
    ensures TermOk(names, t, false)
    decreases t
  {
    match t
    case Name(_) =>
    case Group(e) => PlainIsOk(names, e);
  }

  lemma {:induction false} OkIsPlain(names: Names, e: Expr)
    requires ExprOk(names, e, false) && "WITH" !in ExprTokens(e)
    ensures Plain(names, e)
    decreases e
  {
    match e
    case One(t) => OkTermIsPlain(names, t);
    case More(t, op, rest) =>
      assert forall x :: x in TermTokens(t) || x == op || x in ExprTokens(rest) ==> x in ExprTokens(e);
      OkTermIsPlain(names, t);
      OkIsPlain(names, rest);
  }

  lemma {:induction false} OkTermIsPlain(names: Names, t: Term)
    requires TermOk(names, t, false) && "WITH" !in TermTokens(t)
    ensures PlainTerm(names, t)
    decreases t
  {
    match t
    case Name(_) =>
    case Group(e) =>
      assert forall x :: x in ExprTokens(e) ==> x in TermTokens(t);
      OkIsPlain(names, e);
  }

  /** Without WITH, that grammar is E ::= T ((AND | OR) T)*, T ::= licence | ( E ). */
  lemma CleanIffPlain(names: Names, tokens: seq<string>)
    requires "WITH" !in tokens
    ensures Problems(names, START, tokens) == [] <==> exists e :: Plain(names, e) && ExprTokens(e) == tokens
  {
    CleanIffDerivable(names, tokens);
    if Derivable(names, tokens) {
      var e :| ExprOk(names, e, false) && ExprTokens(e) == tokens;
      OkIsPlain(names, e);
    }
    forall e | Plain(names, e) && ExprTokens(e) == tokens ensures Derivable(names, tokens) {
      PlainIsOk(names, e);
    }
  }

  /** The grammar is unambiguous: one token list, one tree. */
  lemma {:induction false} OneReading(names: Names, a: Expr, b: Expr, w: bool, restA: seq<string>, restB: seq<string>)
    requires ExprOk(names, a, w) && ExprOk(names, b, w)
    requires ExprTokens(a) + restA == ExprTokens(b) + restB
    requires (restA != [] ==> restA[0] == ")") && (restB != [] ==> restB[0] == ")")
    ensures a == b && restA == restB
    decreases a
  {
    var moreA := if a.One? then restA else [a.op] + (ExprTokens(a.rest) + restA);
    var moreB := if b.One? then restB else [b.op] + (ExprTokens(b.rest) + restB);
    assert ExprTokens(a) + restA == TermTokens(a.term) + moreA;
    assert ExprTokens(b) + restB == TermTokens(b.term) + moreB;
    assert a.More? ==> moreA[0] == a.op && moreA[1..] == ExprTokens(a.rest) + restA;
    assert b.More? ==> moreB[0] == b.op && moreB[1..] == ExprTokens(b.rest) + restB;
    OneTerm(names, a.term, b.term, w, moreA, moreB);
    if a.More? && b.More? {
      OneReading(names, a.rest, b.rest, a.op == "WITH", restA, restB);
    }
  }

  lemma {:induction false} OneTerm(names: Names, a: Term, b: Term, w: bool, restA: seq<string>, restB: seq<string>)
    requires TermOk(names, a, w) && TermOk(names, b, w)
    requires TermTokens(a) + restA == TermTokens(b) + restB
    ensures a == b && restA == restB
    decreases a
  {
    var all := TermTokens(a) + restA;
    assert all[0] == TermTokens(a)[0] && all[0] == TermTokens(b)[0];
    if a.Group? && b.Group? {
      assert all[1..] == ExprTokens(a.inner) + ([")"] + restA);
      assert all[1..] == ExprTokens(b.inner) + ([")"] + restB);
      OneReading(names, a.inner, b.inner, w, [")"] + restA, [")"] + restB);
      assert ([")"] + restA)[1..] == restA && ([")"] + restB)[1..] == restB;
    } else if a.Name? && b.Name? {
      assert all[1..] == restA && all[1..] == restB;
    }
  }

  // ------------------------------------------------------------- WITH and references

  /** WITH joins one licence to one exception: all that Annex D of SPDX 2.3 allows. */
  predicate Standard(e: Expr, afterWith: bool) {
    match e
    case One(t) => StandardTerm(t, afterWith)
    case More(t, op, rest) =>
      && StandardTerm(t, afterWith)
      && (op == "WITH" ==> t.Name? && !afterWith)
      && Standard(rest, op == "WITH")
  }

  predicate StandardTerm(t: Term, afterWith: bool) {
    match t
    case Name(_) => true
    case Group(e) => !afterWith && Standard(e, false)
  }

  // The same, said of the tokens: what stands around each WITH.

  /** The WITH at i joins a name that follows no other WITH to what is no group. w: the
      tokens themselves come right after a WITH. */
  predicate WithFits(tokens: seq<string>, w: bool, i: nat)
    requires i < |tokens|
  {
    tokens[i] == "WITH" ==>
      && 0 < i && !IsReserved(tokens[i - 1])
      && i + 1 < |tokens| && tokens[i + 1] != "("
      && (i == 1 ==> !w) && (i >= 2 ==> tokens[i - 2] != "WITH")
  }

  ghost predicate WithsFit(tokens: seq<string>, w: bool) {
    forall i :: 0 <= i < |tokens| ==> WithFits(tokens, w, i)
  }

  /** A term or an expression starts with no operator and does not end with one. */
  predicate Bounded(tokens: seq<string>) {
    tokens != [] && !IsOperator(tokens[0]) && !IsOperator(tokens[|tokens| - 1])
  }

  lemma {:induction false} TermBounded(names: Names, t: Term, w: bool)
    requires TermOk(names, t, w)
    ensures Bounded(TermTokens(t)) && (TermTokens(t)[0] == "(" <==> t.Group?)
  {
  }

  lemma {:induction false} ExprBounded(names: Names, e: Expr, w: bool)
    requires ExprOk(names, e, w)
    ensures Bounded(ExprTokens(e)) && ExprTokens(e)[0] == TermTokens(e.term)[0]
    decreases e
  {
    TermBounded(names, e.term, w);
    if e.More? { ExprBounded(names, e.rest, e.op == "WITH"); }
  }

  predicate StartsGroup(tokens: seq<string>) {
    tokens != [] && tokens[0] == "("
  }

  lemma GroupFitsAt(inner: seq<string>, i: nat)
    requires Bounded(inner) && i < |inner|
    ensures WithFits(["("] + inner + [")"], false, i + 1) <==> WithFits(inner, false, i)
  {
    var all := ["("] + inner + [")"];
    assert all[i + 1] == inner[i] && (i > 0 ==> all[i] == inner[i - 1]) && (i > 1 ==> all[i - 1] == inner[i - 2]);
    assert i + 1 < |inner| ==> all[i + 2] == inner[i + 1];
  }

  lemma GroupFits(inner: seq<string>)
    requires Bounded(inner)
    ensures WithsFit(["("] + inner + [")"], false) <==> WithsFit(inner, false)
  {
    hide WithFits;
    var all := ["("] + inner + [")"];
    if WithsFit(all, false) {
      forall i | 0 <= i < |inner| ensures WithFits(inner, false, i) {
        GroupFitsAt(inner, i);
      }
    }
    if WithsFit(inner, false) {
      forall i | 0 <= i < |all| ensures WithFits(all, false, i) {
        if 0 < i <= |inner| {
          GroupFitsAt(inner, i - 1);
        } else {
          OtherFits(all, false, i);
        }
      }
    }
  }

  lemma OtherFits(tokens: seq<string>, w: bool, i: nat)
    requires i < |tokens| && tokens[i] != "WITH"
    ensures WithFits(tokens, w, i)
  {
  }

  predicate JoinedBy(first: seq<string>, op: string, rest: seq<string>, w: bool)
    requires first != []
  {
    op == "WITH" ==> !IsReserved(first[|first| - 1]) && !w && !StartsGroup(rest)
  }

  lemma FirstFits(first: seq<string>, op: string, rest: seq<string>, w: bool, i: nat)
    requires Bounded(first) && i < |first|
    ensures WithFits(first + [op] + rest, w, i) <==> WithFits(first, w, i)
  {
  }

  lemma MiddleFits(first: seq<string>, op: string, rest: seq<string>, w: bool)
    requires Bounded(first) && Bounded(rest) && (|first| > 1 ==> first[|first| - 1] == ")")
    ensures WithFits(first + [op] + rest, w, |first|) <==> JoinedBy(first, op, rest, w)
  {
  }

  lemma RestFits(first: seq<string>, op: string, rest: seq<string>, w: bool, i: nat)
    requires Bounded(first) && Bounded(rest) && IsOperator(op) && i < |rest|
    ensures WithFits(first + [op] + rest, w, |first| + 1 + i) <==> WithFits(rest, op == "WITH", i)
  {
    var all, n := first + [op] + rest, |first| + 1;
    assert all[n - 1] == op && all[n + i] == rest[i] && (i > 0 ==> all[n + i - 1] == rest[i - 1]) && (i > 1 ==> all[n + i - 2] == rest[i - 2]);
    assert i + 1 < |rest| ==> all[n + i + 1] == rest[i + 1];
  }

  lemma JoinFits(first: seq<string>, op: string, rest: seq<string>, w: bool)
    requires Bounded(first) && Bounded(rest) && IsOperator(op) && (|first| > 1 ==> first[|first| - 1] == ")")
    ensures WithsFit(first + [op] + rest, w) <==> WithsFit(first, w) && WithsFit(rest, op == "WITH") && JoinedBy(first, op, rest, w)
  {
    hide WithFits, JoinedBy, IsOperator;
    var all, n, with := first + [op] + rest, |first|, op == "WITH";
    MiddleFits(first, op, rest, w);
    if WithsFit(all, w) {
      assert WithFits(all, w, n);
      forall i | 0 <= i < |first| ensures WithFits(first, w, i) { FirstFits(first, op, rest, w, i); }
      forall i | 0 <= i < |rest| ensures WithFits(rest, with, i) { RestFits(first, op, rest, w, i); }
    }
    if WithsFit(first, w) && WithsFit(rest, op == "WITH") && JoinedBy(first, op, rest, w) {
      forall i | 0 <= i < |all| ensures WithFits(all, w, i) {
        if i < n {
          FirstFits(first, op, rest, w, i);
        } else if i > n {
          RestFits(first, op, rest, w, i - n - 1);
        }
      }
    }
  }

  lemma {:induction false} TermStandardIff(names: Names, t: Term, w: bool)
    requires TermOk(names, t, w)
    ensures StandardTerm(t, w) <==> !(w && StartsGroup(TermTokens(t))) && WithsFit(TermTokens(t), w)
    decreases t
  {
    TermBounded(names, t, w);
    match t
    case Name(id) =>
      OtherFits([id], w, 0);
    case Group(e) =>
      if !w {
        ExprBounded(names, e, false);
        ExprStandardIff(names, e, false);
        GroupFits(ExprTokens(e));
      }
  }

  lemma {:induction false} ExprStandardIff(names: Names, e: Expr, w: bool)
    requires ExprOk(names, e, w)
    ensures Standard(e, w) <==> !(w && StartsGroup(ExprTokens(e))) && WithsFit(ExprTokens(e), w)
    decreases e
  {
    hide WithsFit;
    TermStandardIff(names, e.term, w);
    TermBounded(names, e.term, w);
    match e
    case One(_) =>
    case More(t, op, rest) =>
      ExprBounded(names, rest, op == "WITH");
      ExprStandardIff(names, rest, op == "WITH");
      GroupEnds(t);
      JoinFits(TermTokens(t), op, ExprTokens(rest), w);
  }

  lemma GroupEnds(t: Term)
    ensures |TermTokens(t)| > 1 ==> TermTokens(t)[|TermTokens(t)| - 1] == ")"
    ensures t.Name? ==> TermTokens(t) == [t.id]
    ensures t.Group? ==> TermTokens(t)[|TermTokens(t)| - 1] == ")"
  {
  }

  /** What Annex D derives. */
  ghost predicate StandardDerivable(names: Names, tokens: seq<string>) {
    exists e :: ExprOk(names, e, false) && Standard(e, false) && ExprTokens(e) == tokens
  }

  /** The checker and Annex D of SPDX 2.3 agree on a token list exactly when every WITH in it
      stands between a name that follows no other WITH and something that is no group. */
  lemma StandardIff(names: Names, tokens: seq<string>)
    ensures StandardDerivable(names, tokens) <==> Problems(names, START, tokens) == [] && WithsFit(tokens, false)
  {
    hide WithsFit, Problems;
    CleanIffDerivable(names, tokens);
    if StandardDerivable(names, tokens) {
      var e :| ExprOk(names, e, false) && Standard(e, false) && ExprTokens(e) == tokens;
      ExprStandardIff(names, e, false);
    }
    if Derivable(names, tokens) {
      var e :| ExprOk(names, e, false) && ExprTokens(e) == tokens;
      ExprStandardIff(names, e, false);
    }
  }

  /** The checker accepts more than Annex D: "licence WITH ( exception )" has one reading,
      and it is not a standard one. */
  lemma AcceptsGroupedException(names: Names, licence: string, exception_: string)
    requires !IsReserved(licence) && NameProblems(names, licence, false) == []
    requires !IsReserved(exception_) && exception_ in names.exceptions
    ensures var tokens := [licence, "WITH", "(", exception_, ")"];
            && Problems(names, START, tokens) == []
            && forall e :: ExprOk(names, e, false) && ExprTokens(e) == tokens ==> !Standard(e, false)
  {
    var tokens := [licence, "WITH", "(", exception_, ")"];
    var inner := One(Name(exception_));
    var group := One(Group(inner));
    var tree := More(Name(licence), "WITH", group);
    assert ExprTokens(inner) == [exception_];
    assert TermTokens(Group(inner)) == ["(", exception_, ")"];
    assert TermTokens(Name(licence)) == [licence];
    assert ExprOk(names, inner, true);
    assert ExprOk(names, group, true);
    assert ExprOk(names, tree, false);
    assert !Standard(group, true);
    assert ExprTokens(tree) == tokens;
    CleanIffDerivable(names, tokens);
    forall e | ExprOk(names, e, false) && ExprTokens(e) == tokens ensures !Standard(e, false) {
      assert ExprTokens(e) + [] == ExprTokens(tree) + [];
      OneReading(names, e, tree, false, [], []);
    }
  }

  /** Declaring more references never makes an accepted expression bad. */
  lemma {:induction false} MoreRefsKeep(names: Names, more: Names, s: State, tokens: seq<string>)
    requires more == names.(refs := more.refs) && names.refs <= more.refs
    requires Problems(names, s, tokens) == []
    ensures Problems(more, s, tokens) == []
    decreases |tokens|
  {
    if tokens != [] {
      MoreRefsKeep(names, more, Next(s, tokens[0]), tokens[1..]);
    }
  }

  lemma ProblemsAt(names: Names, s: State, tokens: seq<string>, i: nat)
    requires i < |tokens|
    ensures Problems(names, s, tokens[i..])
         == Found(names, s, tokens[i]) + Problems(names, Next(s, tokens[i]), tokens[i + 1..])
  {
    assert tokens[i..] == [tokens[i]] + tokens[i + 1..];
    ProblemsStep(names, s, tokens[i], tokens[i + 1..]);
  }

  lemma ProblemsEnd(names: Names, s: State, tokens: seq<string>)
    ensures Problems(names, s, tokens[|tokens|..]) == if s.depth != 0 || s.expectOperand then [Incomplete] else []
  {
  }

  lemma Gathered(before: seq<Problem>, found: seq<Problem>, later: seq<Problem>, all: seq<Problem>)
    requires before + (found + later) == all
    ensures (before + found) + later == all
  {
  }

  method CheckExpression(names: Names, expr: string) returns (problems: seq<Problem>)
    ensures problems == [] <==> expr == "NOASSERTION" || expr == "NONE" || Derivable(names, Tokens(expr))
    ensures problems == ProblemsOf(names, expr)
  {
    CleanIffDerivable(names, Tokens(expr));
    if expr == "NOASSERTION" || expr == "NONE" {
      return [];
    }
    var tokens := Tokens(expr);
    if tokens == [] {
      return [EmptyExpression];
    }
    problems := CheckTokens(names, tokens);
  }

  /** The walk over the tokens. */
  method CheckTokens(names: Names, tokens: seq<string>) returns (problems: seq<Problem>)
    ensures problems == Problems(names, START, tokens)
  {
    hide Problems, NameProblems, IsOperator;
    problems := [];
    assert tokens[0..] == tokens;
    var depth, expectOperand, afterWith := 0, true, false;
    for i := 0 to |tokens|
      invariant problems + Problems(names, State(depth, expectOperand, afterWith), tokens[i..])
             == Problems(names, START, tokens)
    {
      var t := tokens[i];
      ghost var s := State(depth, expectOperand, afterWith);
      ghost var before := problems;
      if t == "(" {
        if !expectOperand {
          problems := problems + [UnexpectedOpen];
        }
        depth := depth + 1;
      } else if t == ")" {
        depth := depth - 1;
        if depth < 0 || expectOperand {
          problems := problems + [UnbalancedClose];
        }
      } else if IsOperator(t) {
        if expectOperand {
          problems := problems + [OperatorWithoutOperand(t)];
        }
        expectOperand := true;
        afterWith := t == "WITH";
      } else {
        if !expectOperand {
          problems := problems + [MissingOperator(t)];
        }
        problems := problems + NameProblems(names, t, afterWith);
        expectOperand, afterWith := false, false;
      }
      assert State(depth, expectOperand, afterWith) == Next(s, t);
      assert problems == before + Found(names, s, t);
      ProblemsAt(names, s, tokens, i);
      Gathered(before, Found(names, s, t), Problems(names, Next(s, t), tokens[i + 1..]), Problems(names, START, tokens));
    }
    ProblemsEnd(names, State(depth, expectOperand, afterWith), tokens);
    if depth != 0 || expectOperand {
      problems := problems + [Incomplete];
    }
  }
}
