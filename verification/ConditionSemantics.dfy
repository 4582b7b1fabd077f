/** C's reading of #if expressions (6.10.1 of ISO/IEC 9899:2018), and that the
    checker's evaluation never contradicts it. */
module ConditionSemantics {
  import opened Options
  import opened Conditions

  /** An expression as its grammar gives it: || binds loosest, then &&, then !. */
  datatype Disj = OneConj(c: Conj) | Or(c: Conj, more: Disj)
  datatype Conj = OneAtom(a: Atom) | And(a: Atom, more: Conj)

  /** An operand is a token, or a token applied to further ones: a function-like
      macro and its arguments, or `defined X`. */
  datatype Atom = Not(a: Atom) | Paren(d: Disj) | Lit(t: Token) | Apply(t: Token, args: seq<Token>)

  predicate IsOperand(t: Token) {
    t.Flag? || t.Defined? || t.Word?
  }

  /** Operands are operands, and an applied one is followed by its arguments. */
  ghost predicate FormedAtom(a: Atom) {
    match a
    case Not(b) => FormedAtom(b)
    case Paren(d) => FormedDisj(d)
    case Lit(t) => IsOperand(t)
    case Apply(t, args) => IsOperand(t) && args != [] && (args[0] == LParen || IsOperand(args[0]))
  }

  ghost predicate FormedConj(c: Conj) {
    match c
    case OneAtom(a) => FormedAtom(a)
    case And(a, more) => FormedAtom(a) && FormedConj(more)
  }

  ghost predicate FormedDisj(d: Disj) {
    match d
    case OneConj(c) => FormedConj(c)
    case Or(c, more) => FormedConj(c) && FormedDisj(more)
  }

  // ----- as text

  function AtomTokens(a: Atom): seq<Token> {
    match a
    case Not(b) => [Bang] + AtomTokens(b)
    case Paren(d) => [LParen] + DisjTokens(d) + [RParen]
    case Lit(t) => [t]
    case Apply(t, args) => [t] + args
  }

  function ConjTokens(c: Conj): seq<Token> {
    match c
    case OneAtom(a) => AtomTokens(a)
    case And(a, more) => AtomTokens(a) + [AndAnd] + ConjTokens(more)
  }

  function DisjTokens(d: Disj): seq<Token> {
    match d
    case OneConj(c) => ConjTokens(c)
    case Or(c, more) => ConjTokens(c) + [OrOr] + DisjTokens(more)
  }

  // ----- C's value, given what every operand is

  /** The values of operands, and of expressions the checker cannot split into tokens. */
  datatype World = World(operand: Token -> bool, applied: (Token, seq<Token>) -> bool, other: string -> bool)

  /** The flags that name an operating system or its window system. */
  predicate IsOsFlag(name: string) {
    || name == "IS_LINUX" || name == "IS_POSIX" || name == "IS_MAC" || name == "IS_APPLE" || name == "IS_WIN"
    || name == "IS_CHROMEOS" || name == "IS_ANDROID" || name == "IS_IOS" || name == "IS_FUCHSIA" || name == "IS_OZONE_X11"
  }

  /** A world on the platform whose flags are set: BUILDFLAG of an operating system is true
      for its own flags and false for the others, 0 is false and 1 is true. */
  ghost predicate Fits(w: World, flags: set<string>) {
    && (forall name :: IsOsFlag(name) ==> (w.operand(Flag(name)) <==> name in flags))
    && !w.operand(Word("0")) && w.operand(Word("1"))
  }

  /** There are such worlds, whatever the other operands mean in them. */
  lemma SomeWorldFits(flags: set<string>, others: Token -> bool) returns (w: World)
    ensures Fits(w, flags)
    ensures forall t: Token :: !(t.Flag? && IsOsFlag(t.name)) && t != Word("0") && t != Word("1") ==> w.operand(t) == others(t)
  {
    w := World((t: Token) => if t.Flag? && IsOsFlag(t.name) then t.name in flags else if t == Word("0") then false else t == Word("1") || others(t),
               (t, args) => true, text => true);
  }

  function AtomTruth(a: Atom, w: World): bool {
    match a
    case Not(b) => !AtomTruth(b, w)
    case Paren(d) => DisjTruth(d, w)
    case Lit(t) => w.operand(t)
    case Apply(t, args) => w.applied(t, args)
  }

  function ConjTruth(c: Conj, w: World): bool {
    match c
    case OneAtom(a) => AtomTruth(a, w)
    case And(a, more) => AtomTruth(a, w) && ConjTruth(more, w)
  }

  function DisjTruth(d: Disj, w: World): bool {
    match d
    case OneConj(c) => ConjTruth(c, w)
    case Or(c, more) => ConjTruth(c, w) || DisjTruth(more, w)
  }

  // ----- strong Kleene values, with every applied operand unknown

  function And3(x: Tri, y: Tri): Tri {
    if x == Some(false) || y == Some(false) then Some(false)
    else if x == None || y == None then None else Some(true)
  }

  function Or3(x: Tri, y: Tri): Tri {
    if x == Some(true) || y == Some(true) then Some(true)
    else if x == None || y == None then None else Some(false)
  }

  function AtomKleene(a: Atom, flags: set<string>): Tri {
    match a
    case Not(b) => Negate(AtomKleene(b, flags))
    case Paren(d) => DisjKleene(d, flags)
    case Lit(t) => Operand(t, flags)
    case Apply(_, _) => None
  }

  function ConjKleene(c: Conj, flags: set<string>): Tri {
    match c
    case OneAtom(a) => AtomKleene(a, flags)
    case And(a, more) => And3(AtomKleene(a, flags), ConjKleene(more, flags))
  }

  function DisjKleene(d: Disj, flags: set<string>): Tri {
    match d
    case OneConj(c) => ConjKleene(c, flags)
    case Or(c, more) => Or3(ConjKleene(c, flags), DisjKleene(more, flags))
  }

  // ----- expressions without applied operands

  predicate PlainAtom(a: Atom) {
    match a
    case Not(b) => PlainAtom(b)
    case Paren(d) => PlainDisj(d)
    case Lit(_) => true
    case Apply(_, _) => false
  }

  predicate PlainConj(c: Conj) {
    match c
    case OneAtom(a) => PlainAtom(a)
    case And(a, more) => PlainAtom(a) && PlainConj(more)
  }

  predicate PlainDisj(d: Disj) {
    match d
    case OneConj(c) => PlainConj(c)
    case Or(c, more) => PlainConj(c) && PlainDisj(more)
  }

  lemma OneValue(v: Tri)
    ensures AllOf([v]) == v && AnyOf([v]) == v
  {
    match v
    case None =>
    case Some(b) => assert b || !b;
  }

  lemma AllOfCons(v: Tri, vs: seq<Tri>)
    ensures AllOf([v] + vs) == And3(v, AllOf(vs))
  {
    forall x ensures x in [v] + vs <==> x == v || x in vs {}
  }

  lemma AnyOfCons(v: Tri, vs: seq<Tri>)
    ensures AnyOf([v] + vs) == Or3(v, AnyOf(vs))
  {
    forall x ensures x in [v] + vs <==> x == v || x in vs {}
  }

  /** What may follow an operand, a conjunction, a disjunction. */
  predicate EndsConj(rest: seq<Token>) {
    rest == [] || rest[0] != AndAnd
  }

  predicate EndsDisj(rest: seq<Token>) {
    EndsConj(rest) && (rest == [] || rest[0] != OrOr)
  }

  // ----- a plain expression is parsed to its Kleene value

  lemma {:induction false} PlainAtomParsed(a: Atom, rest: seq<Token>, flags: set<string>)
    requires FormedAtom(a) && PlainAtom(a)
    ensures ParseAtom(AtomTokens(a) + rest, flags) == Got(AtomKleene(a, flags), rest)
    decreases a, 0
  {
    hide ParseDisj, ParseConjs, DisjTokens, FormedDisj, PlainDisj, DisjKleene;
    var toks := AtomTokens(a) + rest;
    match a
    case Not(b) =>
      PlainAtomParsed(b, rest, flags);
      assert toks[1..] == AtomTokens(b) + rest;
    case Paren(d) =>
      PlainDisjParsed(d, [RParen] + rest, flags);
      assert toks[1..] == DisjTokens(d) + ([RParen] + rest);
      assert ([RParen] + rest)[1..] == rest;
    case Lit(t) =>
      assert toks[1..] == rest;
    case Apply(_, _) =>
  }

  /** The values of the operands of c, as ParseAtoms collects them. */
  function AtomValues(c: Conj, flags: set<string>): (vs: seq<Tri>)
    ensures vs != []
  {
    match c
    case OneAtom(a) => [AtomKleene(a, flags)]
    case And(a, more) => [AtomKleene(a, flags)] + AtomValues(more, flags)
  }

  lemma {:induction false} AtomValuesKleene(c: Conj, flags: set<string>)
    ensures AllOf(AtomValues(c, flags)) == ConjKleene(c, flags)
  {
    match c
    case OneAtom(a) =>
      OneValue(AtomKleene(a, flags));
    case And(a, more) =>
      AtomValuesKleene(more, flags);
      AllOfCons(AtomKleene(a, flags), AtomValues(more, flags));
  }

  lemma {:induction false} PlainAtomsParsed(c: Conj, rest: seq<Token>, flags: set<string>)
    requires FormedConj(c) && PlainConj(c) && EndsConj(rest)
    ensures ParseAtoms(ConjTokens(c) + rest, flags) == Got(AtomValues(c, flags), rest)
    decreases c, 1
  {
    hide ParseAtom, AtomTokens, FormedAtom, PlainAtom, AtomKleene;
    match c
    case OneAtom(a) =>
      PlainAtomParsed(a, rest, flags);
    case And(a, more) =>
      var after := [AndAnd] + (ConjTokens(more) + rest);
      PlainAtomParsed(a, after, flags);
      PlainAtomsParsed(more, rest, flags);
      assert ConjTokens(c) + rest == AtomTokens(a) + after;
      assert after[1..] == ConjTokens(more) + rest;
  }

  function ConjValues(d: Disj, flags: set<string>): (vs: seq<Tri>)
    ensures vs != []
  {
    match d
    case OneConj(c) => [ConjKleene(c, flags)]
    case Or(c, more) => [ConjKleene(c, flags)] + ConjValues(more, flags)
  }

  lemma {:induction false} ConjValuesKleene(d: Disj, flags: set<string>)
    ensures AnyOf(ConjValues(d, flags)) == DisjKleene(d, flags)
  {
    match d
    case OneConj(c) =>
      OneValue(ConjKleene(c, flags));
    case Or(c, more) =>
      ConjValuesKleene(more, flags);
      AnyOfCons(ConjKleene(c, flags), ConjValues(more, flags));
  }

  lemma {:induction false} PlainConjsParsed(d: Disj, rest: seq<Token>, flags: set<string>)
    requires FormedDisj(d) && PlainDisj(d) && EndsDisj(rest)
    ensures ParseConjs(DisjTokens(d) + rest, flags) == Got(ConjValues(d, flags), rest)
    decreases d, 1
  {
    hide ParseAtoms, ConjTokens, FormedConj, PlainConj, ConjKleene, AllOf;
    match d
    case OneConj(c) =>
      PlainAtomsParsed(c, rest, flags);
      AtomValuesKleene(c, flags);
    case Or(c, more) =>
      var after := [OrOr] + (DisjTokens(more) + rest);
      PlainAtomsParsed(c, after, flags);
      AtomValuesKleene(c, flags);
      PlainConjsParsed(more, rest, flags);
      assert DisjTokens(d) + rest == ConjTokens(c) + after;
      assert after[1..] == DisjTokens(more) + rest;
  }

  lemma {:induction false} PlainDisjParsed(d: Disj, rest: seq<Token>, flags: set<string>)
    requires FormedDisj(d) && PlainDisj(d) && EndsDisj(rest)
    ensures ParseDisj(DisjTokens(d) + rest, flags) == Got(DisjKleene(d, flags), rest)
    decreases d, 2
  {
    PlainConjsParsed(d, rest, flags);
    ConjValuesKleene(d, flags);
  }

  // ----- an applied operand stops the parser

  /** The parser failed, or stopped before something that no level can go on with. */
  predicate Stuck<T>(r: Parse<T>) {
    r.Got? ==> r.rest != [] && (r.rest[0] == LParen || IsOperand(r.rest[0]))
  }

  lemma {:induction false} AppliedAtomStops(a: Atom, rest: seq<Token>, flags: set<string>)
    requires FormedAtom(a) && !PlainAtom(a)
    ensures Stuck(ParseAtom(AtomTokens(a) + rest, flags))
    decreases a, 0
  {
    hide ParseConjs, DisjTokens, FormedDisj, PlainDisj;
    var toks := AtomTokens(a) + rest;
    match a
    case Not(b) =>
      AppliedAtomStops(b, rest, flags);
      assert toks[1..] == AtomTokens(b) + rest;
    case Paren(d) =>
      AppliedDisjStops(d, [RParen] + rest, flags);
      assert toks[1..] == DisjTokens(d) + ([RParen] + rest);
    case Lit(_) =>
    case Apply(t, args) =>
      assert toks[1..] == args + rest;
  }

  lemma {:induction false} AppliedConjStops(c: Conj, rest: seq<Token>, flags: set<string>)
    requires FormedConj(c) && !PlainConj(c)
    ensures Stuck(ParseAtoms(ConjTokens(c) + rest, flags))
    decreases c, 1
  {
    hide ParseAtom, AtomTokens, FormedAtom, PlainAtom, AtomKleene;
    match c
    case OneAtom(a) =>
      AppliedAtomStops(a, rest, flags);
    case And(a, more) =>
      var after := [AndAnd] + (ConjTokens(more) + rest);
      assert ConjTokens(c) + rest == AtomTokens(a) + after;
      if PlainAtom(a) {
        PlainAtomParsed(a, after, flags);
        AppliedConjStops(more, rest, flags);
        assert after[1..] == ConjTokens(more) + rest;
      } else {
        AppliedAtomStops(a, after, flags);
      }
  }

  lemma {:induction false} AppliedDisjStops(d: Disj, rest: seq<Token>, flags: set<string>)
    requires FormedDisj(d) && !PlainDisj(d)
    ensures Stuck(ParseConjs(DisjTokens(d) + rest, flags))
    decreases d, 1
  {
    hide ParseAtoms, ConjTokens, FormedConj, PlainConj, ConjKleene, AllOf;
    match d
    case OneConj(c) =>
      AppliedConjStops(c, rest, flags);
    case Or(c, more) =>
      var after := [OrOr] + (DisjTokens(more) + rest);
      assert DisjTokens(d) + rest == ConjTokens(c) + after;
      if PlainConj(c) {
        PlainAtomsParsed(c, after, flags);
        AppliedDisjStops(more, rest, flags);
        assert after[1..] == DisjTokens(more) + rest;
      } else {
        AppliedConjStops(c, after, flags);
      }
  }

  // ----- the checker's evaluation

  /** eval_condition gives the strong Kleene value, or unknown when an operand is applied. */
  lemma EvalIsKleene(d: Disj, flags: set<string>)
    requires FormedDisj(d)
    ensures EvalTokens(DisjTokens(d), flags) == if PlainDisj(d) then DisjKleene(d, flags) else None
  {
    assert DisjTokens(d) + [] == DisjTokens(d);
    if PlainDisj(d) {
      PlainDisjParsed(d, [], flags);
    } else {
      AppliedDisjStops(d, [], flags);
    }
  }

  lemma {:induction false} AtomSound(a: Atom, flags: set<string>, w: World)
    requires Fits(w, flags) && AtomKleene(a, flags).Some?
    ensures AtomKleene(a, flags) == Some(AtomTruth(a, w))
    decreases a, 0
  {
    match a
    case Not(b) => AtomSound(b, flags, w);
    case Paren(d) => DisjSound(d, flags, w);
    case Lit(t) =>
    case Apply(_, _) =>
  }

  lemma {:induction false} ConjSound(c: Conj, flags: set<string>, w: World)
    requires Fits(w, flags) && ConjKleene(c, flags).Some?
    ensures ConjKleene(c, flags) == Some(ConjTruth(c, w))
    decreases c, 1
  {
    match c
    case OneAtom(a) => AtomSound(a, flags, w);
    case And(a, more) =>
      if AtomKleene(a, flags).Some? { AtomSound(a, flags, w); }
      if ConjKleene(more, flags).Some? { ConjSound(more, flags, w); }
  }

  lemma {:induction false} DisjSound(d: Disj, flags: set<string>, w: World)
    requires Fits(w, flags) && DisjKleene(d, flags).Some?
    ensures DisjKleene(d, flags) == Some(DisjTruth(d, w))
    decreases d, 1
  {
    match d
    case OneConj(c) => ConjSound(c, flags, w);
    case Or(c, more) =>
      if ConjKleene(c, flags).Some? { ConjSound(c, flags, w); }
      if DisjKleene(more, flags).Some? { DisjSound(more, flags, w); }
  }

  /** Whatever the unknown operands are, a value that eval_condition gives is C's. */
  lemma EvalSound(d: Disj, flags: set<string>, w: World)
    requires FormedDisj(d) && Fits(w, flags)
    ensures EvalTokens(DisjTokens(d), flags).Some? ==> EvalTokens(DisjTokens(d), flags).value == DisjTruth(d, w)
  {
    EvalIsKleene(d, flags);
    if PlainDisj(d) && DisjKleene(d, flags).Some? {
      DisjSound(d, flags, w);
    }
  }

  // ----- expressions of known flags, 0 and 1 alone

  predicate KnownAtom(a: Atom) {
    match a
    case Not(b) => KnownAtom(b)
    case Paren(d) => KnownDisj(d)
    case Lit(t) => (t.Flag? && IsOsFlag(t.name)) || t == Word("0") || t == Word("1")
    case Apply(_, _) => false
  }

  predicate KnownConj(c: Conj) {
    match c
    case OneAtom(a) => KnownAtom(a)
    case And(a, more) => KnownAtom(a) && KnownConj(more)
  }

  predicate KnownDisj(d: Disj) {
    match d
    case OneConj(c) => KnownConj(c)
    case Or(c, more) => KnownConj(c) && KnownDisj(more)
  }

  /** The checker knows an operand exactly when it is the flag of an operating system, 0 or
      1, and then it knows what that means on the platform. */
  lemma OperandIff(t: Token, flags: set<string>)
    ensures Operand(t, flags) == None <==> !((t.Flag? && IsOsFlag(t.name)) || t == Word("0") || t == Word("1"))
    ensures forall w :: Fits(w, flags) && Operand(t, flags).Some? ==> Operand(t, flags) == Some(w.operand(t))
  {
  }

  lemma {:induction false} KnownAtomSome(a: Atom, flags: set<string>)
    requires KnownAtom(a)
    ensures PlainAtom(a) && AtomKleene(a, flags).Some?
    decreases a, 0
  {
    match a
    case Not(b) => KnownAtomSome(b, flags);
    case Paren(d) => KnownDisjSome(d, flags);
    case Lit(t) =>
    case Apply(_, _) =>
  }

  lemma {:induction false} KnownConjSome(c: Conj, flags: set<string>)
    requires KnownConj(c)
    ensures PlainConj(c) && ConjKleene(c, flags).Some?
    decreases c, 1
  {
    match c
    case OneAtom(a) => KnownAtomSome(a, flags);
    case And(a, more) => KnownAtomSome(a, flags); KnownConjSome(more, flags);
  }

  lemma {:induction false} KnownDisjSome(d: Disj, flags: set<string>)
    requires KnownDisj(d)
    ensures PlainDisj(d) && DisjKleene(d, flags).Some?
    decreases d, 1
  {
    match d
    case OneConj(c) => KnownConjSome(c, flags);
    case Or(c, more) => KnownConjSome(c, flags); KnownDisjSome(more, flags);
  }

  /** An expression of known flags, 0 and 1 gets exactly C's value. */
  lemma EvalExact(d: Disj, flags: set<string>, w: World)
    requires FormedDisj(d) && KnownDisj(d) && Fits(w, flags)
    ensures EvalTokens(DisjTokens(d), flags) == Some(DisjTruth(d, w))
  {
    KnownDisjSome(d, flags);
    EvalIsKleene(d, flags);
    EvalSound(d, flags, w);
  }
}
