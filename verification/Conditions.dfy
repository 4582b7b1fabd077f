/** #if expressions: the checker's three-valued evaluation against C's. */
module Conditions {
  import opened Options

  /** A truth value, or None for unknown. */
  type Tri = Option<bool>

  /** The tokens of an expression: BUILDFLAG(name), defined(name), operators,
      parentheses and words (identifiers and numbers). */
  datatype Token = Flag(name: string) | Defined(name: string) | OrOr | AndAnd | Bang | LParen | RParen | Word(text: string)

  const KNOWN_OS_FLAGS: set<string> := {"IS_LINUX", "IS_POSIX", "IS_MAC", "IS_APPLE", "IS_WIN", "IS_CHROMEOS",
    "IS_ANDROID", "IS_IOS", "IS_FUCHSIA", "IS_OZONE_X11"}

  /** What the checker knows about a single operand. */
  function Operand(t: Token, flags: set<string>): Tri {
    match t
    case Flag(name) => if name in KNOWN_OS_FLAGS then Some(name in flags) else None
    case Word(text) => if text == "0" then Some(false) else if text == "1" then Some(true) else None
    case _ => None
  }

  function Negate(v: Tri): Tri {
    match v case None => None case Some(b) => Some(!b)
  }

  function AllOf(vals: seq<Tri>): Tri {
    if Some(false) in vals then Some(false) else if None in vals then None else Some(true)
  }

  function AnyOf(vals: seq<Tri>): Tri {
    if Some(true) in vals then Some(true) else if None in vals then None else Some(false)
  }

  // ----- the parser, as functions of the tokens left

  datatype Parse<T> = Fail | Got(v: T, rest: seq<Token>)

  function ParseAtom(toks: seq<Token>, flags: set<string>): (r: Parse<Tri>)
    ensures r.Got? ==> |r.rest| < |toks|
    decreases |toks|, 0
  {
    if toks == [] then Fail
    else match toks[0]
      case Bang =>
        (match ParseAtom(toks[1..], flags)
         case Fail => Fail
         case Got(v, rest) => Got(Negate(v), rest))
      case LParen =>
        (match ParseDisj(toks[1..], flags)
         case Fail => Fail
         case Got(v, rest) => if rest != [] && rest[0] == RParen then Got(v, rest[1..]) else Fail)
      case t => Got(Operand(t, flags), toks[1..])
  }

  /** The operands joined by &&. */
  function ParseAtoms(toks: seq<Token>, flags: set<string>): (r: Parse<seq<Tri>>)
    ensures r.Got? ==> |r.rest| < |toks|
    decreases |toks|, 1
  {
    match ParseAtom(toks, flags)
    case Fail => Fail
    case Got(v, rest) =>
      if rest == [] || rest[0] != AndAnd then Got([v], rest)
      else match ParseAtoms(rest[1..], flags)
        case Fail => Fail
        case Got(vs, rest') => Got([v] + vs, rest')
  }

  function ParseConj(toks: seq<Token>, flags: set<string>): (r: Parse<Tri>)
    ensures r.Got? ==> |r.rest| < |toks|
    decreases |toks|, 2
  {
    match ParseAtoms(toks, flags)
    case Fail => Fail
    case Got(vs, rest) => Got(AllOf(vs), rest)
  }

  /** The conjunctions joined by ||. */
  function ParseConjs(toks: seq<Token>, flags: set<string>): (r: Parse<seq<Tri>>)
    ensures r.Got? ==> |r.rest| < |toks|
    decreases |toks|, 3
  {
    match ParseConj(toks, flags)
    case Fail => Fail
    case Got(v, rest) =>
      if rest == [] || rest[0] != OrOr then Got([v], rest)
      else match ParseConjs(rest[1..], flags)
        case Fail => Fail
        case Got(vs, rest') => Got([v] + vs, rest')
  }

  function ParseDisj(toks: seq<Token>, flags: set<string>): (r: Parse<Tri>)
    ensures r.Got? ==> |r.rest| < |toks|
    decreases |toks|, 4
  {
    match ParseConjs(toks, flags)
    case Fail => Fail
    case Got(vs, rest) => Got(AnyOf(vs), rest)
  }

  function EvalTokens(toks: seq<Token>, flags: set<string>): Tri {
    match ParseDisj(toks, flags)
    case Fail => None
    case Got(v, rest) => if rest == [] then v else None
  }

  // ----- the parser, as the checker runs it: a cursor that moves over the tokens

  class Cursor {
    const toks: seq<Token>
    const flags: set<string>
    var i: nat

    constructor (toks: seq<Token>, flags: set<string>)
      ensures this.toks == toks && this.flags == flags && i == 0
    {
      this.toks, this.flags, i := toks, flags, 0;
    }

    ghost predicate Valid()
      reads this
    {
      i <= |toks|
    }

    predicate Peek(t: Token)
      requires Valid()
      reads this
    {
      i < |toks| && toks[i] == t
    }

    method Atom() returns (ok: bool, v: Tri)
      requires Valid()
      modifies this
      ensures ok <==> ParseAtom(toks[old(i)..], flags).Got?
      ensures ok ==> Valid() && i > old(i) && ParseAtom(toks[old(i)..], flags) == Got(v, toks[i..])
      decreases |toks| - i, 0
    {
      if i == |toks| { return false, None; }
      var t := toks[i];
      i := i + 1;
      assert toks[old(i)..][1..] == toks[i..];
      if t == Bang {
        ok, v := Atom();
        return ok, Negate(v);
      }
      if t == LParen {
        ok, v := Disj();
        if !ok || !Peek(RParen) { return false, None; }
        assert toks[i..][1..] == toks[i + 1..];
        i := i + 1;
        return true, v;
      }
      return true, Operand(t, flags);
    }

    method Conj() returns (ok: bool, v: Tri)
      requires Valid()
      modifies this
      ensures ok <==> ParseConj(toks[old(i)..], flags).Got?
      ensures ok ==> Valid() && i > old(i) && ParseConj(toks[old(i)..], flags) == Got(v, toks[i..])
      decreases |toks| - i, 1
    {
      ghost var start := toks[i..];
      ok, v := Atom();
      if !ok { return; }
      var vals := [v];
      while Peek(AndAnd)
        invariant Valid() && i > old(i)
        invariant ParseAtoms(start, flags) == AtomsAfter(vals, toks[i..], flags)
        decreases |toks| - i
      {
        assert toks[i..][1..] == toks[i + 1..];
        AtomsStep(vals, toks[i..], flags);
        i := i + 1;
        ok, v := Atom();
        if !ok { return; }
        vals := vals + [v];
      }
      return true, AllOf(vals);
    }

    method Disj() returns (ok: bool, v: Tri)
      requires Valid()
      modifies this
      ensures ok <==> ParseDisj(toks[old(i)..], flags).Got?
      ensures ok ==> Valid() && i > old(i) && ParseDisj(toks[old(i)..], flags) == Got(v, toks[i..])
      decreases |toks| - i, 2
    {
      ghost var start := toks[i..];
      ok, v := Conj();
      if !ok { return; }
      var vals := [v];
      while Peek(OrOr)
        invariant Valid() && i > old(i)
        invariant ParseConjs(start, flags) == ConjsAfter(vals, toks[i..], flags)
        decreases |toks| - i
      {
        assert toks[i..][1..] == toks[i + 1..];
        ConjsStep(vals, toks[i..], flags);
        i := i + 1;
        ok, v := Conj();
        if !ok { return; }
        vals := vals + [v];
      }
      return true, AnyOf(vals);
    }
  }

  /** With vals read and rest left: either a further && and more operands, or the end. */
  ghost function AtomsAfter(vals: seq<Tri>, rest: seq<Token>, flags: set<string>): Parse<seq<Tri>> {
    if rest == [] || rest[0] != AndAnd then Got(vals, rest)
    else match ParseAtoms(rest[1..], flags)
      case Fail => Fail
      case Got(vs, rest') => Got(vals + vs, rest')
  }

  ghost function ConjsAfter(vals: seq<Tri>, rest: seq<Token>, flags: set<string>): Parse<seq<Tri>> {
    if rest == [] || rest[0] != OrOr then Got(vals, rest)
    else match ParseConjs(rest[1..], flags)
      case Fail => Fail
      case Got(vs, rest') => Got(vals + vs, rest')
  }

  lemma AtomsStep(vals: seq<Tri>, rest: seq<Token>, flags: set<string>)
    requires rest != [] && rest[0] == AndAnd
    ensures match ParseAtom(rest[1..], flags)
            case Fail => AtomsAfter(vals, rest, flags) == Fail
            case Got(v, rest') => AtomsAfter(vals, rest, flags) == AtomsAfter(vals + [v], rest', flags)
  {
    match ParseAtom(rest[1..], flags)
    case Fail =>
    case Got(v, rest') =>
      if rest' != [] && rest'[0] == AndAnd {
        match ParseAtoms(rest'[1..], flags)
        case Fail =>
        case Got(vs, _) => assert vals + ([v] + vs) == vals + [v] + vs;
      }
  }

  lemma ConjsStep(vals: seq<Tri>, rest: seq<Token>, flags: set<string>)
    requires rest != [] && rest[0] == OrOr
    ensures match ParseConj(rest[1..], flags)
            case Fail => ConjsAfter(vals, rest, flags) == Fail
            case Got(v, rest') => ConjsAfter(vals, rest, flags) == ConjsAfter(vals + [v], rest', flags)
  {
    match ParseConj(rest[1..], flags)
    case Fail =>
    case Got(v, rest') =>
      if rest' != [] && rest'[0] == OrOr {
        match ParseConjs(rest'[1..], flags)
        case Fail =>
        case Got(vs, _) => assert vals + ([v] + vs) == vals + [v] + vs;
      }
  }

  method EvalCondition(toks: seq<Token>, flags: set<string>) returns (v: Tri)
    ensures v == EvalTokens(toks, flags)
  {
    var cursor := new Cursor(toks, flags);
    assert toks[0..] == toks;
    var ok;
    ok, v := cursor.Disj();
    if !ok || cursor.i < |toks| { return None; }
  }
}
