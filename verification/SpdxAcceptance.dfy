/** What the expressions made from free-form names are worth to the checker: when they are
    accepted, that they stay accepted, and that every part of a list is one operand. */
module SpdxAcceptance {
  import opened Options
  import opened Strings
  import opened SpdxTokens
  import opened SpdxExpression
  import opened SpdxNaming
  import opened SpdxLicenses

  // ------------------------------------------------------------- reading operators

  lemma GrowsTrans(a: Refs, b: Refs, c: Refs)
    requires Grows(a, b) && Grows(b, c)
    ensures Grows(a, c)
  {
  }

  lemma SpellIsToken(st: Setting, refs: Refs, t: string, origin: string, afterWith: bool)
    requires ValidSetting(st) && ValidRefs(refs)
    ensures var o := Spell(st, refs, t, origin, afterWith);
            && ValidRefs(o.refs) && Grows(refs, o.refs)
            && (o.value.Some? ==> IsToken(o.value.value))
            && (IsOperator(st.upper(t)) ==> o.value.Some? && IsOperator(o.value.value))
  {
    if t != "(" && t != ")" && !IsOperator(st.upper(t)) && !afterWith {
      IdIsLicense(st, refs, t, origin);
    }
  }

  lemma {:induction false} TranslateGrows(st: Setting, refs: Refs, tokens: seq<string>, origin: string, afterWith: bool)
    requires ValidSetting(st) && ValidRefs(refs)
    ensures var o := Translate(st, refs, tokens, origin, afterWith);
            && ValidRefs(o.refs) && Grows(refs, o.refs)
            && (o.value.Some? ==> |o.value.value| == |tokens| && AllTokens(o.value.value))
    decreases |tokens|
  {
    hide ValidSetting, ValidRefs, Spell, IsToken, IsOperator, IsWith;
    if tokens != [] {
      SpellIsToken(st, refs, tokens[0], origin, afterWith);
      var o := Spell(st, refs, tokens[0], origin, afterWith);
      TranslateGrows(st, o.refs, tokens[1..], origin, IsWith(st, tokens[0]));
    }
  }

  lemma {:induction false} OperatorStays(st: Setting, refs: Refs, tokens: seq<string>, origin: string, afterWith: bool, i: nat)
    requires ValidSetting(st) && ValidRefs(refs)
    requires i < |tokens| && IsOperator(st.upper(tokens[i]))
    ensures var o := Translate(st, refs, tokens, origin, afterWith);
            o.value.Some? ==> i < |o.value.value| && IsOperator(o.value.value[i])
    decreases |tokens|
  {
    hide ValidSetting, ValidRefs, Spell, IsToken, IsOperator, IsWith;
    SpellIsToken(st, refs, tokens[0], origin, afterWith);
    if i > 0 {
      var o := Spell(st, refs, tokens[0], origin, afterWith);
      OperatorStays(st, o.refs, tokens[1..], origin, IsWith(st, tokens[0]), i - 1);
    }
  }

  /** In what the checker accepts, no operator comes first or right after a parenthesis opens. */
  lemma {:induction false} OperatorAfterOperand(names: Names, s: State, tokens: seq<string>, i: nat)
    requires Problems(names, s, tokens) == [] && i < |tokens| && IsOperator(tokens[i])
    ensures if i == 0 then !s.expectOperand else tokens[i - 1] != "("
    decreases |tokens|
  {
    hide Problems, NameProblems;
    CleanStep(names, s, tokens);
    if i > 0 {
      OperatorAfterOperand(names, Next(s, tokens[0]), tokens[1..], i - 1);
    }
  }

  /** An expression is found in raw exactly when it has an operator, every token has a spelling and
      the checker accepts the spellings. */
  lemma AsExpressionIff(st: Setting, refs: Refs, raw: string, origin: string)
    requires ValidSetting(st) && ValidRefs(refs)
    ensures var tokens := Tokens(Slashes(raw));
            var spelt := Translate(st, refs, tokens, origin, false);
            var o := AsExpression(st, refs, raw, origin);
            && (o.value.Some? <==>
                  && HasOperator(st, tokens) && spelt.value.Some?
                  && Problems(NamesOf(st, spelt.refs), START, spelt.value.value) == [])
            && (o.value.Some? ==>
                  && o.refs == spelt.refs && o.value.value == Printed(spelt.value.value)
                  && ' ' in o.value.value && Tokens(o.value.value) == spelt.value.value)
            && ValidRefs(o.refs) && Grows(refs, o.refs)
  {
    var tokens := Tokens(Slashes(raw));
    var spelt := Translate(st, refs, tokens, origin, false);
    TranslateGrows(st, refs, tokens, origin, false);
    if HasOperator(st, tokens) && spelt.value.Some? {
      var i :| 0 <= i < |tokens| && IsOperator(st.upper(tokens[i]));
      OperatorStays(st, refs, tokens, origin, false, i);
      PrintedReads(NamesOf(st, spelt.refs), spelt.value.value, i);
    }
  }

  lemma ProblemsOfTokens(names: Names, expr: string, tokens: seq<string>)
    requires expr != "NONE" && expr != "NOASSERTION" && Tokens(expr) == tokens && tokens != []
    ensures ProblemsOf(names, expr) == Problems(names, START, tokens)
  {
  }

  lemma NotNothing(expr: string, t: string)
    requires t in Tokens(expr) && t != "NONE" && t != "NOASSERTION"
    ensures expr != "NONE" && expr != "NOASSERTION"
  {
    hide Tokens;
    if expr == "NONE" {
      TokensOfWord("NONE");
    } else if expr == "NOASSERTION" {
      TokensOfWord("NOASSERTION");
    }
  }

  lemma OperatorSpaced(out: seq<string>, i: nat)
    requires AllTokens(out) && 0 < i < |out| && IsOperator(out[i]) && out[i - 1] != "("
    ensures ' ' in Printed(out)
  {
    var a, b := out[..i], out[i..];
    assert a + b == out && b[0] == out[i] && a[|a| - 1] == out[i - 1];
    PrintedHasSpace(a, b);
  }

  lemma PrintedReads(names: Names, out: seq<string>, i: nat)
    requires AllTokens(out) && i < |out| && IsOperator(out[i])
    ensures Tokens(Printed(out)) == out
    ensures ProblemsOf(names, Printed(out)) == Problems(names, START, out)
    ensures Problems(names, START, out) == [] ==> ' ' in Printed(out)
  {
    hide Tokens, Problems, Tighten, Join, AllTokens, ProblemsOf;
    TokensOfTightened(out);
    NotNothing(Printed(out), out[i]);
    ProblemsOfTokens(names, Printed(out), out);
    if Problems(names, START, out) == [] {
      OperatorAfterOperand(names, START, out, i);
      OperatorSpaced(out, i);
    }
  }

  // ------------------------------------------------------------- what was declared before does not matter

  /** The same spellings up to which references stand where. */
  ghost predicate Alike(refs: Refs, other: Refs, a: seq<string>, b: seq<string>) {
    |a| == |b| && forall i :: 0 <= i < |a| ==> AlikeAt(refs, other, a[i], b[i])
  }

  ghost predicate AlikeAt(refs: Refs, other: Refs, x: string, y: string) {
    (x == y && !(REF_PREFIX <= x)) || (IsRef(x) && IsRef(y) && x in refs && y in other)
  }

  lemma SpellAlike(st: Setting, refs: Refs, other: Refs, t: string, origin: string, origin': string, afterWith: bool)
    requires ValidSetting(st) && ValidRefs(refs) && ValidRefs(other)
    ensures var a, b := Spell(st, refs, t, origin, afterWith), Spell(st, other, t, origin', afterWith);
            && (a.value.Some? <==> b.value.Some?)
            && (a.value.Some? ==> AlikeAt(a.refs, b.refs, a.value.value, b.value.value))
  {
    if t != "(" && t != ")" && !IsOperator(st.upper(t)) && !afterWith {
      match Read(st, t)
      case Listed(id) =>
        ListedIsWord(st, id);
      case Reference(name) =>
        RefIsDeclared(st, refs, name, origin);
        RefIsDeclared(st, other, name, origin');
      case Unreadable =>
    }
  }

  lemma AlikePut(refs: Refs, other: Refs, later: Refs, later': Refs, x: string, y: string, a: seq<string>, b: seq<string>)
    requires AlikeAt(refs, other, x, y) && Alike(later, later', a, b)
    requires Grows(refs, later) && Grows(other, later')
    ensures Alike(later, later', [x] + a, [y] + b)
  {
    forall i | 0 <= i < |[x] + a| ensures AlikeAt(later, later', ([x] + a)[i], ([y] + b)[i]) {
      if i > 0 {
        assert ([x] + a)[i] == a[i - 1] && ([y] + b)[i] == b[i - 1];
      }
    }
  }

  lemma {:induction false} TranslateAlike(st: Setting, refs: Refs, other: Refs, tokens: seq<string>, origin: string,
                                          origin': string, afterWith: bool)
    requires ValidSetting(st) && ValidRefs(refs) && ValidRefs(other)
    ensures var a, b := Translate(st, refs, tokens, origin, afterWith), Translate(st, other, tokens, origin', afterWith);
            && (a.value.Some? <==> b.value.Some?)
            && (a.value.Some? ==> Alike(a.refs, b.refs, a.value.value, b.value.value))
    decreases |tokens|
  {
    if tokens != [] {
      hide ValidSetting, ValidRefs, Spell, AlikeAt, Alike, Grows, IsToken, AllTokens, IsWith;
      var t, rest := tokens[0], tokens[1..];
      SpellAlike(st, refs, other, t, origin, origin', afterWith);
      SpellIsToken(st, refs, t, origin, afterWith);
      SpellIsToken(st, other, t, origin', afterWith);
      var a, b := Spell(st, refs, t, origin, afterWith), Spell(st, other, t, origin', afterWith);
      if a.value.Some? {
        TranslateAlike(st, a.refs, b.refs, rest, origin, origin', IsWith(st, t));
        TranslateGrows(st, a.refs, rest, origin, IsWith(st, t));
        TranslateGrows(st, b.refs, rest, origin', IsWith(st, t));
        var ra, rb := Translate(st, a.refs, rest, origin, IsWith(st, t)), Translate(st, b.refs, rest, origin', IsWith(st, t));
        if ra.value.Some? {
          AlikePut(a.refs, b.refs, ra.refs, rb.refs, a.value.value, b.value.value, ra.value.value, rb.value.value);
        }
      }
    }
  }

  lemma {:induction false} ProblemsAlike(st: Setting, refs: Refs, other: Refs, s: State, a: seq<string>, b: seq<string>)
    requires ValidSetting(st) && Alike(refs, other, a, b)
    ensures Problems(NamesOf(st, refs), s, a) == [] <==> Problems(NamesOf(st, other), s, b) == []
    decreases |a|
  {
    if a != [] {
      FoundAlike(st, refs, other, s, a[0], b[0]);
      ProblemsAlike(st, refs, other, Next(s, a[0]), a[1..], b[1..]);
    }
  }

  lemma FoundAlike(st: Setting, refs: Refs, other: Refs, s: State, x: string, y: string)
    requires ValidSetting(st) && AlikeAt(refs, other, x, y)
    ensures Found(NamesOf(st, refs), s, x) == [] <==> Found(NamesOf(st, other), s, y) == []
    ensures Next(s, x) == Next(s, y)
  {
    if x != y || REF_PREFIX <= x {
      RefIsWord(x);
      RefIsWord(y);
    }
  }

  /** Whether a text reads as an expression, told without any reference declared. */
  predicate IsCompound(st: Setting, raw: string) {
    AsExpression(st, map[], raw, "").value.Some?
  }

  /** What was declared before never decides it. */
  lemma CompoundAnyRefs(st: Setting, refs: Refs, raw: string, origin: string)
    requires ValidSetting(st) && ValidRefs(refs)
    ensures AsExpression(st, refs, raw, origin).value.Some? <==> IsCompound(st, raw)
  {
    var tokens := Tokens(Slashes(raw));
    var a := Translate(st, refs, tokens, origin, false);
    var b := Translate(st, map[], tokens, "", false);
    AsExpressionIff(st, refs, raw, origin);
    AsExpressionIff(st, map[], raw, "");
    TranslateAlike(st, refs, map[], tokens, origin, "", false);
    if a.value.Some? {
      ProblemsAlike(st, a.refs, b.refs, START, a.value.value, b.value.value);
    }
  }

  // ------------------------------------------------------------- lists

  /** A text the checker can use as one operand under these names. */
  ghost predicate Operand(names: Names, e: string) {
    || (IsLicense(names, e) && e != "NONE" && e != "NOASSERTION")
    || (' ' in e && Derivable(names, Tokens(e)))
  }

  /** t is e as one operand of a larger expression: its name, or its own tree in parentheses. */
  ghost predicate Stands(names: Names, e: string, t: Term) {
    && TermOk(names, t, false) && Tokens(Wrap(e)) == TermTokens(t)
    && (t.Name? ==> t.id == e)
    && (t.Group? ==> ' ' in e && ExprTokens(t.inner) == Tokens(e))
  }

  lemma TokensInParens(e: string)
    ensures Tokens("(" + e + ")") == ["("] + Tokens(e) + [")"]
  {
    TokensApart("(", e + ")");
    TokensApart(e, ")");
    TokensOfToken("(");
    TokensOfToken(")");
    assert "(" + e + ")" == "(" + (e + ")");
  }

  lemma OperandStands(names: Names, e: string) returns (t: Term)
    requires Operand(names, e)
    ensures Stands(names, e, t)
  {
    if ' ' in e {
      var i :| 0 <= i < |e| && e[i] == ' ';
      assert !IsWordChar(e[i]);
      var tree :| ExprOk(names, tree, false) && ExprTokens(tree) == Tokens(e);
      TokensInParens(e);
      t := Group(tree);
    } else {
      TokensOfWord(e);
      t := Name(e);
    }
  }

  /** The terms joined by AND. */
  function AndChain(terms: seq<Term>): Expr
    requires terms != []
  {
    if |terms| == 1 then One(terms[0]) else More(terms[0], "AND", AndChain(terms[1..]))
  }

  function JoinedByAnd(list: seq<string>): string {
    Join(Wrapped(list), " AND ")
  }

  lemma JoinedTokens(list: seq<string>)
    requires |list| > 1
    ensures Tokens(JoinedByAnd(list)) == Tokens(Wrap(list[0])) + (["AND"] + Tokens(JoinedByAnd(list[1..])))
  {
    var first, rest := Wrap(list[0]), JoinedByAnd(list[1..]);
    assert Wrapped(list)[1..] == Wrapped(list[1..]);
    assert JoinedByAnd(list) == first + " " + ("AND" + " " + rest);
    TokensSpaced(first, "AND" + " " + rest);
    TokensSpaced("AND", rest);
    TokensOfWord("AND");
  }

  lemma JoinedAlone(list: seq<string>)
    requires |list| == 1
    ensures JoinedByAnd(list) == Wrap(list[0])
  {
    assert Wrapped(list) == [Wrap(list[0])];
  }

  lemma ChainStep(names: Names, t: Term, more: seq<Term>)
    requires TermOk(names, t, false) && more != [] && ExprOk(names, AndChain(more), false)
    ensures ExprTokens(AndChain([t] + more)) == TermTokens(t) + (["AND"] + ExprTokens(AndChain(more)))
    ensures ExprOk(names, AndChain([t] + more), false)
  {
    hide ExprTokens, TermTokens, ExprOk, TermOk, AndChain;
    AndChainMore(t, more);
    MoreAre(names, t, AndChain(more));
  }

  lemma AndChainMore(t: Term, more: seq<Term>)
    requires more != []
    ensures AndChain([t] + more) == More(t, "AND", AndChain(more))
  {
    assert ([t] + more)[1..] == more;
  }

  lemma MoreAre(names: Names, t: Term, rest: Expr)
    requires TermOk(names, t, false) && ExprOk(names, rest, false)
    ensures ExprTokens(More(t, "AND", rest)) == TermTokens(t) + (["AND"] + ExprTokens(rest))
    ensures ExprOk(names, More(t, "AND", rest), false)
  {
    var one := TermTokens(t) + ["AND"];
    assert one + ExprTokens(rest) == TermTokens(t) + (["AND"] + ExprTokens(rest));
  }

  /** Operands joined by AND are read as a conjunction with one term for each: no part of one
      operand ever binds to another. */
  lemma {:induction false} ListIsConjunction(names: Names, list: seq<string>) returns (terms: seq<Term>)
    requires list != [] && forall i :: 0 <= i < |list| ==> Operand(names, list[i])
    ensures |terms| == |list| && forall i :: 0 <= i < |list| ==> Stands(names, list[i], terms[i])
    ensures Tokens(JoinedByAnd(list)) == ExprTokens(AndChain(terms)) && ExprOk(names, AndChain(terms), false)
  {
    hide Operand, Tokens, Wrap, JoinedByAnd, TermTokens, TermOk;
    var first := OperandStands(names, list[0]);
    if |list| == 1 {
      terms := [first];
      JoinedAlone(list);
      assert AndChain(terms) == One(first);
    } else {
      var more := ListIsConjunction(names, list[1..]);
      terms := [first] + more;
      hide AndChain, ExprTokens, ExprOk;
      JoinedTokens(list);
      ChainStep(names, first, more);
      forall i | 0 <= i < |list| ensures Stands(names, list[i], terms[i]) {
        if i > 0 { assert list[i] == list[1..][i - 1]; }
      }
    }
  }

  /** A word that is no name at all spoils an expression wherever it stands. */
  lemma {:induction false} StrayWordSpoils(names: Names, s: State, tokens: seq<string>, t: string)
    requires t in tokens && !IsReserved(t) && NameProblems(names, t, false) != [] && NameProblems(names, t, true) != []
    ensures Problems(names, s, tokens) != []
    decreases |tokens|
  {
    if tokens[0] != t {
      assert t in tokens[1..];
      StrayWordSpoils(names, Next(s, tokens[0]), tokens[1..], t);
    }
  }

  lemma {:induction false} ListTokensHold(list: seq<string>, i: nat, t: string)
    requires i < |list| && t in Tokens(Wrap(list[i]))
    ensures t in Tokens(JoinedByAnd(list))
  {
    if |list| == 1 {
      assert Wrapped(list) == [Wrap(list[0])];
    } else {
      JoinedTokens(list);
      if i > 0 {
        ListTokensHold(list[1..], i - 1, t);
      }
    }
  }

  predicate IsNothing(e: string) {
    e == "NONE" || e == "NOASSERTION"
  }

  /** One "NONE" or "NOASSERTION" among several parts spoils the list. */
  lemma NothingSpoils(st: Setting, refs: Refs, list: seq<string>, i: nat)
    requires ValidSetting(st) && |list| > 1 && i < |list| && IsNothing(list[i])
    ensures ProblemsOf(NamesOf(st, refs), JoinedByAnd(list)) != []
  {
    hide Tokens, Problems, ProblemsOf, Wrap, JoinedByAnd, NameProblems;
    var t, all := list[i], JoinedByAnd(list);
    NothingIsStray(st, refs, t);
    ListTokensHold(list, i, t);
    JoinedTokens(list);
    assert "AND" in Tokens(all);
    NotNothing(all, "AND");
    ProblemsOfTokens(NamesOf(st, refs), all, Tokens(all));
    StrayWordSpoils(NamesOf(st, refs), START, Tokens(all), t);
  }

  lemma NothingIsStray(st: Setting, refs: Refs, t: string)
    requires ValidSetting(st) && IsNothing(t)
    ensures !IsReserved(t) && Tokens(Wrap(t)) == [t]
    ensures NameProblems(NamesOf(st, refs), t, false) != [] && NameProblems(NamesOf(st, refs), t, true) != []
  {
    hide Tokens, IsWord, IsListName;
    assert IsWord(t) by { NothingIsWord(t); }
    TokensOfWord(t);
    assert t[0] == 'N' && Core(t) == t && Wrap(t) == t;
    assert t !in st.exceptions && t !in st.licenses by { NothingIsUnlisted(st, t); }
  }

  lemma NothingIsWord(t: string)
    requires IsNothing(t)
    ensures IsWord(t)
  {
  }

  lemma NothingIsUnlisted(st: Setting, t: string)
    requires ValidSetting(st) && IsNothing(t)
    ensures t !in st.exceptions && t !in st.licenses
  {
  }

  lemma ConjunctionAccepted(names: Names, list: seq<string>)
    requires list != [] && forall i :: 0 <= i < |list| ==> Operand(names, list[i])
    ensures ProblemsOf(names, JoinedByAnd(list)) == []
  {
    var terms := ListIsConjunction(names, list);
    CleanIffDerivable(names, Tokens(JoinedByAnd(list)));
  }

  /** An operand stays one as references are declared. */
  lemma OperandStays(st: Setting, refs: Refs, more: Refs, e: string)
    requires Operand(NamesOf(st, refs), e) && Grows(refs, more)
    ensures Operand(NamesOf(st, more), e)
  {
    if !IsLicense(NamesOf(st, refs), e) {
      CleanIffDerivable(NamesOf(st, refs), Tokens(e));
      MoreRefsKeep(NamesOf(st, refs), NamesOf(st, more), START, Tokens(e));
      CleanIffDerivable(NamesOf(st, more), Tokens(e));
    }
  }

  // ------------------------------------------------------------- the conversion

  predicate NamesNothing(st: Setting, raw: string) {
    var r := Trim(raw, IsSpace);
    SaysNothing(st, r) || st.upper(r) == "NONE"
  }

  /** raw is taken apart at its commas. */
  predicate IsList(st: Setting, raw: string) {
    var r := Trim(raw, IsSpace);
    !NamesNothing(st, raw) && Read(st, r).Unreadable? && !IsCompound(st, r) && ',' in r
  }

  /** The lists the conversion gets wrong: all commas, or several parts with one that says
      there is no licence. */
  predicate Spoiled(st: Setting, raw: string) {
    var parts := Parts(Trim(raw, IsSpace));
    && IsList(st, raw)
    && (parts == [] || (|parts| > 1 && exists i :: 0 <= i < |parts| && NamesNothing(st, parts[i])))
  }

  /** What is not a list becomes one operand, or nothing when it says so. */
  lemma SingleConverts(st: Setting, refs: Refs, raw: string, origin: string)
    requires ValidSetting(st) && ValidRefs(refs) && !IsList(st, raw)
    ensures var o := Convert(st, refs, raw, origin);
            && ValidRefs(o.refs) && Grows(refs, o.refs)
            && if NamesNothing(st, raw) then IsNothing(o.value) else Operand(NamesOf(st, o.refs), o.value)
  {
    var r := Trim(raw, IsSpace);
    if !NamesNothing(st, raw) {
      IdIsLicense(st, refs, r, origin);
      if Read(st, r).Unreadable? {
        AsExpressionIff(st, refs, r, origin);
        CompoundAnyRefs(st, refs, r, origin);
        var expr := AsExpression(st, refs, r, origin);
        if expr.value.Some? {
          CleanIffDerivable(NamesOf(st, expr.refs), Tokens(expr.value.value));
        } else {
          RefIsDeclared(st, expr.refs, r, origin);
          var o := RefOf(st, expr.refs, r, origin);
          RefIsWord(o.value);
          GrowsTrans(refs, expr.refs, o.refs);
        }
      }
    }
  }

  ghost predicate Converted(st: Setting, refs: Refs, part: string, e: string) {
    if NamesNothing(st, part) then IsNothing(e) else Operand(NamesOf(st, refs), e)
  }

  lemma {:induction false} PartsConvert(st: Setting, refs: Refs, parts: seq<string>, origin: string, bound: nat)
    requires ValidSetting(st) && ValidRefs(refs) && Shorter(parts, bound)
    ensures var o := ConvertParts(st, refs, parts, origin, bound);
            && ValidRefs(o.refs) && Grows(refs, o.refs)
            && forall i :: 0 <= i < |parts| ==> Converted(st, o.refs, parts[i], o.value[i])
    decreases |parts|
  {
    if parts != [] {
      hide ValidSetting, ValidRefs, Convert, NamesNothing, IsNothing, Operand, IsList, Converted, Grows, NamesOf;
      FirstConverts(st, refs, parts[0], origin);
      var first := Convert(st, refs, parts[0], origin);
      PartsConvert(st, first.refs, parts[1..], origin, bound);
      var rest := ConvertParts(st, first.refs, parts[1..], origin, bound);
      GrowsTrans(refs, first.refs, rest.refs);
      ConvertedStays(st, first.refs, rest.refs, parts[0], first.value);
      forall i | 0 <= i < |parts| ensures Converted(st, rest.refs, parts[i], ([first.value] + rest.value)[i]) {
        if i > 0 { assert parts[i] == parts[1..][i - 1]; }
      }
    } else {
      GrowsSame(refs);
    }
  }

  lemma GrowsSame(refs: Refs)
    ensures Grows(refs, refs)
  {
  }

  lemma FirstConverts(st: Setting, refs: Refs, part: string, origin: string)
    requires ValidSetting(st) && ValidRefs(refs) && ',' !in part
    ensures var o := Convert(st, refs, part, origin);
            ValidRefs(o.refs) && Grows(refs, o.refs) && Converted(st, o.refs, part, o.value)
  {
    hide ValidSetting, ValidRefs, Convert, NamesNothing, IsNothing, Operand, IsList, Grows;
    PartIsNoList(st, part);
    SingleConverts(st, refs, part, origin);
  }

  lemma ConvertedStays(st: Setting, refs: Refs, more: Refs, part: string, e: string)
    requires Grows(refs, more) && Converted(st, refs, part, e)
    ensures Converted(st, more, part, e)
  {
    if !NamesNothing(st, part) {
      OperandStays(st, refs, more, e);
    }
  }

  lemma PartIsNoList(st: Setting, part: string)
    requires ',' !in part
    ensures !IsList(st, part)
  {
    TrimShortens(part);
  }

  /** The expression passes the checker under the references collected by then, and under any
      collected afterwards, exactly unless raw is one of the spoiled lists. */
  lemma AcceptedIff(st: Setting, refs: Refs, raw: string, origin: string, later: Refs)
    requires ValidSetting(st) && ValidRefs(refs)
    requires Grows(Convert(st, refs, raw, origin).refs, later)
    ensures ProblemsOf(NamesOf(st, later), Convert(st, refs, raw, origin).value) == [] <==> !Spoiled(st, raw)
  {
    if IsList(st, raw) {
      ListAcceptedIff(st, refs, raw, origin, later);
    } else {
      SingleConverts(st, refs, raw, origin);
      var o := Convert(st, refs, raw, origin);
      if !NamesNothing(st, raw) {
        OperandStays(st, o.refs, later, o.value);
        OperandAccepted(NamesOf(st, later), o.value);
      }
    }
  }

  /** The references collected are well formed, and none is forgotten or renamed. */
  lemma ConvertGrows(st: Setting, refs: Refs, raw: string, origin: string)
    requires ValidSetting(st) && ValidRefs(refs)
    ensures var o := Convert(st, refs, raw, origin); ValidRefs(o.refs) && Grows(refs, o.refs)
  {
    if IsList(st, raw) {
      var _, _ := ListParts(st, refs, raw, origin);
    } else {
      SingleConverts(st, refs, raw, origin);
    }
  }

  lemma OperandAccepted(names: Names, e: string)
    requires Operand(names, e)
    ensures ProblemsOf(names, e) == []
  {
    CleanIffDerivable(names, Tokens(e));
    if IsLicense(names, e) {
      TokensOfWord(e);
      assert ExprTokens(One(Name(e))) == [e];
      assert ExprOk(names, One(Name(e)), false);
    }
  }

  /** The references each part of a list is converted under. */
  lemma {:induction false} PartsFrom(st: Setting, refs: Refs, parts: seq<string>, origin: string, bound: nat)
    returns (froms: seq<Refs>)
    requires ValidSetting(st) && ValidRefs(refs) && Shorter(parts, bound)
    ensures |froms| == |parts|
    ensures var o := ConvertParts(st, refs, parts, origin, bound);
            forall i :: 0 <= i < |parts| ==>
              Grows(refs, froms[i]) && o.value[i] == Convert(st, froms[i], parts[i], origin).value
    decreases |parts|
  {
    froms := [];
    if parts != [] {
      hide ValidSetting, ValidRefs, Convert;
      PartIsNoList(st, parts[0]);
      SingleConverts(st, refs, parts[0], origin);
      var first := Convert(st, refs, parts[0], origin);
      var more := PartsFrom(st, first.refs, parts[1..], origin, bound);
      froms := [refs] + more;
      forall i | 0 <= i < |parts| ensures Grows(refs, froms[i]) {
        if i > 0 { GrowsTrans(refs, first.refs, more[i - 1]); }
      }
    }
  }

  lemma ListParts(st: Setting, refs: Refs, raw: string, origin: string)
    returns (froms: seq<Refs>, list: Outcome<seq<string>>)
    requires ValidSetting(st) && ValidRefs(refs) && IsList(st, raw)
    ensures var parts := Parts(Trim(raw, IsSpace));
            && Convert(st, refs, raw, origin) == Outcome(JoinedByAnd(list.value), list.refs)
            && ValidRefs(list.refs) && Grows(refs, list.refs)
            && |list.value| == |froms| == |parts|
            && forall i :: 0 <= i < |parts| ==>
                 && Grows(refs, froms[i]) && list.value[i] == Convert(st, froms[i], parts[i], origin).value
                 && Converted(st, list.refs, parts[i], list.value[i])
  {
    var r := Trim(raw, IsSpace);
    AsExpressionIff(st, refs, r, origin);
    CompoundAnyRefs(st, refs, r, origin);
    var expr := AsExpression(st, refs, r, origin);
    TrimShortens(raw);
    PartsShorten(r);
    PartsConvert(st, expr.refs, Parts(r), origin, |raw|);
    list := ConvertParts(st, expr.refs, Parts(r), origin, |raw|);
    GrowsTrans(refs, expr.refs, list.refs);
    froms := PartsFrom(st, expr.refs, Parts(r), origin, |raw|);
    forall i | 0 <= i < |froms| ensures Grows(refs, froms[i]) {
      GrowsTrans(refs, expr.refs, froms[i]);
    }
  }

  lemma ListAcceptedIff(st: Setting, refs: Refs, raw: string, origin: string, later: Refs)
    requires ValidSetting(st) && ValidRefs(refs) && IsList(st, raw)
    requires Grows(Convert(st, refs, raw, origin).refs, later)
    ensures ProblemsOf(NamesOf(st, later), Convert(st, refs, raw, origin).value) == [] <==> !Spoiled(st, raw)
  {
    hide Convert, Operand, NamesNothing, IsList, Parts;
    var _, list := ListParts(st, refs, raw, origin);
    var parts := Parts(Trim(raw, IsSpace));
    var names := NamesOf(st, later);
    forall i | 0 <= i < |parts| ensures Converted(st, later, parts[i], list.value[i]) {
      if !NamesNothing(st, parts[i]) {
        OperandStays(st, list.refs, later, list.value[i]);
      }
    }
    if parts == [] {
      assert JoinedByAnd(list.value) == "";
    } else if |parts| == 1 {
      if NamesNothing(st, parts[0]) {
        JoinedAlone(list.value);
        assert Wrap(list.value[0]) == list.value[0];
      } else {
        ConjunctionAccepted(names, list.value);
      }
    } else if exists i :: 0 <= i < |parts| && NamesNothing(st, parts[i]) {
      var i :| 0 <= i < |parts| && NamesNothing(st, parts[i]);
      NothingSpoils(st, later, list.value, i);
    } else {
      ConjunctionAccepted(names, list.value);
    }
  }

  /** Every part of a list that is not spoiled is converted on its own and becomes one term of a
      conjunction. */
  lemma EveryPartApplies(st: Setting, refs: Refs, raw: string, origin: string)
    returns (froms: seq<Refs>, list: seq<string>, terms: seq<Term>)
    requires ValidSetting(st) && ValidRefs(refs) && IsList(st, raw) && !Spoiled(st, raw)
    requires |Parts(Trim(raw, IsSpace))| > 1
    ensures var parts := Parts(Trim(raw, IsSpace));
            var o := Convert(st, refs, raw, origin);
            var names := NamesOf(st, o.refs);
            && |list| == |terms| == |froms| == |parts|
            && (forall i :: 0 <= i < |list| ==>
                  && Grows(refs, froms[i]) && list[i] == Convert(st, froms[i], parts[i], origin).value
                  && Stands(names, list[i], terms[i]))
            && Tokens(o.value) == ExprTokens(AndChain(terms)) && ExprOk(names, AndChain(terms), false)
  {
    hide Convert, Operand, NamesNothing, IsList, Parts, Stands, Tokens, ExprTokens, ExprOk, ValidSetting, ValidRefs;
    var o;
    froms, o := ListParts(st, refs, raw, origin);
    list := o.value;
    terms := ListIsConjunction(NamesOf(st, o.refs), list);
  }

  /** A lone comma gives the empty expression, which the checker refuses. */
  lemma CommaSpoils(st: Setting, refs: Refs, origin: string)
    requires ValidSetting(st) && ValidRefs(refs)
    requires st.upper(",") == "," && st.lower(",") == "," && "," !in st.aliases && "," !in st.licenses
    ensures Convert(st, refs, ",", origin).value == "" && Spoiled(st, ",")
    ensures ProblemsOf(NamesOf(st, refs), "") == [EmptyExpression]
  {
    assert Trim(",", IsSpace) == ",";
    assert Slashes(",") == "," by { assert ","[1..] == ""; }
    TokensOfWord(",");
    assert !HasOperator(st, [","]);
    assert Split(",") == ["", ""] by { assert Split(",") == [""] + Split(","[1..]); }
    assert Parts(",") == [] by {
      assert ["", ""][1..] == [""];
      assert NonEmpty([""]) == [];
    }
    assert Read(st, ",").Unreadable?;
  }
}
