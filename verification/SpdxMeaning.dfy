/** What free-form licence names come out as: the cases of the conversion, told by the text alone. */
module SpdxMeaning {
  import opened Options
  import opened Strings
  import opened SpdxTokens
  import opened SpdxExpression
  import opened SpdxNaming
  import opened SpdxLicenses

  // ------------------------------------------------------------- slashes

  lemma {:induction false} SlashesApart(a: string, b: string)
    ensures Slashes(a + b) == Slashes(a) + Slashes(b)
  {
    if a == "" {
      assert a + b == b;
    } else {
      assert (a + b)[0] == a[0] && (a + b)[1..] == a[1..] + b;
      SlashesApart(a[1..], b);
    }
  }

  lemma {:induction false} NoSlash(a: string)
    requires '/' !in a
    ensures Slashes(a) == a
  {
    if a != "" {
      NoSlash(a[1..]);
      assert a == [a[0]] + a[1..];
    }
  }

  lemma SlashesOfSlash(a: string, b: string)
    ensures Slashes(a + "/" + b) == Slashes(a) + " OR " + Slashes(b)
  {
    OneSlash();
    hide Slashes;
    SlashesApart(a + "/", b);
    SlashesApart(a, "/");
  }

  lemma OneSlash()
    ensures Slashes("/") == " OR "
  {
    assert "/"[1..] == "" && Slashes("") == "";
    assert " OR " + "" == " OR ";
  }

  /** A slash means OR, wherever it stands. */
  lemma SlashIsOr(st: Setting, refs: Refs, a: string, b: string, origin: string)
    ensures AsExpression(st, refs, a + "/" + b, origin) == AsExpression(st, refs, a + " OR " + b, origin)
  {
    SlashesOfSlash(a, b);
    SlashesApart(a + " OR ", b);
    SlashesApart(a, " OR ");
    NoSlash(" OR ");
  }

  // ------------------------------------------------------------- one name

  /** Text that says nothing about the licence, in any case and with white space around it. */
  lemma NothingSaid(st: Setting, refs: Refs, raw: string, origin: string)
    ensures var r := Trim(raw, IsSpace);
            && (r == "" || st.upper(r) == "NOASSERTION" || st.upper(r) == "UNKNOWN" ==>
                  Convert(st, refs, raw, origin) == Outcome("NOASSERTION", refs))
            && (r != "" && st.upper(r) == "NONE" ==> Convert(st, refs, raw, origin) == Outcome("NONE", refs))
  {
  }

  /** raw, trimmed, is a text to be converted. */
  predicate SaysSomething(st: Setting, r: string) {
    r != "" && st.upper(r) != "NOASSERTION" && st.upper(r) != "UNKNOWN" && st.upper(r) != "NONE"
  }

  /** A listed licence stays as it is, with or without a "+"; else a known spelling becomes its
      licence. Nothing is declared for either. */
  lemma ListedStays(st: Setting, refs: Refs, raw: string, origin: string)
    ensures var r := Trim(raw, IsSpace);
            SaysSomething(st, r) ==>
              && (r in st.licenses && (r == "" || r[|r| - 1] != '+') ==> Convert(st, refs, raw, origin) == Outcome(r, refs))
              && (r != "" && r[|r| - 1] == '+' && r[..|r| - 1] in st.licenses ==> Convert(st, refs, raw, origin) == Outcome(r, refs))
              && (Core(r) !in st.licenses && st.lower(r) in st.aliases ==>
                    Convert(st, refs, raw, origin) == Outcome(st.aliases[st.lower(r)], refs))
  {
    hide AsExpression, IsSpace, TrimLeft, TrimRight, IsRef;
  }

  /** A name that is no licence, no known spelling, no expression and no list becomes a reference
      that is declared for it, and so does one written as a reference. */
  lemma OthersAreReferences(st: Setting, refs: Refs, raw: string, origin: string)
    ensures var r := Trim(raw, IsSpace);
            SaysSomething(st, r) && Core(r) !in st.licenses && st.lower(r) !in st.aliases ==>
              && (IsRef(r) ==> Convert(st, refs, raw, origin) == RefOf(st, refs, r[|"LicenseRef-"|..], origin))
              && (!IsRef(r) && AsExpression(st, refs, r, origin).value.None? && ',' !in r ==>
                    Convert(st, refs, raw, origin) == RefOf(st, AsExpression(st, refs, r, origin).refs, r, origin))
  {
  }

  // ------------------------------------------------------------- the text of a reference

  /** Characters of identifiers stay as they are; what comes between two runs of them is one dash. */
  lemma {:induction false} SquashRun(a: string, junk: string, b: string, inRun: bool)
    requires forall i :: 0 <= i < |a| ==> IsRefChar(a[i])
    requires forall i :: 0 <= i < |junk| ==> !IsRefChar(junk[i])
    ensures Squash(a + junk + b, inRun)
         == a + (if junk != "" && !(inRun && a == "") then "-" else "") + Squash(b, junk != "" || (inRun && a == ""))
  {
    var s := a + junk + b;
    if a != "" {
      assert s[0] == a[0] && s[1..] == a[1..] + junk + b;
      SquashRun(a[1..], junk, b, false);
      assert a == [a[0]] + a[1..];
    } else if junk != "" {
      assert s[0] == junk[0] && s[1..] == "" + junk[1..] + b;
      SquashRun("", junk[1..], b, true);
    } else {
      assert s == b;
    }
  }

  lemma {:induction false} SquashSame(a: string, inRun: bool)
    requires forall i :: 0 <= i < |a| ==> IsRefChar(a[i])
    ensures Squash(a, inRun) == a
  {
    if a != "" {
      SquashSame(a[1..], false);
      assert a == [a[0]] + a[1..];
    }
  }

  /** The text after "LicenseRef-": what is left between dashes and dots at the ends, at most sixty
      characters of it; "Unknown" when that is nothing. */
  lemma BaseIs(raw: string, left: string, mid: string, right: string)
    requires Squash(raw, false) == left + mid + right
    requires forall i :: 0 <= i < |left| ==> left[i] == '-' || left[i] == '.'
    requires forall i :: 0 <= i < |right| ==> right[i] == '-' || right[i] == '.'
    requires mid != "" ==> mid[0] != '-' && mid[0] != '.' && mid[|mid| - 1] != '-' && mid[|mid| - 1] != '.'
    ensures Base(raw) == if mid == "" then "Unknown" else if |mid| > 60 then mid[..60] else mid
  {
    if mid == "" {
      TrimAll(left + mid + right, IsDotOrDash);
    } else {
      TrimDrops(left, mid, right, IsDotOrDash);
    }
  }

  /** A name that already is identifier text, without dashes and dots at its ends, is kept. */
  lemma PlainNameStays(raw: string)
    requires IsRefText(raw) && |raw| <= 60
    requires raw[0] != '-' && raw[0] != '.' && raw[|raw| - 1] != '-' && raw[|raw| - 1] != '.'
    ensures Base(raw) == raw
  {
    SquashSame(raw, false);
    assert raw == "" + raw + "";
    BaseIs(raw, "", raw, "");
  }

  /** A free reference is the plain one; one that stands for another name is told from it by the
      digest of the name. */
  lemma RefIs(st: Setting, refs: Refs, raw: string, origin: string)
    ensures var plain := "LicenseRef-" + Base(raw);
            var o := RefOf(st, refs, raw, origin);
            && (plain !in refs || refs[plain].name == raw ==> o.value == plain)
            && (plain in refs && refs[plain].name != raw ==> o.value == plain + "-" + st.digest(raw))
            && (o.value !in refs ==> o.refs == refs[o.value := Declared(raw, origin)])
            && (o.value in refs ==> o.refs == refs)
  {
  }

  // ------------------------------------------------------------- an expression, token by token

  /** A spelling keeps parentheses, writes operators in capitals, keeps a listed exception after
      WITH, and names everything else. */
  lemma SpellIs(st: Setting, refs: Refs, t: string, origin: string, afterWith: bool)
    ensures var u := st.upper(t);
            var o := Spell(st, refs, t, origin, afterWith);
            if t == "(" || t == ")" then o == Outcome(Some(t), refs)
            else if u == "AND" || u == "OR" || u == "WITH" then o == Outcome(Some(u), refs)
            else if afterWith then o == Outcome(if t in st.exceptions then Some(t) else None, refs)
            else o == IdOf(st, refs, t, origin)
  {
  }

  /** A word that names a listed licence and is not an operator in any case. */
  ghost predicate ListedWord(st: Setting, w: string) {
    && IsWord(w) && '/' !in w && w in st.licenses && w[|w| - 1] != '+' && !IsOperator(st.upper(w)) && !IsReserved(w)
    && !(REF_PREFIX <= w)
  }

  lemma {:induction false} TightWord(w: string)
    requires IsWord(w)
    ensures TightenOpen(w) == w && TightenClose(w) == w
  {
    if |w| > 1 {
      assert IsWord(w[1..]);
      TightWord(w[1..]);
      assert w == [w[0]] + w[1..];
      assert !IsParen(w[0]) && !IsSpace(w[0]);
    }
  }

  lemma TightSpaced(a: string, b: string)
    requires IsWord(a) && b != "" && b[0] != ')' && b[0] != '('
    requires TightenOpen(b) == b && TightenClose(b) == b
    ensures TightenOpen(a + " " + b) == a + " " + b && TightenClose(a + " " + b) == a + " " + b
  {
    var tail := " " + b;
    assert a + " " + b == a + tail && tail[1..] == b && tail[1] == b[0];
    assert !IsParen(a[|a| - 1]) && !IsSpace(a[|a| - 1]);
    OpenSplits(a, tail);
    CloseSplits(a, tail);
    TightWord(a);
    assert TightenOpen(tail) == tail && TightenClose(tail) == tail;
  }

  /** Words joined by spaces are printed as they are. */
  lemma ThreeWordsPrinted(a: string, op: string, b: string)
    requires IsWord(a) && IsWord(op) && IsWord(b)
    ensures Printed([a, op, b]) == a + " " + op + " " + b
  {
    hide TightenOpen, TightenClose;
    var tail := op + " " + b;
    assert [a, op, b][1..] == [op, b] && [op, b][1..] == [b];
    assert Join([b], " ") == b;
    assert Join([op, b], " ") == tail;
    assert Join([a, op, b], " ") == a + " " + tail;
    TightWord(b);
    assert !IsParen(b[0]) && !IsParen(op[0]);
    TightSpaced(op, b);
    assert tail[0] == op[0];
    TightSpaced(a, tail);
    assert a + " " + tail == a + " " + op + " " + b;
  }

  /** Two listed licences with a slash between them: either one. */
  lemma EitherLicence(st: Setting, refs: Refs, a: string, b: string, origin: string)
    requires ListedWord(st, a) && ListedWord(st, b) && st.upper("OR") == "OR"
    requires var r := a + "/" + b;
             SaysSomething(st, r) && Core(r) !in st.licenses && st.lower(r) !in st.aliases && !IsRef(r)
    ensures Convert(st, refs, a + "/" + b, origin) == Outcome(a + " OR " + b, refs)
  {
    hide AsExpression, ListedWord, Core, IsRef, IsSpace;
    var r := a + "/" + b;
    assert IsWord(a) && IsWord(b) by { ListedIsWords(st, a); ListedIsWords(st, b); }
    hide IsWord;
    SlashTrimmed(a, b);
    EitherExpression(st, refs, a, b, origin);
  }

  lemma ListedIsWords(st: Setting, w: string)
    requires ListedWord(st, w)
    ensures IsWord(w) && '/' !in w
  {
  }

  lemma EitherExpression(st: Setting, refs: Refs, a: string, b: string, origin: string)
    requires ListedWord(st, a) && ListedWord(st, b) && st.upper("OR") == "OR"
    ensures AsExpression(st, refs, a + "/" + b, origin) == Outcome(Some(a + " OR " + b), refs)
  {
    ListedIsWords(st, a);
    ListedIsWords(st, b);
    hide ListedWord;
    EitherSlashes(a, b);
    OrTokens(a, b);
    EitherSpelt(st, refs, a, b, origin);
    OrIsWord();
    ThreeWordsPrinted(a, "OR", b);
    SameText(a, b);
    EitherAccepted(st, refs, a, b);
    OperatorAt(st, [a, "OR", b], 1);
    ExpressionOf(st, refs, a + "/" + b, origin, [a, "OR", b]);
  }

  lemma SameText(a: string, b: string)
    ensures a + " " + "OR" + " " + b == a + " OR " + b
  {
  }

  lemma EitherSlashes(a: string, b: string)
    requires '/' !in a && '/' !in b
    ensures Slashes(a + "/" + b) == a + " " + "OR" + " " + b
  {
    SlashesOfSlash(a, b);
    NoSlash(a);
    NoSlash(b);
    SameText(a, b);
  }

  lemma OperatorAt(st: Setting, tokens: seq<string>, i: nat)
    requires i < |tokens| && IsOperator(st.upper(tokens[i]))
    ensures HasOperator(st, tokens)
  {
  }

  lemma ExpressionOf(st: Setting, refs: Refs, raw: string, origin: string, tokens: seq<string>)
    requires Tokens(Slashes(raw)) == tokens && HasOperator(st, tokens)
    requires Translate(st, refs, tokens, origin, false) == Outcome(Some(tokens), refs)
    requires ProblemsOf(NamesOf(st, refs), Printed(tokens)) == []
    ensures AsExpression(st, refs, raw, origin) == Outcome(Some(Printed(tokens)), refs)
  {
    hide Tokens, Slashes, Translate, HasOperator, ProblemsOf, Printed;
  }

  lemma OrIsWord()
    ensures IsWord("OR")
  {
  }

  lemma {:induction false} WordIsTrimmed(s: string)
    requires s != "" && !IsSpace(s[0]) && !IsSpace(s[|s| - 1])
    ensures Trim(s, IsSpace) == s
  {
    assert TrimLeft(s, IsSpace) == s && TrimRight(s, IsSpace) == s;
  }

  lemma SlashTrimmed(a: string, b: string)
    requires IsWord(a) && IsWord(b)
    ensures Trim(a + "/" + b, IsSpace) == a + "/" + b
  {
    var r := a + "/" + b;
    assert r[0] == a[0] && r[|r| - 1] == b[|b| - 1] && IsWordChar(a[0]) && IsWordChar(b[|b| - 1]);
    WordIsTrimmed(r);
  }

  lemma OrTokens(a: string, b: string)
    requires IsWord(a) && IsWord(b)
    ensures Tokens(a + " " + "OR" + " " + b) == [a, "OR", b]
  {
    TokensSpaced(a + " " + "OR", b);
    TokensSpaced(a, "OR");
    TokensOfWord(a);
    TokensOfWord("OR");
    TokensOfWord(b);
  }

  lemma WordSpelt(st: Setting, refs: Refs, w: string, origin: string)
    requires ListedWord(st, w)
    ensures Spell(st, refs, w, origin, false) == Outcome(Some(w), refs) && !IsWith(st, w)
  {
    assert Core(w) == w;
  }

  lemma TranslateStep(st: Setting, refs: Refs, t: string, out: string, rest: seq<string>, origin: string, after: Outcome<Option<seq<string>>>)
    requires Spell(st, refs, t, origin, false) == Outcome(Some(out), refs)
    requires !IsWith(st, t) && Translate(st, refs, rest, origin, false) == after
    ensures Translate(st, refs, [t] + rest, origin, false) == Put([out], after)
  {
    assert ([t] + rest)[0] == t && ([t] + rest)[1..] == rest;
  }

  lemma EitherSpelt(st: Setting, refs: Refs, a: string, b: string, origin: string)
    requires ListedWord(st, a) && ListedWord(st, b) && st.upper("OR") == "OR"
    ensures Translate(st, refs, [a, "OR", b], origin, false) == Outcome(Some([a, "OR", b]), refs)
  {
    hide ListedWord, Translate;
    WordSpelt(st, refs, a, origin);
    WordSpelt(st, refs, b, origin);
    SpellIs(st, refs, "OR", origin, false);
    NothingTranslated(st, refs, origin);
    TranslateStep(st, refs, b, b, [], origin, Outcome(Some([]), refs));
    assert [b] + [] == [b];
    TranslateStep(st, refs, "OR", "OR", [b], origin, Outcome(Some([b]), refs));
    assert ["OR"] + [b] == ["OR", b];
    TranslateStep(st, refs, a, a, ["OR", b], origin, Outcome(Some(["OR", b]), refs));
    assert [a] + ["OR", b] == [a, "OR", b];
  }

  lemma NothingTranslated(st: Setting, refs: Refs, origin: string)
    ensures Translate(st, refs, [], origin, false) == Outcome(Some([]), refs)
  {
  }

  lemma EitherAccepted(st: Setting, refs: Refs, a: string, b: string)
    requires ListedWord(st, a) && ListedWord(st, b)
    ensures ProblemsOf(NamesOf(st, refs), a + " OR " + b) == []
  {
    var names, tree := NamesOf(st, refs), More(Name(a), "OR", One(Name(b)));
    assert Core(a) == a && Core(b) == b;
    hide IsWord, Tokens;
    assert ExprOk(names, One(Name(b)), false);
    assert ExprOk(names, tree, false);
    assert ExprTokens(One(Name(b))) == [b];
    assert ExprTokens(tree) == [a] + ["OR"] + [b] == [a, "OR", b];
    CleanIffDerivable(names, [a, "OR", b]);
    OrTokens(a, b);
    SameText(a, b);
    SpacedSaysSomething(a, b);
    hide ExprOk, ExprTokens, Problems, ListedWord;
  }

  lemma SpacedSaysSomething(a: string, b: string)
    ensures a + " OR " + b != "NONE" && a + " OR " + b != "NOASSERTION"
  {
    assert (a + " OR " + b)[|a|] == ' ';
    assert forall i :: 0 <= i < |"NONE"| ==> "NONE"[i] != ' ';
    assert forall i :: 0 <= i < |"NOASSERTION"| ==> "NOASSERTION"[i] != ' ';
  }
}
