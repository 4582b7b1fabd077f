/** Licence expressions as text: how they are cut into tokens and put together again. */
module SpdxTokens {
  import opened Strings

  predicate IsParen(c: char) {
    c == '(' || c == ')'
  }

  predicate IsWordChar(c: char) {
    !IsSpace(c) && !IsParen(c)
  }

  predicate IsWord(w: string) {
    w != "" && forall i :: 0 <= i < |w| ==> IsWordChar(w[i])
  }

  predicate StartsWord(s: string) {
    s != "" && IsWordChar(s[0])
  }

  predicate EndsWord(s: string) {
    s != "" && IsWordChar(s[|s| - 1])
  }

  predicate IsToken(t: string) {
    t == "(" || t == ")" || IsWord(t)
  }

  predicate AllTokens(parts: seq<string>) {
    forall i :: 0 <= i < |parts| ==> IsToken(parts[i])
  }

  /** The parentheses and the maximal runs of other visible characters, left to right. */
  function Tokens(s: string): (r: seq<string>)
    ensures StartsWord(s) ==> r != []
  {
    if s == "" then []
    else
      var rest := Tokens(s[1..]);
      if IsSpace(s[0]) then rest
      else if IsParen(s[0]) then [[s[0]]] + rest
      else if StartsWord(s[1..]) then [[s[0]] + rest[0]] + rest[1..]
      else [[s[0]]] + rest
  }

  lemma {:induction false} TokensAreTokens(s: string)
    ensures AllTokens(Tokens(s))
    ensures StartsWord(s) ==> StartsWord(Tokens(s)[0])
  {
    if s != "" {
      TokensAreTokens(s[1..]);
      assert AllTokens(Tokens(s[1..]));
    }
  }

  /** Where two words do not run together, the tokens of a text are those of its two halves. */
  lemma {:induction false} TokensApart(a: string, b: string)
    requires !EndsWord(a) || !StartsWord(b)
    ensures Tokens(a + b) == Tokens(a) + Tokens(b)
  {
    hide Tokens;
    NoTokens();
    if a == "" {
      assert a + b == b;
    } else {
      TokensApart(a[1..], b);
      assert (a + b)[1..] == a[1..] + b;
      TokensStep(a + b);
      TokensStep(a);
      StepApart(a[0], Tokens(a[1..]), Tokens(b));
      assert |a| > 1 ==> (a + b)[1..][0] == a[1..][0];
    }
  }

  /** Putting a character before the first of two lists, as a token or in front of one. */
  lemma StepApart(c: char, first: seq<string>, rest: seq<string>)
    ensures [[c]] + (first + rest) == [[c]] + first + rest
    ensures first != [] ==> [[c] + (first + rest)[0]] + (first + rest)[1..] == [[c] + first[0]] + first[1..] + rest
  {
  }

  lemma NoTokens()
    ensures Tokens("") == []
  {
  }

  lemma TokensStep(s: string)
    requires s != ""
    ensures var rest := Tokens(s[1..]);
            && (StartsWord(s[1..]) ==> rest != [])
            && Tokens(s) == if IsSpace(s[0]) then rest
                            else if IsParen(s[0]) then [[s[0]]] + rest
                            else if StartsWord(s[1..]) then [[s[0]] + rest[0]] + rest[1..]
                            else [[s[0]]] + rest
  {
  }

  lemma {:induction false} TokensOfWord(w: string)
    requires IsWord(w)
    ensures Tokens(w) == [w]
  {
    if |w| > 1 {
      assert IsWord(w[1..]);
      TokensOfWord(w[1..]);
      assert w == [w[0]] + w[1..];
    } else {
      assert w == [w[0]] && Tokens(w[1..]) == [];
    }
  }

  lemma TokensOfToken(t: string)
    requires IsToken(t)
    ensures Tokens(t) == [t]
  {
    if IsWord(t) {
      TokensOfWord(t);
    } else {
      assert Tokens(t[1..]) == [] && t == [t[0]];
    }
  }

  lemma TokensSpaced(a: string, b: string)
    ensures Tokens(a + " " + b) == Tokens(a) + Tokens(b)
  {
    var tail := " " + b;
    assert tail[1..] == b && Tokens(tail) == Tokens(b);
    TokensApart(a, tail);
    assert a + " " + b == a + tail;
  }

  /** Tokens joined by spaces are read back as they were. */
  lemma {:induction false} TokensOfJoined(parts: seq<string>)
    requires AllTokens(parts)
    ensures Tokens(Join(parts, " ")) == parts
  {
    if parts != [] {
      TokensOfToken(parts[0]);
      if |parts| > 1 {
        TokensOfJoined(parts[1..]);
        TokensSpaced(parts[0], Join(parts[1..], " "));
        assert parts == [parts[0]] + parts[1..];
      } else {
        assert parts == [parts[0]];
      }
    }
  }

  /** s.replace("( ", "("). */
  function TightenOpen(s: string): (r: string)
    ensures s != "" ==> r != "" && r[0] == s[0]
  {
    if |s| < 2 then s
    else if s[0] == '(' && s[1] == ' ' then "(" + TightenOpen(s[2..])
    else [s[0]] + TightenOpen(s[1..])
  }

  /** s.replace(" )", ")"). */
  function TightenClose(s: string): string {
    if |s| < 2 then s
    else if s[0] == ' ' && s[1] == ')' then ")" + TightenClose(s[2..])
    else [s[0]] + TightenClose(s[1..])
  }

  lemma CloseStarts(s: string)
    ensures StartsWord(TightenClose(s)) <==> StartsWord(s)
  {
  }

  function Tighten(s: string): string {
    TightenClose(TightenOpen(s))
  }

  /** Removing the space inside a parenthesis changes no token. */
  lemma {:induction false} TokensOpen(s: string)
    ensures Tokens(TightenOpen(s)) == Tokens(s)
  {
    if |s| >= 2 {
      if s[0] == '(' && s[1] == ' ' {
        TokensOpen(s[2..]);
        assert s[1..][1..] == s[2..];
        assert ("(" + TightenOpen(s[2..]))[1..] == TightenOpen(s[2..]);
      } else {
        TokensOpen(s[1..]);
        assert ([s[0]] + TightenOpen(s[1..]))[1..] == TightenOpen(s[1..]);
      }
    }
  }

  lemma {:induction false} TokensClose(s: string)
    ensures Tokens(TightenClose(s)) == Tokens(s)
  {
    if |s| >= 2 {
      if s[0] == ' ' && s[1] == ')' {
        TokensClose(s[2..]);
        assert s[1..][1..] == s[2..];
        assert (")" + TightenClose(s[2..]))[1..] == TightenClose(s[2..]);
      } else {
        TokensClose(s[1..]);
        CloseStarts(s[1..]);
        assert ([s[0]] + TightenClose(s[1..]))[1..] == TightenClose(s[1..]);
      }
    }
  }

  /** Printing tokens the way the generator does and reading them again gives them back. */
  lemma TokensOfTightened(parts: seq<string>)
    requires AllTokens(parts)
    ensures Tokens(Tighten(Join(parts, " "))) == parts
  {
    TokensOfJoined(parts);
    TokensOpen(Join(parts, " "));
    TokensClose(TightenOpen(Join(parts, " ")));
  }

  lemma {:induction false} OpenSplits(a: string, b: string)
    requires !(a != "" && a[|a| - 1] == '(' && b != "" && b[0] == ' ')
    ensures TightenOpen(a + b) == TightenOpen(a) + TightenOpen(b)
  {
    hide TightenOpen;
    ShortOpen(a);
    ShortOpen(b);
    if a == "" {
      assert a + b == b;
    } else if b == "" {
      assert a + b == a;
    } else if |a| == 1 {
      assert (a + b)[1..] == b;
      OpenStep(a + b);
    } else {
      HeadOf(a, b);
      OpenStep(a + b);
      OpenStep(a);
      if a[0] == '(' && a[1] == ' ' {
        OpenSplits(a[2..], b);
        Regrouped("(", TightenOpen(a[2..]), TightenOpen(b));
      } else {
        OpenSplits(a[1..], b);
        Regrouped([a[0]], TightenOpen(a[1..]), TightenOpen(b));
      }
    }
  }

  lemma HeadOf(a: string, b: string)
    requires |a| >= 2
    ensures (a + b)[0] == a[0] && (a + b)[1] == a[1] && (a + b)[1..] == a[1..] + b && (a + b)[2..] == a[2..] + b
  {
  }

  lemma Regrouped(a: string, b: string, c: string)
    ensures a + (b + c) == a + b + c
  {
  }

  lemma ShortOpen(s: string)
    ensures |s| < 2 ==> TightenOpen(s) == s
  {
  }

  lemma OpenStep(s: string)
    requires |s| >= 2
    ensures TightenOpen(s) == if s[0] == '(' && s[1] == ' ' then "(" + TightenOpen(s[2..]) else [s[0]] + TightenOpen(s[1..])
  {
  }

  lemma {:induction false} CloseSplits(a: string, b: string)
    requires !(a != "" && a[|a| - 1] == ' ' && b != "" && b[0] == ')')
    ensures TightenClose(a + b) == TightenClose(a) + TightenClose(b)
  {
    var s := a + b;
    if a == "" {
      assert s == b;
    } else if b == "" {
      assert s == a;
    } else if |a| == 1 {
      assert s[1..] == b && s[0] == a[0] && s[1] == b[0];
    } else if a[0] == ' ' && a[1] == ')' {
      assert s[0] == a[0] && s[1] == a[1] && s[2..] == a[2..] + b;
      CloseSplits(a[2..], b);
    } else {
      assert s[0] == a[0] && s[1] == a[1] && s[1..] == a[1..] + b;
      CloseSplits(a[1..], b);
    }
  }

  /** A space between two tokens that are not the inner side of a parenthesis survives. */
  lemma SpaceStays(a: string, b: string)
    requires a != "" && a[|a| - 1] != '(' && b != "" && b[0] != ')'
    ensures ' ' in Tighten(a + " " + b)
  {
    var tail := " " + b;
    assert a + " " + b == a + tail;
    OpenSplits(a, tail);
    var tight := TightenOpen(tail);
    assert tight == " " + TightenOpen(b) by { assert tail[1..] == b; }
    CloseSplits(TightenOpen(a), tight);
    assert tight[1] == b[0] && TightenClose(tight)[0] == ' ';
    var all := TightenClose(TightenOpen(a)) + TightenClose(tight);
    assert all[|TightenClose(TightenOpen(a))|] == ' ';
  }

  /** The last character of tokens joined by spaces is the last token's. */
  lemma {:induction false} JoinEnds(parts: seq<string>)
    requires parts != [] && AllTokens(parts)
    ensures var s := Join(parts, " "); s != "" && [s[0]] == parts[0][..1]
    ensures var s := Join(parts, " "); var t := parts[|parts| - 1]; [s[|s| - 1]] == t[|t| - 1..]
  {
    assert IsToken(parts[0]);
    if |parts| > 1 {
      JoinEnds(parts[1..]);
      var rest := Join(parts[1..], " ");
      assert parts[1..][|parts| - 2] == parts[|parts| - 1];
      var s := Join(parts, " ");
      assert s == parts[0] + " " + rest;
      assert s[|s| - 1] == rest[|rest| - 1];
      assert s[0] == parts[0][0];
    }
  }

  lemma JoinStarts(parts: seq<string>)
    requires parts != [] && AllTokens(parts) && parts[0] != ")"
    ensures var s := Join(parts, " "); s != "" && s[0] != ')'
  {
    JoinEnds(parts);
    assert IsToken(parts[0]);
    assert parts[0][..1] == [parts[0][0]];
  }

  lemma JoinStops(parts: seq<string>)
    requires parts != [] && AllTokens(parts) && parts[|parts| - 1] != "("
    ensures var s := Join(parts, " "); s != "" && s[|s| - 1] != '('
  {
    JoinEnds(parts);
    var t := parts[|parts| - 1];
    assert IsToken(t);
    assert t[|t| - 1..] == [t[|t| - 1]];
  }

  /** So the printed text has a space in it where two tokens meet with no parenthesis facing
      the other. */
  lemma PrintedHasSpace(a: seq<string>, b: seq<string>)
    requires a != [] && AllTokens(a) && a[|a| - 1] != "("
    requires b != [] && AllTokens(b) && b[0] != ")"
    ensures ' ' in Tighten(Join(a + b, " "))
  {
    hide Tighten, IsToken, AllTokens;
    JoinSplits(a, b, " ");
    JoinStops(a);
    JoinStarts(b);
    SpaceStays(Join(a, " "), Join(b, " "));
  }
}
