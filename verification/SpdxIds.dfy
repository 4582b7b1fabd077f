/** SPDX element identifiers: made from a name, numbered until one is free. */
module SpdxIds {
  import opened Finite
  import opened Strings
  import opened SpdxNaming

  lemma {:induction false} DecimalIsRefText(n: nat)
    ensures IsRefText(Decimal(n))
  {
    if n >= 10 {
      DecimalIsRefText(n / 10);
    }
  }

  const ID_PREFIX := "SPDXRef-"

  predicate IsDash(c: char) {
    c == '-'
  }

  function IdBase(key: string): string {
    var base := Trim(Squash(key, false), IsDash);
    if base == "" then "x" else base
  }

  function Stem(prefix: string, key: string): string {
    ID_PREFIX + prefix + "-" + IdBase(key)
  }

  /** The n-th candidate. */
  function Numbered(stem: string, n: nat): string {
    if n < 2 then stem else stem + "-" + Decimal(n)
  }

  /** The name in an identifier: what is left between dashes at the ends, "x" when that is nothing. */
  lemma IdBaseIs(key: string, left: string, mid: string, right: string)
    requires Squash(key, false) == left + mid + right
    requires forall i :: 0 <= i < |left| ==> left[i] == '-'
    requires forall i :: 0 <= i < |right| ==> right[i] == '-'
    requires mid != "" ==> mid[0] != '-' && mid[|mid| - 1] != '-'
    ensures IdBase(key) == if mid == "" then "x" else mid
  {
    if mid == "" {
      TrimAll(left + mid + right, IsDash);
    } else {
      TrimDrops(left, mid, right, IsDash);
    }
  }

  /** The candidates: the plain one, then the ones numbered from 2. */
  lemma CandidatesAre(prefix: string, key: string, n: nat)
    ensures Numbered(Stem(prefix, key), 1) == "SPDXRef-" + prefix + "-" + IdBase(key)
    ensures n >= 2 ==> Numbered(Stem(prefix, key), n) == "SPDXRef-" + prefix + "-" + IdBase(key) + "-" + Decimal(n)
  {
  }

  lemma NumberedDiffer(stem: string, m: nat, n: nat)
    requires 1 <= m < n
    ensures Numbered(stem, m) != Numbered(stem, n)
  {
    if Numbered(stem, m) == Numbered(stem, n) {
      if m >= 2 {
        assert Numbered(stem, m)[|stem| + 1..] == Decimal(m);
        assert Numbered(stem, n)[|stem| + 1..] == Decimal(n);
        DecimalIsInjective(m, n);
      }
    }
  }

  /** id is the first candidate that is not taken. */
  ghost predicate IsFirstFree(used: set<string>, stem: string, id: string) {
    exists n :: IsFirstFreeAt(used, stem, id, n)
  }

  ghost predicate IsFirstFreeAt(used: set<string>, stem: string, id: string, n: nat) {
    && 1 <= n && id == Numbered(stem, n) && id !in used
    && forall m :: 1 <= m < n ==> Numbered(stem, m) in used
  }

  /** There is only one first free candidate. */
  lemma FirstFreeIsUnique(used: set<string>, stem: string, id: string, id': string)
    requires IsFirstFree(used, stem, id) && IsFirstFree(used, stem, id')
    ensures id == id'
  {
  }

  /** The plain candidate is given when it is free, and number n when it and all from 2 up to n are
      taken and n is free. */
  lemma FirstFreeIs(used: set<string>, stem: string, n: nat)
    requires n >= 2
    ensures stem !in used ==> IsFirstFree(used, stem, stem)
    ensures stem in used && (forall m: nat :: 2 <= m < n ==> stem + "-" + Decimal(m) in used) && stem + "-" + Decimal(n) !in used ==>
              IsFirstFree(used, stem, stem + "-" + Decimal(n))
  {
    hide Decimal;
    if stem !in used {
      assert IsFirstFreeAt(used, stem, stem, 1);
    } else if (forall m: nat :: 2 <= m < n ==> stem + "-" + Decimal(m) in used) && stem + "-" + Decimal(n) !in used {
      forall m | 1 <= m < n ensures Numbered(stem, m) in used {
        if m >= 2 { assert stem + "-" + Decimal(m) in used; }
      }
      assert IsFirstFreeAt(used, stem, stem + "-" + Decimal(n), n);
    }
  }

  ghost function Tried(stem: string, n: nat): set<string> {
    set m: nat | 1 <= m < n :: Numbered(stem, m)
  }

  /** The candidates differ, so a taken one uses up one of the identifiers. */
  lemma OneMoreTried(used: set<string>, stem: string, id: string, n: nat)
    requires 1 <= n && IsCandidate(used, stem, id, n) && id in used
    ensures IsCandidate(used, stem, Numbered(stem, n + 1), n + 1)
    ensures |used - Tried(stem, n + 1)| < |used - Tried(stem, n)|
  {
    if id in Tried(stem, n) {
      var m: nat :| 1 <= m < n && id == Numbered(stem, m);
      NumberedDiffer(stem, m, n);
    }
    assert Tried(stem, n + 1) == Tried(stem, n) + {id};
    FewerUnseen(used, Tried(stem, n), Tried(stem, n + 1));
  }

  method SpdxId(prefix: string, key: string, used: set<string>) returns (id: string, nowUsed: set<string>)
    ensures IsFirstFree(used, Stem(prefix, key), id)
    ensures nowUsed == used + {id}
  {
    var stem := Stem(prefix, key);
    id := stem;
    var n: nat := 2;
    while id in used
      invariant 2 <= n && IsCandidate(used, stem, id, n - 1)
      decreases |used - Tried(stem, n - 1)|
    {
      OneMoreTried(used, stem, id, n - 1);
      id := stem + "-" + Decimal(n);
      n := n + 1;
    }
    assert IsFirstFreeAt(used, stem, id, n - 1);
    nowUsed := used + {id};
  }

  ghost predicate IsCandidate(used: set<string>, stem: string, id: string, n: nat) {
    id == Numbered(stem, n) && forall m :: 1 <= m < n ==> Numbered(stem, m) in used
  }

  /** What the validator's pattern takes for an identifier: its $ also matches before a last
      line feed. */
  predicate IsSpdxId(s: string) {
    && ID_PREFIX <= s
    && var rest := s[|ID_PREFIX|..];
       IsRefText(rest) || (rest != "" && rest[|rest| - 1] == '\n' && IsRefText(rest[..|rest| - 1]))
  }

  /** The pattern, read out: the prefix and then characters of references, with at most one line
      feed after them. */
  lemma SpdxIdIff(s: string)
    ensures IsSpdxId(s) <==>
            exists rest {:trigger IsRefText(rest)} ::
              rest != "" && (forall i :: 0 <= i < |rest| ==> IsRefChar(rest[i])) &&
              (s == "SPDXRef-" + rest || s == "SPDXRef-" + rest + "\n")
  {
    if IsSpdxId(s) {
      var rest := s[|ID_PREFIX|..];
      assert s == "SPDXRef-" + rest;
      if !IsRefText(rest) {
        var front := rest[..|rest| - 1];
        assert rest == front + "\n" && s == "SPDXRef-" + front + "\n";
        assert IsRefText(front);
      }
    }
    forall rest | IsRefText(rest) && (s == "SPDXRef-" + rest || s == "SPDXRef-" + rest + "\n") ensures IsSpdxId(s) {
      if s == "SPDXRef-" + rest {
        assert s[|ID_PREFIX|..] == rest;
      } else {
        assert s[|ID_PREFIX|..] == rest + "\n" && (rest + "\n")[..|rest|] == rest;
      }
    }
  }

  /** Every candidate made with one of the generator's two prefixes is well formed, and is not
      the document's own identifier. */
  lemma NumberedIsSpdxId(prefix: string, key: string, n: nat)
    requires prefix == "Package" || prefix == "File"
    ensures IsSpdxId(Numbered(Stem(prefix, key), n)) && Numbered(Stem(prefix, key), n) != "SPDXRef-DOCUMENT"
  {
    hide IsRefText, IdBase, Decimal, IsSpdxId;
    var base := IdBase(key);
    var rest := prefix + "-" + base;
    IdBaseIsRefText(key);
    PrefixJoins(prefix, base);
    Regroup(ID_PREFIX, prefix, "-", base);
    assert Stem(prefix, key) == ID_PREFIX + rest;
    if n >= 2 {
      DecimalIsRefText(n);
      TextsJoin(rest, Decimal(n));
      PrefixedIsSpdxId(rest + "-" + Decimal(n));
      Regroup(ID_PREFIX, rest, "-", Decimal(n));
    } else {
      PrefixedIsSpdxId(rest);
    }
  }

  lemma Regroup(a: string, b: string, c: string, d: string)
    ensures a + b + c + d == a + (b + c + d)
  {
  }

  lemma PrefixedIsSpdxId(rest: string)
    requires IsRefText(rest) && rest[0] != 'D'
    ensures IsSpdxId(ID_PREFIX + rest) && ID_PREFIX + rest != "SPDXRef-DOCUMENT"
  {
    var id := ID_PREFIX + rest;
    assert id[|ID_PREFIX|..] == rest && id[8] == rest[0];
    assert "SPDXRef-DOCUMENT"[8] == 'D';
  }

  lemma PrefixJoins(prefix: string, base: string)
    requires (prefix == "Package" || prefix == "File") && IsRefText(base)
    ensures IsRefText(prefix + "-" + base) && (prefix + "-" + base)[0] != 'D'
  {
    TextsJoin(prefix, base);
  }

  lemma TextsJoin(a: string, b: string)
    requires IsRefText(a) && IsRefText(b)
    ensures IsRefText(a + "-" + b) && (a + "-" + b)[0] == a[0]
  {
  }

  lemma IdBaseIsRefText(key: string)
    ensures IsRefText(IdBase(key))
  {
    SquashKeeps(key, false);
    var squashed := Squash(key, false);
    var left := TrimLeft(squashed, IsDash);
    TrimKeeps(squashed, IsDash);
    TrimKeeps(left, IsDash);
    var base := TrimRight(left, IsDash);
    forall i | 0 <= i < |base| ensures IsRefChar(base[i]) {
      assert base[i] in left && base[i] in squashed;
    }
  }

  lemma FirstFreeIsSpdxId(used: set<string>, prefix: string, key: string, id: string)
    requires prefix == "Package" || prefix == "File"
    requires IsFirstFree(used, Stem(prefix, key), id)
    ensures IsSpdxId(id) && id != "SPDXRef-DOCUMENT" && id !in used
  {
    var n :| IsFirstFreeAt(used, Stem(prefix, key), id, n);
    NumberedIsSpdxId(prefix, key, n);
  }
}
