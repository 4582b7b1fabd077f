/** Free-form licence names turned into SPDX expressions. */
module SpdxLicenses {
  import opened Options
  import opened Strings
  import opened SpdxTokens
  import opened SpdxExpression
  import opened SpdxNaming

  // ------------------------------------------------------------- texts with operators

  /** raw.replace("/", " OR "). */
  function Slashes(raw: string): string {
    if raw == "" then ""
    else (if raw[0] == '/' then " OR " else [raw[0]]) + Slashes(raw[1..])
  }

  predicate HasOperator(st: Setting, tokens: seq<string>) {
    exists i :: 0 <= i < |tokens| && IsOperator(st.upper(tokens[i]))
  }

  function Put(before: seq<string>, o: Outcome<Option<seq<string>>>): Outcome<Option<seq<string>>> {
    o.(value := if o.value.Some? then Some(before + o.value.value) else None)
  }

  /** One token as SPDX spells it, or None when it has no spelling. */
  function Spell(st: Setting, refs: Refs, t: string, origin: string, afterWith: bool): Outcome<Option<string>> {
    if t == "(" || t == ")" then Outcome(Some(t), refs)
    else if IsOperator(st.upper(t)) then Outcome(Some(st.upper(t)), refs)
    else if afterWith then Outcome(if t in st.exceptions then Some(t) else None, refs)
    else IdOf(st, refs, t, origin)
  }

  predicate IsWith(st: Setting, t: string) {
    t != "(" && t != ")" && st.upper(t) == "WITH"
  }

  /** Every token spelt. */
  function Translate(st: Setting, refs: Refs, tokens: seq<string>, origin: string, afterWith: bool)
    : Outcome<Option<seq<string>>>
    decreases |tokens|
  {
    if tokens == [] then Outcome(Some([]), refs)
    else
      var o := Spell(st, refs, tokens[0], origin, afterWith);
      if o.value.None? then Outcome(None, o.refs)
      else Put([o.value.value], Translate(st, o.refs, tokens[1..], origin, IsWith(st, tokens[0])))
  }

  function Printed(tokens: seq<string>): string {
    Tighten(Join(tokens, " "))
  }

  function AsExpression(st: Setting, refs: Refs, raw: string, origin: string): Outcome<Option<string>> {
    var tokens := Tokens(Slashes(raw));
    if !HasOperator(st, tokens) then Outcome(None, refs)
    else
      var o := Translate(st, refs, tokens, origin, false);
      if o.value.None? then Outcome(None, o.refs)
      else
        var expr := Printed(o.value.value);
        Outcome(if ProblemsOf(NamesOf(st, o.refs), expr) == [] then Some(expr) else None, o.refs)
  }

  // ------------------------------------------------------------- comma lists

  /** raw.split(","). */
  function Split(raw: string): (pieces: seq<string>)
    ensures pieces != []
  {
    if raw == "" then [""]
    else
      var rest := Split(raw[1..]);
      if raw[0] == ',' then [""] + rest else [[raw[0]] + rest[0]] + rest[1..]
  }

  function NonEmpty(pieces: seq<string>): seq<string> {
    if pieces == [] then []
    else
      var p := Trim(pieces[0], IsSpace);
      (if p == "" then [] else [p]) + NonEmpty(pieces[1..])
  }

  function Parts(raw: string): seq<string> {
    NonEmpty(Split(raw))
  }

  ghost predicate Shorter(parts: seq<string>, bound: nat) {
    forall i :: 0 <= i < |parts| ==> |parts[i]| < bound && ',' !in parts[i] && parts[i] != ""
  }

  lemma {:induction false} SplitShortens(raw: string)
    ensures forall i :: 0 <= i < |Split(raw)| ==> ',' !in Split(raw)[i]
    ensures forall i :: 0 <= i < |Split(raw)| ==> |Split(raw)[i]| <= |raw|
    ensures ',' in raw ==> forall i :: 0 <= i < |Split(raw)| ==> |Split(raw)[i]| < |raw|
  {
    if raw != "" {
      SplitShortens(raw[1..]);
      assert raw == [raw[0]] + raw[1..];
    }
  }

  lemma {:induction false} NonEmptyShortens(pieces: seq<string>, bound: nat)
    requires forall i :: 0 <= i < |pieces| ==> ',' !in pieces[i] && |pieces[i]| < bound
    ensures Shorter(NonEmpty(pieces), bound)
  {
    if pieces != [] {
      NonEmptyShortens(pieces[1..], bound);
      TrimKeeps(pieces[0], IsSpace);
      TrimKeeps(TrimLeft(pieces[0], IsSpace), IsSpace);
    }
  }

  /** The parts of a list hold no comma and are shorter than it, so reading them ends. */
  lemma PartsShorten(raw: string)
    requires ',' in raw
    ensures Shorter(Parts(raw), |raw|)
  {
    SplitShortens(raw);
    NonEmptyShortens(Split(raw), |raw|);
  }

  lemma TrimShortens(raw: string)
    ensures |Trim(raw, IsSpace)| <= |raw|
    ensures ',' !in raw ==> ',' !in Trim(raw, IsSpace)
  {
    TrimKeeps(raw, IsSpace);
    TrimKeeps(TrimLeft(raw, IsSpace), IsSpace);
  }

  // ------------------------------------------------------------- the conversion

  function Wrap(e: string): string {
    if ' ' in e then "(" + e + ")" else e
  }

  function Wrapped(list: seq<string>): seq<string> {
    if list == [] then [] else [Wrap(list[0])] + Wrapped(list[1..])
  }

  predicate SaysNothing(st: Setting, r: string) {
    r == "" || st.upper(r) == "NOASSERTION" || st.upper(r) == "UNKNOWN"
  }

  /** Licences.expression: the SPDX expression for raw, and the references after it. */
  function Convert(st: Setting, refs: Refs, raw: string, origin: string): Outcome<string>
    decreases |raw| + 1, 0
  {
    var r := Trim(raw, IsSpace);
    TrimShortens(raw);
    if SaysNothing(st, r) then Outcome("NOASSERTION", refs)
    else if st.upper(r) == "NONE" then Outcome("NONE", refs)
    else
      var whole := IdOf(st, refs, r, origin);
      if whole.value.Some? then Outcome(whole.value.value, whole.refs)
      else
        var expr := AsExpression(st, whole.refs, r, origin);
        if expr.value.Some? then Outcome(expr.value.value, expr.refs)
        else if ',' in r then
          PartsShorten(r);
          var list := ConvertParts(st, expr.refs, Parts(r), origin, |raw|);
          Outcome(Join(Wrapped(list.value), " AND "), list.refs)
        else RefOf(st, expr.refs, r, origin)
  }

  function ConvertParts(st: Setting, refs: Refs, parts: seq<string>, origin: string, ghost bound: nat)
    : (o: Outcome<seq<string>>)
    requires Shorter(parts, bound)
    ensures |o.value| == |parts|
    decreases bound, 1 + |parts|
  {
    if parts == [] then Outcome([], refs)
    else
      var first := Convert(st, refs, parts[0], origin);
      var rest := ConvertParts(st, first.refs, parts[1..], origin, bound);
      Outcome([first.value] + rest.value, rest.refs)
  }

  /** The class the generator collects references in. */
  class Licenses {
    const st: Setting
    var refs: Refs

    constructor (st: Setting)
      ensures this.st == st && refs == map[]
    {
      this.st := st;
      refs := map[];
    }

    method Ref(raw: string, origin: string) returns (ref: string)
      modifies this
      ensures Outcome(ref, refs) == RefOf(st, old(refs), raw, origin)
    {
      ref := REF_PREFIX + Base(raw);
      if ref in refs && refs[ref].name != raw {
        ref := ref + "-" + st.digest(raw);
      }
      if ref !in refs {
        refs := refs[ref := Declared(raw, origin)];
      }
    }

    method Id(token: string, origin: string) returns (id: Option<string>)
      modifies this
      ensures Outcome(id, refs) == IdOf(st, old(refs), token, origin)
    {
      if Core(token) in st.licenses {
        return Some(token);
      }
      var key := st.lower(token);
      if key in st.aliases {
        return Some(st.aliases[key]);
      }
      if IsRef(token) {
        var ref := Ref(token[|REF_PREFIX|..], origin);
        return Some(ref);
      }
      return None;
    }

    method TranslateAll(tokens: seq<string>, origin: string) returns (spelt: Option<seq<string>>)
      modifies this
      ensures Outcome(spelt, refs) == Translate(st, old(refs), tokens, origin, false)
    {
      ghost var goal := Translate(st, refs, tokens, origin, false);
      var out: seq<string>, afterWith := [], false;
      assert tokens[0..] == tokens;
      PutNothing(goal);
      for i := 0 to |tokens|
        invariant Put(out, Translate(st, refs, tokens[i..], origin, afterWith)) == goal
      {
        var t := tokens[i];
        assert tokens[i..][0] == t && tokens[i..][1..] == tokens[i + 1..];
        ghost var before := out;
        var with := false;
        if t == "(" || t == ")" {
          out := out + [t];
        } else if IsOperator(st.upper(t)) {
          out := out + [st.upper(t)];
          with := st.upper(t) == "WITH";
        } else if afterWith {
          if t !in st.exceptions {
            return None;
          }
          out := out + [t];
        } else {
          var id := Id(t, origin);
          if id.None? {
            return None;
          }
          out := out + [id.value];
        }
        afterWith := with;
        PutTwice(before, out[|before|..], Translate(st, refs, tokens[i + 1..], origin, afterWith));
        assert out == before + out[|before|..];
      }
      assert tokens[|tokens|..] == [] && out + [] == out;
      spelt := Some(out);
    }

    method AsExpr(raw: string, origin: string) returns (r: Option<string>)
      modifies this
      ensures Outcome(r, refs) == AsExpression(st, old(refs), raw, origin)
    {
      var tokens := Tokens(Slashes(raw));
      if !HasOperator(st, tokens) {
        return None;
      }
      var spelt := TranslateAll(tokens, origin);
      if spelt.None? {
        return None;
      }
      var expr := Printed(spelt.value);
      var problems := CheckExpression(NamesOf(st, refs), expr);
      r := if problems == [] then Some(expr) else None;
    }

    method Expression(raw: string, origin: string) returns (e: string)
      modifies this
      ensures Outcome(e, refs) == Convert(st, old(refs), raw, origin)
      decreases |raw| + 1, 0
    {
      var r := Trim(raw, IsSpace);
      TrimShortens(raw);
      if SaysNothing(st, r) {
        return "NOASSERTION";
      }
      if st.upper(r) == "NONE" {
        return "NONE";
      }
      var whole := Id(r, origin);
      if whole.Some? {
        return whole.value;
      }
      var expr := AsExpr(r, origin);
      if expr.Some? {
        return expr.value;
      }
      if ',' in r {
        PartsShorten(r);
        var list := Each(Parts(r), origin, |raw|);
        return Join(Wrapped(list), " AND ");
      }
      e := Ref(r, origin);
    }

    /** The loop over the parts of a list. */
    method Each(parts: seq<string>, origin: string, ghost bound: nat) returns (list: seq<string>)
      requires Shorter(parts, bound)
      modifies this
      ensures Outcome(list, refs) == ConvertParts(st, old(refs), parts, origin, bound)
      decreases bound, 1 + |parts|
    {
      hide Convert;
      ghost var goal := ConvertParts(st, refs, parts, origin, bound);
      list := [];
      assert parts[0..] == parts && [] + goal.value == goal.value;
      for i := 0 to |parts|
        invariant var more := ConvertParts(st, refs, parts[i..], origin, bound);
                  Outcome(list + more.value, more.refs) == goal
      {
        assert parts[i..][0] == parts[i] && parts[i..][1..] == parts[i + 1..];
        ghost var more := ConvertParts(st, refs, parts[i..], origin, bound);
        var part := Expression(parts[i], origin);
        ghost var after := ConvertParts(st, refs, parts[i + 1..], origin, bound);
        assert more.value == [part] + after.value;
        assert list + ([part] + after.value) == (list + [part]) + after.value;
        list := list + [part];
      }
      assert parts[|parts|..] == [];
      assert list + [] == list;
    }
  }

  lemma PutNothing(o: Outcome<Option<seq<string>>>)
    ensures Put([], o) == o
  {
    if o.value.Some? {
      assert [] + o.value.value == o.value.value;
    }
  }

  lemma PutTwice(a: seq<string>, b: seq<string>, o: Outcome<Option<seq<string>>>)
    ensures Put(a, Put(b, o)) == Put(a + b, o)
  {
    if o.value.Some? {
      assert a + (b + o.value.value) == (a + b) + o.value.value;
    }
  }
}
