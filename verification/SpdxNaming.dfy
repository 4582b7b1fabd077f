/** Naming one licence: SPDX identifiers, aliases and invented LicenseRef-s. */
module SpdxNaming {
  import opened Options
  import opened Strings
  import opened SpdxTokens
  import opened SpdxExpression

  /** The tables, and the text functions the generator takes from its language. digest is the
      first eight hexadecimal digits of a hash. */
  datatype Setting = Setting(
    licenses: set<string>,
    exceptions: set<string>,
    aliases: map<string, string>,
    upper: string -> string,
    lower: string -> string,
    digest: string -> string)

  predicate IsRefChar(c: char) {
    'A' <= c <= 'Z' || 'a' <= c <= 'z' || '0' <= c <= '9' || c == '.' || c == '-'
  }

  /** The characters of a reference, written out. */
  lemma RefCharIff(c: char)
    ensures IsRefChar(c) <==>
            || c in {'A', 'B', 'C', 'D', 'E', 'F', 'G', 'H', 'I', 'J', 'K', 'L', 'M', 'N', 'O', 'P', 'Q', 'R', 'S', 'T', 'U', 'V', 'W', 'X', 'Y', 'Z'}
            || c in {'a', 'b', 'c', 'd', 'e', 'f', 'g', 'h', 'i', 'j', 'k', 'l', 'm', 'n', 'o', 'p', 'q', 'r', 's', 't', 'u', 'v', 'w', 'x', 'y', 'z'}
            || c in {'0', '1', '2', '3', '4', '5', '6', '7', '8', '9', '.', '-'}
  {
  }

  predicate IsRefText(s: string) {
    s != "" && forall i :: 0 <= i < |s| ==> IsRefChar(s[i])
  }

  predicate IsRef(t: string) {
    REF_PREFIX <= t && IsRefText(t[|REF_PREFIX|..])
  }

  /** A name the checker reads as one token that is neither an operator nor a reference. */
  predicate IsListName(t: string) {
    IsWord(t) && !IsReserved(t) && !(REF_PREFIX <= t) && t != "NONE" && t != "NOASSERTION"
  }

  /** What the source's tables satisfy; a digest is made of identifier characters, and a
      parenthesis has no case. */
  ghost predicate ValidSetting(st: Setting) {
    && (forall x :: x in st.licenses ==> IsListName(x) && Core(x) == x)
    && (forall x :: x in st.exceptions ==> IsListName(x) && x !in st.licenses && Core(x) !in st.licenses)
    && (forall a :: a in st.aliases ==> st.aliases[a] in st.licenses)
    && (forall raw: string :: IsRefText(st.digest(raw)))
    && st.upper("(") == "(" && st.upper(")") == ")"
  }

  /** What a LicenseRef- stands for: the name it was made from and where that was declared. */
  datatype Declared = Declared(name: string, origin: string)

  type Refs = map<string, Declared>

  datatype Outcome<+T> = Outcome(value: T, refs: Refs)

  function NamesOf(st: Setting, refs: Refs): Names {
    Names(st.licenses, st.exceptions, refs.Keys)
  }

  ghost predicate ValidRefs(refs: Refs) {
    forall r :: r in refs ==> IsRef(r)
  }

  ghost predicate Grows(refs: Refs, more: Refs) {
    forall r :: r in refs ==> r in more && more[r] == refs[r]
  }

  // ------------------------------------------------------------- references

  /** Runs of other characters become one '-'. */
  function Squash(raw: string, inRun: bool): string {
    if raw == "" then ""
    else if IsRefChar(raw[0]) then [raw[0]] + Squash(raw[1..], false)
    else (if inRun then "" else "-") + Squash(raw[1..], true)
  }

  predicate IsDotOrDash(c: char) {
    c == '-' || c == '.'
  }

  function Base(raw: string): string {
    var trimmed := Trim(Squash(raw, false), IsDotOrDash);
    var cut := if |trimmed| > 60 then trimmed[..60] else trimmed;
    if cut == "" then "Unknown" else cut
  }

  function RefName(st: Setting, refs: Refs, raw: string): string {
    var ref := REF_PREFIX + Base(raw);
    if ref in refs && refs[ref].name != raw then ref + "-" + st.digest(raw) else ref
  }

  function RefOf(st: Setting, refs: Refs, raw: string, origin: string): Outcome<string> {
    var ref := RefName(st, refs, raw);
    Outcome(ref, if ref in refs then refs else refs[ref := Declared(raw, origin)])
  }

  lemma {:induction false} SquashKeeps(raw: string, inRun: bool)
    ensures forall i :: 0 <= i < |Squash(raw, inRun)| ==> IsRefChar(Squash(raw, inRun)[i])
  {
    if raw != "" {
      SquashKeeps(raw[1..], !IsRefChar(raw[0]));
    }
  }

  lemma BaseIsRefText(raw: string)
    ensures IsRefText(Base(raw))
  {
    var squashed := Squash(raw, false);
    SquashKeeps(raw, false);
    var left := TrimLeft(squashed, IsDotOrDash);
    TrimKeeps(squashed, IsDotOrDash);
    TrimKeeps(left, IsDotOrDash);
    var trimmed := TrimRight(left, IsDotOrDash);
    forall i | 0 <= i < |trimmed| ensures IsRefChar(trimmed[i]) {
      assert trimmed[i] in left && trimmed[i] in squashed;
    }
  }

  /** An invented reference has the shape SPDX asks for, is declared, and disturbs no other. */
  lemma RefIsDeclared(st: Setting, refs: Refs, raw: string, origin: string)
    requires ValidSetting(st) && ValidRefs(refs)
    ensures var o := RefOf(st, refs, raw, origin);
            && IsRef(o.value) && o.value in o.refs && ValidRefs(o.refs) && Grows(refs, o.refs)
            && o.refs.Keys == refs.Keys + {o.value}
  {
    BaseIsRefText(raw);
    assert IsRefText(st.digest(raw));
    var plain, suffixed := Base(raw), Base(raw) + "-" + st.digest(raw);
    assert IsRefText(suffixed);
    assert (REF_PREFIX + plain)[|REF_PREFIX|..] == plain;
    assert REF_PREFIX + plain + "-" + st.digest(raw) == REF_PREFIX + suffixed;
    assert (REF_PREFIX + suffixed)[|REF_PREFIX|..] == suffixed;
  }

  /** A reference stands for the name it was asked for, unless that name's digest form had
      itself been taken by another name. */
  lemma RefIsOwnIff(st: Setting, refs: Refs, raw: string, origin: string)
    ensures var ref := REF_PREFIX + Base(raw);
            var long := ref + "-" + st.digest(raw);
            var o := RefOf(st, refs, raw, origin);
            (o.refs[o.value].name == raw) <==>
            !(ref in refs && refs[ref].name != raw && long in refs && refs[long].name != raw)
  {
  }

  /** Asked again for the same name, whatever was declared in between, the generator gives the
      same reference, as long as that reference stands for the name. */
  lemma RefIsStable(st: Setting, refs: Refs, later: Refs, raw: string, origin: string, again: string)
    requires var o := RefOf(st, refs, raw, origin);
             Grows(o.refs, later) && o.refs[o.value].name == raw
    ensures RefOf(st, later, raw, again) == Outcome(RefOf(st, refs, raw, origin).value, later)
  {
    var plain := REF_PREFIX + Base(raw);
    assert |plain + "-" + st.digest(raw)| != |plain|;
  }

  // ------------------------------------------------------------- identifiers

  datatype Reading = Listed(id: string) | Reference(name: string) | Unreadable

  function Read(st: Setting, token: string): Reading {
    if Core(token) in st.licenses then Listed(token)
    else if st.lower(token) in st.aliases then Listed(st.aliases[st.lower(token)])
    else if IsRef(token) then Reference(token[|REF_PREFIX|..])
    else Unreadable
  }

  function IdOf(st: Setting, refs: Refs, token: string, origin: string): Outcome<Option<string>> {
    match Read(st, token)
    case Listed(id) => Outcome(Some(id), refs)
    case Reference(name) => var o := RefOf(st, refs, name, origin); Outcome(Some(o.value), o.refs)
    case Unreadable => Outcome(None, refs)
  }

  /** A token usable as a licence under the names declared. */
  predicate IsLicense(names: Names, t: string) {
    IsWord(t) && !IsReserved(t) && NameProblems(names, t, false) == []
  }

  lemma RefIsWord(t: string)
    requires IsRef(t)
    ensures IsWord(t) && !IsReserved(t) && t != "NONE" && t != "NOASSERTION"
  {
    forall i | 0 <= i < |t| ensures IsWordChar(t[i]) {
      if i < |REF_PREFIX| {
        assert t[i] == REF_PREFIX[i];
      } else {
        assert t[i] == t[|REF_PREFIX|..][i - |REF_PREFIX|];
      }
    }
    assert t[0] == 'L' && t[1] == 'i';
  }

  lemma ListedIsWord(st: Setting, id: string)
    requires ValidSetting(st) && Core(id) in st.licenses
    ensures IsWord(id) && !IsReserved(id) && id != "NONE" && id != "NOASSERTION" && !(REF_PREFIX <= id)
    ensures id !in st.exceptions
  {
    var core := Core(id);
    assert IsListName(core);
    if id != core {
      assert id == core + "+";
      assert id[|id| - 1] == '+' && REF_PREFIX[|REF_PREFIX| - 1] == '-';
    }
  }

  /** Whatever it names is one licence token, usable from then on. */
  lemma IdIsLicense(st: Setting, refs: Refs, token: string, origin: string)
    requires ValidSetting(st) && ValidRefs(refs)
    ensures var o := IdOf(st, refs, token, origin);
            && ValidRefs(o.refs) && Grows(refs, o.refs)
            && (o.value.Some? <==> !Read(st, token).Unreadable?)
            && (o.value.Some? ==>
                  && IsLicense(NamesOf(st, o.refs), o.value.value)
                  && o.value.value != "NONE" && o.value.value != "NOASSERTION"
                  && o.value.value !in st.exceptions)
  {
    match Read(st, token)
    case Listed(id) =>
      ListedIsWord(st, id);
    case Reference(name) =>
      RefIsDeclared(st, refs, name, origin);
      RefIsWord(RefOf(st, refs, name, origin).value);
    case Unreadable =>
  }
}
