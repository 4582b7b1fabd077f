/** Signed provenance bundles: what a DSSE signature covers, and the bundle written and read. */
module Dsse {
  import opened Octets
  import opened Options
  import opened Strings
  import Sorting
  import Text
  import opened Base64

  // ------------------------------------------------------------- what is signed

  const SPACE: bv8 := 32

  /** The bytes of an ASCII text. */
  function Ascii(s: string): Bytes {
    seq(|s|, i requires 0 <= i < |s| => (s[i] as int % 256) as bv8)
  }

  function Digits(n: nat): Bytes {
    Ascii(Decimal(n))
  }

  /** The pre-authentication encoding of a type and a payload. */
  function Pae(payloadType: Bytes, payload: Bytes): Bytes {
    Ascii("DSSEv1 ") + (Digits(|payloadType|) + ([SPACE] + (payloadType + ([SPACE] + (Digits(|payload|) + ([SPACE] + payload))))))
  }

  /** Of two texts: "DSSEv1", the length of the type, the type, the length of the payload and the
      payload, with a space between them. */
  lemma PaeOfTexts(payloadType: string, payload: string)
    ensures Pae(Ascii(payloadType), Ascii(payload))
         == Ascii("DSSEv1 " + Decimal(|payloadType|) + " " + payloadType + " " + Decimal(|payload|) + " " + payload)
  {
    hide Ascii, Decimal;
    var n, m := Decimal(|payloadType|), Decimal(|payload|);
    AsciiLength(payloadType);
    AsciiLength(payload);
    SpaceIs();
    AsciiJoins("DSSEv1 " + n + " " + payloadType + " " + m + " ", payload);
    AsciiJoins("DSSEv1 " + n + " " + payloadType + " " + m, " ");
    AsciiJoins("DSSEv1 " + n + " " + payloadType + " ", m);
    AsciiJoins("DSSEv1 " + n + " " + payloadType, " ");
    AsciiJoins("DSSEv1 " + n + " ", payloadType);
    AsciiJoins("DSSEv1 " + n, " ");
    AsciiJoins("DSSEv1 ", n);
    PaeParts(Ascii("DSSEv1 "), Ascii(n), Ascii(payloadType), Ascii(m), Ascii(payload));
  }

  lemma PaeParts(head: Bytes, n: Bytes, t: Bytes, m: Bytes, p: Bytes)
    ensures head + (n + ([SPACE] + (t + ([SPACE] + (m + ([SPACE] + p)))))) == head + n + [SPACE] + t + [SPACE] + m + [SPACE] + p
  {
  }

  lemma AsciiLength(s: string)
    ensures |Ascii(s)| == |s|
  {
  }

  lemma AsciiJoins(a: string, b: string)
    ensures Ascii(a + b) == Ascii(a) + Ascii(b)
  {
  }

  lemma SpaceIs()
    ensures Ascii(" ") == [SPACE]
  {
  }

  /** Each character of an ASCII text is one byte of its value. */
  lemma AsciiIs(s: string, i: nat)
    requires i < |s| && s[i] as int < 128
    ensures Ascii(s)[i] as int == s[i] as int
  {
  }

  function FirstSpace(s: Bytes): nat {
    if s == [] || s[0] == SPACE then 0 else 1 + FirstSpace(s[1..])
  }

  lemma {:induction false} FirstSpaceAfter(a: Bytes, x: Bytes)
    requires SPACE !in a
    ensures FirstSpace(a + ([SPACE] + x)) == |a|
  {
    var s := a + ([SPACE] + x);
    if a == [] {
      assert s[0] == SPACE;
    } else {
      assert s[0] == a[0] && s[1..] == a[1..] + ([SPACE] + x);
      FirstSpaceAfter(a[1..], x);
    }
  }

  lemma SameLengthHeads(a: Bytes, x: Bytes, b: Bytes, y: Bytes)
    requires |a| == |b| && a + x == b + y
    ensures a == b && x == y
  {
    assert a == (a + x)[..|a|] && b == (b + y)[..|b|];
    assert x == (a + x)[|a|..] && y == (b + y)[|b|..];
  }

  /** Two texts cut at their first space. */
  lemma CutAtSpace(a: Bytes, x: Bytes, b: Bytes, y: Bytes)
    requires SPACE !in a && SPACE !in b
    requires a + ([SPACE] + x) == b + ([SPACE] + y)
    ensures a == b && x == y
  {
    hide FirstSpace;
    FirstSpaceAfter(a, x);
    FirstSpaceAfter(b, y);
    SameLengthHeads(a, [SPACE] + x, b, [SPACE] + y);
    SameLengthHeads([SPACE], x, [SPACE], y);
  }

  lemma {:induction false} DigitBytes(n: nat)
    ensures forall i :: 0 <= i < |Decimal(n)| ==> '0' <= Decimal(n)[i] <= '9'
  {
    if n >= 10 { DigitBytes(n / 10); }
  }

  lemma DigitIsNoSpace(c: char)
    requires '0' <= c <= '9'
    ensures (c as int % 256) as bv8 != SPACE && ((c as int % 256) as bv8) as int == c as int
  {
  }

  lemma DigitsAreNoSpace(n: nat)
    ensures SPACE !in Digits(n)
  {
    DigitBytes(n);
    var s := Decimal(n);
    forall i | 0 <= i < |s| ensures Digits(n)[i] != SPACE {
      DigitIsNoSpace(s[i]);
    }
  }

  lemma DigitsAreInjective(m: nat, n: nat)
    requires Digits(m) == Digits(n)
    ensures m == n
  {
    DigitBytes(m);
    DigitBytes(n);
    var a, b := Decimal(m), Decimal(n);
    assert |a| == |Digits(m)| && |b| == |Digits(n)|;
    forall i | 0 <= i < |a| ensures a[i] == b[i] {
      DigitIsNoSpace(a[i]);
      DigitIsNoSpace(b[i]);
      assert Digits(m)[i] == Digits(n)[i];
    }
    DecimalIsInjective(m, n);
  }

  /** One message has one type and one payload: no other pair is signed by the same signature. */
  lemma PaeIsInjective(t: Bytes, p: Bytes, u: Bytes, q: Bytes)
    requires Pae(t, p) == Pae(u, q)
    ensures t == u && p == q
  {
    hide Ascii, Digits;
    var tailT := [SPACE] + (Digits(|p|) + ([SPACE] + p));
    var tailU := [SPACE] + (Digits(|q|) + ([SPACE] + q));
    SameLengthHeads(Ascii("DSSEv1 "), Digits(|t|) + ([SPACE] + (t + tailT)),
                    Ascii("DSSEv1 "), Digits(|u|) + ([SPACE] + (u + tailU)));
    DigitsAreNoSpace(|t|);
    DigitsAreNoSpace(|u|);
    CutAtSpace(Digits(|t|), t + tailT, Digits(|u|), u + tailU);
    DigitsAreInjective(|t|, |u|);
    SameLengthHeads(t, tailT, u, tailU);
    SameLengthHeads([SPACE], Digits(|p|) + ([SPACE] + p), [SPACE], Digits(|q|) + ([SPACE] + q));
    DigitsAreNoSpace(|p|);
    DigitsAreNoSpace(|q|);
    CutAtSpace(Digits(|p|), p, Digits(|q|), q);
  }

  // ------------------------------------------------------------- bundles

  const MAX_STATEMENT_BYTES := 262144
  const MAX_BUNDLE_BYTES := 4194304
  const MAX_ENVELOPES := 16
  const MAX_SIGNATURES := 4

  datatype Signature = Signature(keyid: Option<string>, sig: string)

  datatype Envelope = Envelope(payload: string, payloadType: string, signatures: seq<Signature>)

  /** JSON for envelopes: load gives None for a text that is not one object of that shape. */
  datatype Json = Json(dump: Envelope -> string, load: string -> Option<Envelope>)

  ghost predicate ValidJson(json: Json) {
    forall e :: json.load(json.dump(e)) == Some(e) && '\n' !in json.dump(e) && '\r' !in json.dump(e) && json.dump(e) != ""
  }

  datatype Statement = Statement(name: string, data: Bytes)

  /** Bytes as characters of the same values. */
  function Chars(data: Bytes): string {
    seq(|data|, i requires 0 <= i < |data| => (data[i] as int) as char)
  }

  /** The order of pairs: by name, then by content. */
  function InOrder(): (Statement, Statement) -> bool {
    (a: Statement, b: Statement) => if a.name == b.name then Text.AtMost(Chars(a.data), Chars(b.data)) else Text.Before(a.name, b.name)
  }

  lemma StatementsOrder()
    ensures Sorting.TotalOrder(InOrder())
  {
    hide Chars;
    forall a: Statement, b: Statement ensures InOrder()(a, b) || InOrder()(b, a) {
      Text.BeforeTotal(a.name, b.name);
      Text.BeforeTotal(Chars(a.data), Chars(b.data));
    }
    forall a: Statement, b: Statement, c: Statement | InOrder()(a, b) && InOrder()(b, c) ensures InOrder()(a, c) {
      OrderPasses(a, b, c);
    }
  }

  lemma OrderPasses(a: Statement, b: Statement, c: Statement)
    requires InOrder()(a, b) && InOrder()(b, c)
    ensures InOrder()(a, c)
  {
    hide Chars;
    if a.name == b.name && b.name == c.name {
      Text.AtMostTransitive(Chars(a.data), Chars(b.data), Chars(c.data));
    } else if a.name != b.name && b.name != c.name {
      Text.BeforeTransitive(a.name, b.name, c.name);
      Text.BeforeIrreflexive(a.name);
    }
  }

  function SortedStatements(statements: seq<Statement>): seq<Statement> {
    StatementsOrder();
    Sorting.Sorted(statements, InOrder())
  }

  function EnvelopeOf(payloadType: string, s: Statement, sign: Bytes -> Bytes, keyid: string): Envelope {
    Envelope(Encode(s.data), payloadType, [Signature(Some(keyid), Encode(sign(Pae(Ascii(payloadType), s.data))))])
  }

  function BundleLines(json: Json, payloadType: string, list: seq<Statement>, sign: Bytes -> Bytes, keyid: string): seq<string> {
    seq(|list|, i requires 0 <= i < |list| => json.dump(EnvelopeOf(payloadType, list[i], sign, keyid)))
  }

  function SignBundle(json: Json, payloadType: string, statements: seq<Statement>, sign: Bytes -> Bytes, keyid: string): string {
    Join(BundleLines(json, payloadType, SortedStatements(statements), sign, keyid), "\n") + "\n"
  }

  /** Decoded, unless the text is longer than that many bytes can need. */
  function Bounded(value: string, maxBytes: nat): Option<Bytes> {
    if |value| > maxBytes * 4 / 3 + 4 then None else Decode(value)
  }

  predicate IsKeyId(s: string) {
    s != "" && |s| <= 128 && forall i :: 0 <= i < |s| ==> s[i] >= ' ' && s[i] != '\U{7f}'
  }

  datatype Signed = Signed(payload: Bytes, signatures: seq<Bytes>)

  function RawSignature(s: Signature): Option<Bytes> {
    if s.keyid.Some? && !IsKeyId(s.keyid.value) then None
    else
      var raw := Bounded(s.sig, 64);
      if raw.None? || |raw.value| != 64 then None else raw
  }

  function RawSignatures(sigs: seq<Signature>): Option<seq<Bytes>> {
    if sigs == [] then Some([])
    else
      var front, last := RawSignatures(sigs[..|sigs| - 1]), RawSignature(sigs[|sigs| - 1]);
      if front.None? || last.None? then None else Some(front.value + [last.value])
  }

  function ParseLine(json: Json, payloadType: string, line: string): Option<Signed> {
    var env := json.load(line);
    if env.None? || env.value.payloadType != payloadType then None
    else
      var payload, n := Bounded(env.value.payload, MAX_STATEMENT_BYTES), |env.value.signatures|;
      if payload.None? || n < 1 || n > MAX_SIGNATURES then None
      else
        var raw := RawSignatures(env.value.signatures);
        if raw.None? then None else Some(Signed(payload.value, raw.value))
  }

  function ParseAll(json: Json, payloadType: string, lines: seq<string>): Option<seq<Signed>> {
    if lines == [] then Some([])
    else
      var front, last := ParseAll(json, payloadType, lines[..|lines| - 1]), ParseLine(json, payloadType, lines[|lines| - 1]);
      if front.None? || last.None? then None else Some(front.value + [last.value])
  }

  /** The lines of a bundle of a legal size and shape. */
  function LinesOf(data: string): Option<seq<string>> {
    if data == "" || |data| > MAX_BUNDLE_BYTES || data[|data| - 1] != '\n' || '\r' in data then None
    else
      var lines := SplitFeeds(data[..|data| - 1]);
      if lines == [""] || |lines| > MAX_ENVELOPES then None else Some(lines)
  }

  /** parse_bundle: the payload and the signatures of every envelope, or None for the errors. */
  method ParseBundle(json: Json, payloadType: string, data: string) returns (r: Option<seq<Signed>>)
    ensures r == if LinesOf(data).None? then None else ParseAll(json, payloadType, LinesOf(data).value)
  {
    hide LinesOf, ParseLine;
    var lines := LinesOf(data);
    if lines.None? {
      return None;
    }
    var list: seq<Signed> := [];
    for n := 0 to |lines.value|
      invariant ParseAll(json, payloadType, lines.value[..n]) == Some(list)
    {
      assert lines.value[..n + 1][..n] == lines.value[..n];
      var signed := ParseLine(json, payloadType, lines.value[n]);
      if signed.None? {
        FailsFrom(json, payloadType, lines.value, n + 1);
        return None;
      }
      list := list + [signed.value];
    }
    assert lines.value[..|lines.value|] == lines.value;
    r := Some(list);
  }

  lemma {:induction false} FailsFrom(json: Json, payloadType: string, lines: seq<string>, n: nat)
    requires n <= |lines| && ParseAll(json, payloadType, lines[..n]).None?
    ensures ParseAll(json, payloadType, lines).None?
    decreases |lines|
  {
    if n < |lines| {
      assert lines[..|lines| - 1][..n] == lines[..n];
      FailsFrom(json, payloadType, lines[..|lines| - 1], n);
    } else {
      assert lines[..n] == lines;
    }
  }

  /** A signature is read when its key id, if it has one, is a printable text of at most 128
      characters, and its text decodes to 64 bytes. */
  ghost predicate Signs(s: Signature, raw: Bytes) {
    && Decode(s.sig) == Some(raw) && |raw| == 64
    && (s.keyid.Some? ==> 1 <= |s.keyid.value| <= 128 && forall c :: c in s.keyid.value ==> c as int >= 32 && c as int != 127)
  }

  lemma RawSignatureIff(s: Signature, raw: Bytes)
    ensures RawSignature(s) == Some(raw) <==> Signs(s, raw) && |s.sig| <= 89
  {
    hide Decode;
    if s.keyid.Some? {
      KeyIdIff(s.keyid.value);
    }
  }

  lemma KeyIdIff(s: string)
    ensures IsKeyId(s) <==> 1 <= |s| <= 128 && forall c :: c in s ==> c as int >= 32 && c as int != 127
  {
    if forall c :: c in s ==> c as int >= 32 && c as int != 127 {
      forall i | 0 <= i < |s| ensures s[i] >= ' ' && s[i] != '\U{7f}' {
        assert s[i] in s;
      }
    }
  }

  lemma {:induction false} RawSignaturesAre(sigs: seq<Signature>)
    ensures var raw := RawSignatures(sigs);
            raw.Some? ==> |raw.value| == |sigs| && forall i :: 0 <= i < |sigs| ==> RawSignature(sigs[i]) == Some(raw.value[i])
  {
    hide RawSignature;
    if sigs != [] { RawSignaturesAre(sigs[..|sigs| - 1]); }
  }

  lemma {:induction false} RawSignaturesOf(sigs: seq<Signature>, raw: seq<Bytes>)
    requires |raw| == |sigs| && forall i :: 0 <= i < |sigs| ==> RawSignature(sigs[i]) == Some(raw[i])
    ensures RawSignatures(sigs) == Some(raw)
  {
    hide RawSignature;
    if sigs != [] {
      var n := |sigs| - 1;
      RawSignaturesOf(sigs[..n], raw[..n]);
      assert raw == raw[..n] + [raw[n]];
    }
  }

  lemma RawSignaturesIff(sigs: seq<Signature>, raw: seq<Bytes>)
    ensures RawSignatures(sigs) == Some(raw)
       <==> |raw| == |sigs| && forall i :: 0 <= i < |sigs| ==> Signs(sigs[i], raw[i]) && |sigs[i].sig| <= 89
  {
    hide RawSignature, RawSignatures, Signs;
    RawSignaturesAre(sigs);
    if |raw| == |sigs| {
      forall i | 0 <= i < |sigs| ensures RawSignature(sigs[i]) == Some(raw[i]) <==> Signs(sigs[i], raw[i]) && |sigs[i].sig| <= 89 {
        RawSignatureIff(sigs[i], raw[i]);
      }
      if forall i :: 0 <= i < |sigs| ==> Signs(sigs[i], raw[i]) && |sigs[i].sig| <= 89 {
        RawSignaturesOf(sigs, raw);
      }
    }
  }

  /** A line is read when it is an envelope of the type with a payload within the bound and one to
      four signatures, each of 64 bytes. */
  lemma LineIff(json: Json, payloadType: string, line: string, payload: Bytes, raw: seq<Bytes>)
    ensures ParseLine(json, payloadType, line) == Some(Signed(payload, raw))
       <==> && json.load(line).Some?
            && var env := json.load(line).value;
               && env.payloadType == payloadType
               && |env.payload| <= 0x40000 * 4 / 3 + 4 && Decode(env.payload) == Some(payload)
               && 1 <= |env.signatures| <= 4 && |raw| == |env.signatures|
               && forall i :: 0 <= i < |raw| ==> Signs(env.signatures[i], raw[i]) && |env.signatures[i].sig| <= 89
  {
    hide Decode, Signs, RawSignatures;
    if json.load(line).Some? {
      RawSignaturesIff(json.load(line).value.signatures, raw);
    }
  }

  // ------------------------------------------------------------- reading what was signed

  /** The bound on the text lets through exactly the payloads of at most two bytes more. */
  lemma BoundedEncode(data: Bytes)
    ensures Bounded(Encode(data), MAX_STATEMENT_BYTES) == if |data| <= 0x40000 + 2 then Some(data) else None
  {
    hide Encode, Decode;
    EncodedLength(data);
    DecodeEncode(data);
  }

  lemma EncodedLength(data: Bytes)
    ensures |Encode(data)| == 4 * ((|data| + 2) / 3)
  {
    hide Letters, BytesOf;
    LettersAre(data);
  }

  lemma BoundedSignature(sig: Bytes)
    requires |sig| == 64
    ensures Bounded(Encode(sig), 64) == Some(sig)
  {
    hide Encode, Decode;
    EncodedLength(sig);
    DecodeEncode(sig);
  }

  lemma EnvelopeParses(json: Json, payloadType: string, s: Statement, sign: Bytes -> Bytes, keyid: string)
    requires ValidJson(json) && IsKeyId(keyid) && forall m :: |sign(m)| == 64
    ensures ParseLine(json, payloadType, json.dump(EnvelopeOf(payloadType, s, sign, keyid)))
         == if |s.data| <= MAX_STATEMENT_BYTES + 2 then Some(Signed(s.data, [sign(Pae(Ascii(payloadType), s.data))])) else None
  {
    hide Encode, Decode, Pae, Ascii, Bounded;
    var sig := sign(Pae(Ascii(payloadType), s.data));
    BoundedEncode(s.data);
    BoundedSignature(sig);
    var e := EnvelopeOf(payloadType, s, sign, keyid);
    assert json.load(json.dump(e)) == Some(e);
    OneSignature(e.signatures[0], sig);
    assert e.signatures == [e.signatures[0]];
  }

  lemma OneSignature(s: Signature, sig: Bytes)
    requires RawSignature(s) == Some(sig)
    ensures RawSignatures([s]) == Some([sig])
  {
    hide RawSignature;
    assert [s][..0] == [] && [s][0] == s;
    assert RawSignatures([]) == Some([]);
    assert [] + [sig] == [sig];
  }

  function SignedOf(payloadType: string, list: seq<Statement>, sign: Bytes -> Bytes): seq<Signed> {
    seq(|list|, i requires 0 <= i < |list| => Signed(list[i].data, [sign(Pae(Ascii(payloadType), list[i].data))]))
  }

  lemma {:induction false} LinesParse(json: Json, payloadType: string, list: seq<Statement>, sign: Bytes -> Bytes, keyid: string)
    requires ValidJson(json) && IsKeyId(keyid) && forall m :: |sign(m)| == 64
    ensures ParseAll(json, payloadType, BundleLines(json, payloadType, list, sign, keyid))
         == if forall s :: s in list ==> |s.data| <= MAX_STATEMENT_BYTES + 2 then Some(SignedOf(payloadType, list, sign)) else None
  {
    hide ParseLine, EnvelopeOf, Pae, Ascii, ValidJson, IsKeyId;
    if list != [] {
      var front, last := list[..|list| - 1], list[|list| - 1];
      var lines := BundleLines(json, payloadType, list, sign, keyid);
      assert lines[..|lines| - 1] == BundleLines(json, payloadType, front, sign, keyid);
      LinesParse(json, payloadType, front, sign, keyid);
      EnvelopeParses(json, payloadType, last, sign, keyid);
      assert list == front + [last];
      assert SignedOf(payloadType, list, sign)
          == SignedOf(payloadType, front, sign) + [Signed(last.data, [sign(Pae(Ascii(payloadType), last.data))])];
    }
  }

  lemma {:induction false} JoinHas(pieces: seq<string>, c: char)
    requires c != '\n' && forall i :: 0 <= i < |pieces| ==> c !in pieces[i]
    ensures c !in Join(pieces, "\n")
  {
    if pieces != [] { JoinHas(pieces[1..], c); }
  }

  /** A signed bundle's lines are its envelopes, within the limits on number and size. */
  lemma BundleLinesRead(json: Json, payloadType: string, list: seq<Statement>, sign: Bytes -> Bytes, keyid: string)
    requires ValidJson(json)
    ensures var lines := BundleLines(json, payloadType, list, sign, keyid); var data := Join(lines, "\n") + "\n";
            LinesOf(data) == if 1 <= |list| <= MAX_ENVELOPES && |data| <= MAX_BUNDLE_BYTES then Some(lines) else None
  {
    hide EnvelopeOf, SplitFeeds;
    var lines := BundleLines(json, payloadType, list, sign, keyid);
    var data := Join(lines, "\n") + "\n";
    forall i | 0 <= i < |lines| ensures '\n' !in lines[i] && '\r' !in lines[i] && lines[i] != "" {
      assert lines[i] == json.dump(EnvelopeOf(payloadType, list[i], sign, keyid));
    }
    JoinHas(lines, '\r');
    assert data[..|data| - 1] == Join(lines, "\n");
    if list == [] {
      FeedsOfLine("");
    } else {
      FeedsOfJoined(lines);
      assert lines[0] != "";
    }
  }

  /** Reading a signed bundle gives back every statement with its signature, ordered by name
      and content, exactly when there are one to sixteen, no payload is too long and the whole fits. */
  lemma ParseUndoesSign(json: Json, payloadType: string, statements: seq<Statement>, sign: Bytes -> Bytes, keyid: string)
    requires ValidJson(json) && IsKeyId(keyid) && forall m :: |sign(m)| == 64
    ensures var data := SignBundle(json, payloadType, statements, sign, keyid);
            var read := if LinesOf(data).None? then None else ParseAll(json, payloadType, LinesOf(data).value);
            read == if && 1 <= |statements| <= 16 && |data| <= 0x400000
                       && forall s :: s in statements ==> |s.data| <= 0x40000 + 2
                    then Some(SignedOf(payloadType, SortedStatements(statements), sign)) else None
  {
    hide BundleLines, LinesOf, SignedOf, ParseAll;
    var list := SortedStatements(statements);
    SortedHolds(statements);
    BundleLinesRead(json, payloadType, list, sign, keyid);
    LinesParse(json, payloadType, list, sign, keyid);
  }

  lemma SortedHolds(statements: seq<Statement>)
    ensures |SortedStatements(statements)| == |statements|
    ensures forall s :: s in SortedStatements(statements) <==> s in statements
  {
    StatementsOrder();
    Sorting.SortedHas(statements, InOrder());
  }
}
