/** Base64 (section 4 of RFC 4648) on bytes, as Python encodes and strictly decodes it. */
module Base64 {
  import opened Octets
  import opened Options

  /** The letter of six bits. */
  function Letter(n: int): char
    requires 0 <= n < 64
  {
    if n < 26 then ('A' as int + n) as char
    else if n < 52 then ('a' as int + n - 26) as char
    else if n < 62 then ('0' as int + n - 52) as char
    else if n == 62 then '+' else '/'
  }

  function Six(c: char): Option<int> {
    if 'A' <= c <= 'Z' then Some(c as int - 'A' as int)
    else if 'a' <= c <= 'z' then Some(c as int - 'a' as int + 26)
    else if '0' <= c <= '9' then Some(c as int - '0' as int + 52)
    else if c == '+' then Some(62)
    else if c == '/' then Some(63)
    else None
  }

  predicate IsLetter(c: char) {
    Six(c).Some?
  }

  lemma SixOfLetter(n: int)
    requires 0 <= n < 64
    ensures Six(Letter(n)) == Some(n)
  {
  }

  lemma SixIsSmall(c: char)
    requires IsLetter(c)
    ensures 0 <= Six(c).value < 64
  {
  }

  function ToLetter(s: bv8): char {
    Letter((s & 63) as int)
  }

  /** The six bits of a letter; 0 for any other character. */
  function Bits(c: char): bv8 {
    if IsLetter(c) then
      SixIsSmall(c);
      Six(c).value as bv8
    else 0
  }

  lemma BitsOfLetter(s: bv8)
    requires s < 64
    ensures IsLetter(ToLetter(s)) && Bits(ToLetter(s)) == s
  {
    Masked(s);
    SixOfLetter((s & 63) as int);
  }

  lemma Masked(s: bv8)
    requires s < 64
    ensures s & 63 == s
  {
  }

  function First(a: bv8): bv8 { a >> 2 }
  function Second(a: bv8, b: bv8): bv8 { ((a & 3) << 4) | (b >> 4) }
  function Third(b: bv8, c: bv8): bv8 { ((b & 15) << 2) | (c >> 6) }
  function Fourth(c: bv8): bv8 { c & 63 }

  function ByteA(p: bv8, q: bv8): bv8 { (p << 2) | (q >> 4) }
  function ByteB(q: bv8, r: bv8): bv8 { (q << 4) | (r >> 2) }
  function ByteC(r: bv8, s: bv8): bv8 { (r << 6) | s }

  lemma Sextets(a: bv8, b: bv8, c: bv8)
    ensures First(a) < 64 && Second(a, b) < 64 && Third(b, c) < 64 && Fourth(c) < 64
    ensures ByteA(First(a), Second(a, b)) == a
    ensures ByteB(Second(a, b), Third(b, c)) == b
    ensures ByteC(Third(b, c), Fourth(c)) == c
  {
  }

  /** The letters of the bytes, without padding. */
  function Letters(data: Bytes): string {
    if data == [] then ""
    else if |data| == 1 then [ToLetter(First(data[0])), ToLetter(Second(data[0], 0))]
    else if |data| == 2 then
      [ToLetter(First(data[0])), ToLetter(Second(data[0], data[1])), ToLetter(Third(data[1], 0))]
    else
      [ToLetter(First(data[0])), ToLetter(Second(data[0], data[1])), ToLetter(Third(data[1], data[2])), ToLetter(Fourth(data[2]))]
      + Letters(data[3..])
  }

  function Padding(n: nat): string {
    if n % 3 == 1 then "==" else if n % 3 == 2 then "=" else ""
  }

  function Encode(data: Bytes): string {
    Letters(data) + Padding(|data|)
  }

  /** How many letters the text starts with. */
  function LetterCount(s: string): (n: nat)
    ensures n <= |s|
  {
    if s == "" || !IsLetter(s[0]) then 0 else 1 + LetterCount(s[1..])
  }

  /** The bytes of letters; a last group of two or three gives one or two. */
  function BytesOf(s: string): Bytes {
    if |s| < 2 then []
    else if |s| == 2 then [ByteA(Bits(s[0]), Bits(s[1]))]
    else if |s| == 3 then [ByteA(Bits(s[0]), Bits(s[1])), ByteB(Bits(s[1]), Bits(s[2]))]
    else
      [ByteA(Bits(s[0]), Bits(s[1])), ByteB(Bits(s[1]), Bits(s[2])), ByteC(Bits(s[2]), Bits(s[3]))] + BytesOf(s[4..])
  }

  /** b64decode(s, validate=True): letters, then at most two "=", enough of them for the last group. */
  function Decode(s: string): Option<Bytes> {
    var n := LetterCount(s);
    var pads := s[n..];
    if pads != "" && pads != "=" && pads != "==" then None
    else if n % 4 == 1 || (n % 4 == 2 && pads != "==") || (n % 4 == 3 && pads == "") then None
    else Some(BytesOf(s[..n]))
  }

  // ------------------------------------------------------------- decoding what was encoded

  function LetterTotal(n: nat): nat {
    4 * (n / 3) + if n % 3 == 0 then 0 else n % 3 + 1
  }

  lemma LetterTotalStep(n: nat)
    requires n >= 3
    ensures LetterTotal(n) == 4 + LetterTotal(n - 3)
  {
  }

  lemma {:induction false} LettersAre(data: Bytes)
    ensures forall i :: 0 <= i < |Letters(data)| ==> IsLetter(Letters(data)[i])
    ensures |Letters(data)| == LetterTotal(|data|)
    ensures BytesOf(Letters(data)) == data
  {
    hide IsLetter, Bits, ToLetter, First, Second, Third, Fourth, ByteA, ByteB, ByteC;
    if data == [] {
    } else if |data| == 1 {
      Group(data[0], 0, 0);
    } else if |data| == 2 {
      Group(data[0], data[1], 0);
    } else {
      Group(data[0], data[1], data[2]);
      LettersAre(data[3..]);
      LetterTotalStep(|data|);
      FourLetters(ToLetter(First(data[0])), ToLetter(Second(data[0], data[1])), ToLetter(Third(data[1], data[2])),
                  ToLetter(Fourth(data[2])), Letters(data[3..]));
      assert data == [data[0], data[1], data[2]] + data[3..];
      hide BytesOf;
    }
  }

  lemma FourLetters(a: char, b: char, c: char, d: char, rest: string)
    ensures BytesOf([a, b, c, d] + rest)
         == [ByteA(Bits(a), Bits(b)), ByteB(Bits(b), Bits(c)), ByteC(Bits(c), Bits(d))] + BytesOf(rest)
  {
    hide Bits, ByteA, ByteB, ByteC;
    assert ([a, b, c, d] + rest)[4..] == rest;
  }

  lemma Group(a: bv8, b: bv8, c: bv8)
    ensures IsLetter(ToLetter(First(a))) && Bits(ToLetter(First(a))) == First(a)
    ensures IsLetter(ToLetter(Second(a, b))) && Bits(ToLetter(Second(a, b))) == Second(a, b)
    ensures IsLetter(ToLetter(Third(b, c))) && Bits(ToLetter(Third(b, c))) == Third(b, c)
    ensures IsLetter(ToLetter(Fourth(c))) && Bits(ToLetter(Fourth(c))) == Fourth(c)
    ensures ByteA(First(a), Second(a, b)) == a && ByteB(Second(a, b), Third(b, c)) == b && ByteC(Third(b, c), Fourth(c)) == c
  {
    hide IsLetter, Bits, ToLetter, First, Second, Third, Fourth, ByteA, ByteB, ByteC;
    Sextets(a, b, c);
    BitsOfLetter(First(a));
    BitsOfLetter(Second(a, b));
    BitsOfLetter(Third(b, c));
    BitsOfLetter(Fourth(c));
  }

  lemma {:induction false} CountLetters(s: string, rest: string)
    requires forall i :: 0 <= i < |s| ==> IsLetter(s[i])
    requires rest == "" || !IsLetter(rest[0])
    ensures LetterCount(s + rest) == |s|
  {
    if s == "" {
      assert s + rest == rest;
    } else {
      assert (s + rest)[1..] == s[1..] + rest;
      CountLetters(s[1..], rest);
    }
  }

  lemma LengthFits(n: nat, length: nat)
    requires length == LetterTotal(n)
    ensures length % 4 == if n % 3 == 0 then 0 else n % 3 + 1
    ensures (length + |Padding(n)|) % 4 == 0
  {
  }

  lemma EncodeLength(data: Bytes)
    ensures |Encode(data)| % 4 == 0
    ensures |Encode(data)| == |Letters(data)| + |Padding(|data|)| && |Padding(|data|)| <= 2
  {
    hide Letters, BytesOf;
    LettersAre(data);
    LengthFits(|data|, |Letters(data)|);
  }

  lemma PaddingIsNoLetter(n: nat)
    ensures Padding(n) == "" || !IsLetter(Padding(n)[0])
  {
  }

  /** Decoding gives back every byte string, the empty one included. */
  lemma DecodeEncode(data: Bytes)
    ensures Decode(Encode(data)) == Some(data)
  {
    hide Letters, BytesOf, IsLetter, LetterCount;
    LettersAre(data);
    var s, pads := Letters(data), Padding(|data|);
    LengthFits(|data|, |s|);
    PaddingIsNoLetter(|data|);
    CountLetters(s, pads);
    assert (s + pads)[..|s|] == s && (s + pads)[|s|..] == pads;
  }

  // ------------------------------------------------------------- the alphabet

  /** The letters are those of RFC 4648 in its order: capitals, small letters, digits, "+" and "/". */
  lemma LetterIs(n: int)
    requires 0 <= n < 64
    ensures n <= 25 ==> 'A' <= Letter(n) <= 'Z' && Letter(n) as int - 'A' as int == n
    ensures 26 <= n <= 51 ==> 'a' <= Letter(n) <= 'z' && Letter(n) as int - 'a' as int == n - 26
    ensures 52 <= n <= 61 ==> '0' <= Letter(n) <= '9' && Letter(n) as int - '0' as int == n - 52
    ensures Letter(62) == '+' && Letter(63) == '/'
  {
  }

  /** Three bytes and their four sextets are digits of one number, the highest first. */
  lemma SextetsAreDigits(a: bv8, b: bv8, c: bv8)
    ensures ((First(a) as bv32) << 18) | ((Second(a, b) as bv32) << 12) | ((Third(b, c) as bv32) << 6) | (Fourth(c) as bv32)
         == ((a as bv32) << 16) | ((b as bv32) << 8) | (c as bv32)
  {
  }
}
