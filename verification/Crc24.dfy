/** The OpenPGP armor checksum (section 6.1 of RFC 4880): a 24-bit shift register. */
module Crc24 {

  predicate Is24(c: bv32) {
    c < 0x1000000
  }

  function Xor(a: bv32, b: bv32): bv32 {
    a ^ b
  }

  function Double(c: bv32): bv32 {
    c << 1
  }

  predicate Out(d: bv32) {
    d & 0x1000000 != 0
  }

  function Poly(d: bv32): bv32 {
    d ^ 0x1864CFB
  }

  /** One shift of the register: a bit that leaves it is taken back by the polynomial. */
  function Shift(c: bv32): bv32 {
    var d := Double(c);
    if Out(d) then Poly(d) else d
  }

  function Shift8(c: bv32): bv32 {
    Shift(Shift(Shift(Shift(Shift(Shift(Shift(Shift(c))))))))
  }

  function Top(b: bv8): bv32 {
    (b as bv32) << 16
  }

  /** One byte. */
  function Feed(c: bv32, b: bv8): bv32 {
    Shift8(Xor(c, Top(b)))
  }

  function FeedAll(c: bv32, data: seq<bv8>): bv32
    decreases |data|
  {
    if data == [] then c else FeedAll(Feed(c, data[0]), data[1..])
  }

  function Checksum(data: seq<bv8>): bv32 {
    FeedAll(0xB704CE, data)
  }

  method ComputeCrc24(data: seq<bv8>) returns (crc: bv32)
    ensures crc == Checksum(data) && Is24(crc)
  {
    hide Feed, Is24;
    crc := 0xB704CE;
    StartIs24();
    assert data[0..] == data;
    for i := 0 to |data|
      invariant FeedAll(crc, data[i..]) == Checksum(data) && Is24(crc)
    {
      assert data[i..][0] == data[i] && data[i..][1..] == data[i + 1..];
      FeedIs24(crc, data[i]);
      crc := FeedByte(crc, data[i]);
    }
    assert data[|data|..] == [];
    Masked(crc);
    crc := crc & 0xFFFFFF;
  }

  /** The eight shifts. */
  method FeedByte(start: bv32, byte: bv8) returns (crc: bv32)
    ensures crc == Feed(start, byte)
  {
    hide Shift;
    crc := start ^ ((byte as bv32) << 16);
    ghost var loaded := crc;
    for k := 0 to 8
      invariant Shifts(crc, 8 - k) == Shift8(loaded)
    {
      crc := ShiftOnce(crc);
    }
  }

  method ShiftOnce(c: bv32) returns (crc: bv32)
    ensures crc == Shift(c)
  {
    crc := Double(c);
    if Out(crc) {
      crc := Poly(crc);
    }
  }

  function Shifts(c: bv32, n: nat): bv32
    decreases n
  {
    if n == 0 then c else Shifts(Shift(c), n - 1)
  }

  lemma StartIs24()
    ensures Is24(0xB704CE)
  {
  }

  lemma Masked(c: bv32)
    requires Is24(c)
    ensures c & 0xFFFFFF == c
  {
  }

  // ------------------------------------------------------------- facts about single words

  lemma ShiftIs24(c: bv32)
    requires Is24(c)
    ensures Is24(Shift(c))
  {
  }

  lemma XorIs24(a: bv32, b: bv32)
    requires Is24(a) && Is24(b)
    ensures Is24(Xor(a, b))
  {
  }

  lemma TopIs24(b: bv8)
    ensures Is24(Top(b))
  {
  }

  lemma XorTwice(a: bv32, b: bv32)
    ensures Xor(Xor(a, b), b) == a
  {
  }

  lemma XorAround(a: bv32, b: bv32, c: bv32)
    ensures Xor(a, Xor(b, c)) == Xor(Xor(a, b), c)
  {
  }

  predicate Odd(d: bv32) {
    d & 1 != 0
  }

  function Halve(d: bv32): bv32 {
    d >> 1
  }

  /** The shift backwards. */
  function Unshift(c: bv32): bv32 {
    if Odd(c) then Halve(Poly(c)) else Halve(c)
  }

  lemma Halved(c: bv32)
    requires Is24(c)
    ensures Halve(Double(c)) == c && Poly(Poly(Double(c))) == Double(c)
    ensures !Odd(Double(c)) && Odd(Poly(Double(c)))
  {
  }

  lemma UnshiftShift(c: bv32)
    requires Is24(c)
    ensures Unshift(Shift(c)) == c
  {
    hide Is24, Double, Out, Poly, Odd, Halve;
    Halved(c);
  }

  lemma ShiftUnshift(c: bv32)
    requires Is24(c)
    ensures Is24(Unshift(c)) && Shift(Unshift(c)) == c
  {
  }

  lemma XorDoubled(a: bv32, b: bv32)
    ensures Double(Xor(a, b)) == Xor(Double(a), Double(b))
  {
  }

  lemma XorOut(x: bv32, y: bv32)
    ensures Out(Xor(x, y)) <==> Out(x) != Out(y)
  {
  }

  lemma PolyIsXor(d: bv32)
    ensures Poly(d) == Xor(d, 0x1864CFB)
  {
  }

  lemma XorCommutes(a: bv32, b: bv32)
    ensures Xor(a, b) == Xor(b, a)
  {
  }

  lemma XorPoly(x: bv32, y: bv32)
    ensures Poly(Xor(x, y)) == Xor(x, Poly(y)) && Poly(Xor(x, y)) == Xor(Poly(x), y)
    ensures Xor(x, y) == Xor(Poly(x), Poly(y))
  {
    hide Xor, Poly;
    PolyIsXor(x);
    PolyIsXor(y);
    PolyIsXor(Xor(x, y));
    XorAround(x, y, 0x1864CFB);
    XorCommutes(Poly(x), y);
    XorAround(y, x, 0x1864CFB);
    XorCommutes(x, y);
    XorAround(Poly(x), y, 0x1864CFB);
    XorTwice(Xor(x, y), 0x1864CFB);
  }

  /** The shift respects exclusive or. */
  lemma ShiftIsLinear(a: bv32, b: bv32)
    ensures Shift(Xor(a, b)) == Xor(Shift(a), Shift(b))
  {
    hide Double, Out, Poly, Xor;
    XorDoubled(a, b);
    XorOut(Double(a), Double(b));
    XorPoly(Double(a), Double(b));
  }

  // ------------------------------------------------------------- eight shifts

  lemma Shift8Is24(c: bv32)
    requires Is24(c)
    ensures Is24(Shift8(c))
  {
    hide Shift, Is24;
    ShiftIs24(c);
    ShiftIs24(Shift(c));
    ShiftIs24(Shift(Shift(c)));
    ShiftIs24(Shift(Shift(Shift(c))));
    var d := Shift(Shift(Shift(Shift(c))));
    ShiftIs24(d);
    ShiftIs24(Shift(d));
    ShiftIs24(Shift(Shift(d)));
    ShiftIs24(Shift(Shift(Shift(d))));
  }

  lemma FeedIs24(c: bv32, b: bv8)
    requires Is24(c)
    ensures Is24(Feed(c, b))
  {
    hide Is24, Xor, Top, Shift8;
    TopIs24(b);
    XorIs24(c, Top(b));
    Shift8Is24(Xor(c, Top(b)));
  }

  lemma Shift8IsLinear(a: bv32, b: bv32)
    ensures Shift8(Xor(a, b)) == Xor(Shift8(a), Shift8(b))
  {
    hide Shift, Xor;
    ShiftIsLinear(a, b);
    var a1, b1 := Shift(a), Shift(b);
    ShiftIsLinear(a1, b1);
    var a2, b2 := Shift(a1), Shift(b1);
    ShiftIsLinear(a2, b2);
    var a3, b3 := Shift(a2), Shift(b2);
    ShiftIsLinear(a3, b3);
    var a4, b4 := Shift(a3), Shift(b3);
    ShiftIsLinear(a4, b4);
    var a5, b5 := Shift(a4), Shift(b4);
    ShiftIsLinear(a5, b5);
    var a6, b6 := Shift(a5), Shift(b5);
    ShiftIsLinear(a6, b6);
    ShiftIsLinear(Shift(a6), Shift(b6));
  }

  // ------------------------------------------------------------- one byte is a bijection

  function Unshift8(c: bv32): bv32 {
    Unshift(Unshift(Unshift(Unshift(Unshift(Unshift(Unshift(Unshift(c))))))))
  }

  /** The byte taken back. */
  function Unfeed(c: bv32, b: bv8): bv32 {
    Xor(Unshift8(c), Top(b))
  }

  lemma Unshift8Shift8(c: bv32)
    requires Is24(c)
    ensures Unshift8(Shift8(c)) == c
  {
    hide Shift, Unshift, Is24;
    ShiftIs24(c);
    UnshiftShift(c);
    var c1 := Shift(c);
    ShiftIs24(c1);
    UnshiftShift(c1);
    var c2 := Shift(c1);
    ShiftIs24(c2);
    UnshiftShift(c2);
    var c3 := Shift(c2);
    ShiftIs24(c3);
    UnshiftShift(c3);
    var c4 := Shift(c3);
    ShiftIs24(c4);
    UnshiftShift(c4);
    var c5 := Shift(c4);
    ShiftIs24(c5);
    UnshiftShift(c5);
    var c6 := Shift(c5);
    ShiftIs24(c6);
    UnshiftShift(c6);
    UnshiftShift(Shift(c6));
  }

  lemma Shift8Unshift8(c: bv32)
    requires Is24(c)
    ensures Is24(Unshift8(c)) && Shift8(Unshift8(c)) == c
  {
    hide Shift, Unshift, Is24;
    ShiftUnshift(c);
    var c1 := Unshift(c);
    ShiftUnshift(c1);
    var c2 := Unshift(c1);
    ShiftUnshift(c2);
    var c3 := Unshift(c2);
    ShiftUnshift(c3);
    var c4 := Unshift(c3);
    ShiftUnshift(c4);
    var c5 := Unshift(c4);
    ShiftUnshift(c5);
    var c6 := Unshift(c5);
    ShiftUnshift(c6);
    ShiftUnshift(Unshift(c6));
  }

  /** Each byte maps the 24-bit states one to one onto themselves. */
  lemma FeedIsBijective(c: bv32, b: bv8)
    requires Is24(c)
    ensures Is24(Feed(c, b)) && Unfeed(Feed(c, b), b) == c
    ensures Is24(Unfeed(c, b)) && Feed(Unfeed(c, b), b) == c
  {
    hide Shift8, Unshift8, Is24, Xor, Top;
    FeedIs24(c, b);
    TopIs24(b);
    XorIs24(c, Top(b));
    Unshift8Shift8(Xor(c, Top(b)));
    XorTwice(c, Top(b));
    Shift8Unshift8(c);
    XorIs24(Unshift8(c), Top(b));
    XorTwice(Unshift8(c), Top(b));
  }

  lemma {:induction false} FeedAllIs24(c: bv32, data: seq<bv8>)
    requires Is24(c)
    ensures Is24(FeedAll(c, data))
    decreases |data|
  {
    if data != [] {
      hide Feed, Is24;
      FeedIs24(c, data[0]);
      FeedAllIs24(Feed(c, data[0]), data[1..]);
    }
  }

  /** Two states that differ are kept apart by whatever follows. */
  lemma {:induction false} SameTailKeepsApart(c: bv32, d: bv32, data: seq<bv8>)
    requires Is24(c) && Is24(d) && c != d
    ensures FeedAll(c, data) != FeedAll(d, data)
    decreases |data|
  {
    if data != [] {
      hide Feed, Unfeed, Is24;
      FeedIsBijective(c, data[0]);
      FeedIsBijective(d, data[0]);
      SameTailKeepsApart(Feed(c, data[0]), Feed(d, data[0]), data[1..]);
    }
  }

  lemma {:induction false} FeedAllJoins(c: bv32, a: seq<bv8>, b: seq<bv8>)
    ensures FeedAll(c, a + b) == FeedAll(FeedAll(c, a), b)
    decreases |a|
  {
    hide Feed;
    if a == [] {
      assert a + b == b;
    } else {
      assert (a + b)[0] == a[0] && (a + b)[1..] == a[1..] + b;
      FeedAllJoins(Feed(c, a[0]), a[1..], b);
    }
  }

  // ------------------------------------------------------------- short bursts

  function Mid(b: bv8): bv32 {
    (b as bv32) << 8
  }

  function Low(b: bv8): bv32 {
    b as bv32
  }

  /** Three bytes as one word. */
  function Word(a: bv8, b: bv8, c: bv8): bv32 {
    Xor(Top(a), Xor(Mid(b), Low(c)))
  }

  lemma WordsDiffer(a: bv8, b: bv8, c: bv8, x: bv8, y: bv8, z: bv8)
    ensures Word(a, b, c) == Word(x, y, z) ==> a == x && b == y && c == z
  {
  }

  lemma WordIs24(a: bv8, b: bv8, c: bv8)
    ensures Is24(Word(a, b, c))
  {
  }

  predicate Small(w: bv32) {
    w < 0x800000
  }

  lemma SmallShift(w: bv32)
    requires Small(w)
    ensures Shift(w) == Double(w)
  {
  }

  /** Sixteen bits doubled eight times. */
  lemma Doubles(w: bv32, x: bv32)
    requires w < 0x10000 && x == w << 8
    ensures Small(w) && Small(Double(w)) && Small(Double(Double(w))) && Small(Double(Double(Double(w))))
    ensures var v := Double(Double(Double(Double(w))));
            && Small(v) && Small(Double(v)) && Small(Double(Double(v))) && Small(Double(Double(Double(v))))
            && Double(Double(Double(Double(v)))) == x
  {
  }

  /** Without its top bits a word is only moved up by the shifts. */
  lemma Climb(w: bv32, x: bv32)
    requires w < 0x10000 && x == w << 8
    ensures Shift8(w) == x
  {
    hide Shift, Double, Small;
    Doubles(w, x);
    var w1 := Double(w);
    var w2 := Double(w1);
    var w3 := Double(w2);
    var w4 := Double(w3);
    SmallShift(w);
    SmallShift(w1);
    SmallShift(w2);
    SmallShift(w3);
    SmallShift(w4);
    SmallShift(Double(w4));
    SmallShift(Double(Double(w4)));
    SmallShift(Double(Double(Double(w4))));
  }

  lemma BytesClimb(b: bv8)
    ensures Shift8(Mid(b)) == Top(b) && Shift8(Low(b)) == Mid(b)
  {
    hide Shift8;
    Climb(Mid(b), Top(b));
    Climb(Low(b), Mid(b));
  }

  /** Three bytes fed to a state: the word and the state together, shifted out. */
  lemma FeedThree(s: bv32, a: bv8, b: bv8, c: bv8)
    ensures Feed(Feed(Feed(s, a), b), c) == Shift8(Shift8(Shift8(Xor(s, Word(a, b, c)))))
  {
    hide Shift8, Xor, Top, Mid, Low;
    BytesClimb(b);
    BytesClimb(c);
    XorAround(s, Top(a), Xor(Mid(b), Low(c)));
    Shift8IsLinear(Xor(s, Top(a)), Xor(Mid(b), Low(c)));
    Shift8IsLinear(Mid(b), Low(c));
    var s1 := Shift8(Xor(s, Top(a)));
    XorAround(s1, Top(b), Mid(c));
    Shift8IsLinear(Xor(s1, Top(b)), Mid(c));
  }

  lemma XorCancels(s: bv32, v: bv32, w: bv32)
    ensures Xor(s, v) == Xor(s, w) ==> v == w
  {
  }

  /** Three different bytes bring the register to different states. */
  lemma ThreeKeepApart(s: bv32, a: bv8, b: bv8, c: bv8, x: bv8, y: bv8, z: bv8)
    requires Is24(s)
    ensures Feed(Feed(Feed(s, a), b), c) == Feed(Feed(Feed(s, x), y), z) ==> a == x && b == y && c == z
  {
    hide Shift8, Unshift8, Xor, Word, Is24, Feed;
    FeedThree(s, a, b, c);
    FeedThree(s, x, y, z);
    WordIs24(a, b, c);
    WordIs24(x, y, z);
    var v, w := Xor(s, Word(a, b, c)), Xor(s, Word(x, y, z));
    XorIs24(s, Word(a, b, c));
    XorIs24(s, Word(x, y, z));
    Undone(v);
    Undone(w);
    XorCancels(s, Word(a, b, c), Word(x, y, z));
    WordsDiffer(a, b, c, x, y, z);
  }

  lemma Undone(v: bv32)
    requires Is24(v)
    ensures Unshift8(Unshift8(Unshift8(Shift8(Shift8(Shift8(v)))))) == v
  {
    hide Shift8, Unshift8, Is24;
    Shift8Is24(v);
    Shift8Is24(Shift8(v));
    Unshift8Shift8(v);
    Unshift8Shift8(Shift8(v));
    Unshift8Shift8(Shift8(Shift8(v)));
  }

  lemma FeedAllThree(c: bv32, data: seq<bv8>)
    requires |data| == 3
    ensures FeedAll(c, data) == Feed(Feed(Feed(c, data[0]), data[1]), data[2])
  {
    hide Feed;
    assert data[1..][0] == data[1] && data[1..][1..] == data[2..];
    assert data[2..][0] == data[2] && data[2..][1..] == [];
    var c1 := Feed(c, data[0]);
    assert FeedAll(c, data) == FeedAll(c1, data[1..]);
    assert FeedAll(c1, data[1..]) == FeedAll(Feed(c1, data[1]), data[2..]);
    assert FeedAll(Feed(c1, data[1]), data[2..]) == FeedAll(Feed(Feed(c1, data[1]), data[2]), []);
  }

  /** Inputs of one length that differ, but only within three consecutive bytes. */
  ghost predicate Burst(x: seq<bv8>, y: seq<bv8>, i: nat) {
    && |x| == |y| && x != y
    && forall k :: 0 <= k < |x| && (k < i || k >= i + 3) ==> x[k] == y[k]
  }

  lemma BurstInside(x: seq<bv8>, y: seq<bv8>, i: nat)
    requires Burst(x, y, i) && i + 3 <= |x|
    ensures Checksum(x) != Checksum(y)
  {
    var head, tail := x[..i], x[i + 3..];
    var a, b := x[i..i + 3], y[i..i + 3];
    assert y[..i] == head && y[i + 3..] == tail;
    assert x == head + (a + tail) && y == head + (b + tail);
    assert a == b ==> x == y;
    hide Feed, Is24, Burst;
    BurstApart(0xB704CE, head, a, b, tail);
  }

  lemma BurstApart(start: bv32, head: seq<bv8>, a: seq<bv8>, b: seq<bv8>, tail: seq<bv8>)
    requires start == 0xB704CE && |a| == |b| == 3 && a != b
    ensures FeedAll(start, head + (a + tail)) != FeedAll(start, head + (b + tail))
  {
    hide Feed, Is24;
    assert Is24(start) by { StartIs24(); }
    FeedAllIs24(start, head);
    var s := FeedAll(start, head);
    FeedAllJoins(start, head, a + tail);
    FeedAllJoins(start, head, b + tail);
    FeedAllJoins(s, a, tail);
    FeedAllJoins(s, b, tail);
    FeedAllThree(s, a);
    FeedAllThree(s, b);
    FeedAllIs24(s, a);
    FeedAllIs24(s, b);
    ApartIfDifferent(s, a, b);
    SameTailKeepsApart(FeedAll(s, a), FeedAll(s, b), tail);
  }

  lemma ApartIfDifferent(s: bv32, a: seq<bv8>, b: seq<bv8>)
    requires Is24(s) && |a| == |b| == 3 && a != b
    ensures FeedAll(s, a) != FeedAll(s, b)
  {
    hide Feed, Is24;
    FeedAllThree(s, a);
    FeedAllThree(s, b);
    assert a == [a[0], a[1], a[2]] && b == [b[0], b[1], b[2]];
    ThreeKeepApart(s, a[0], a[1], a[2], b[0], b[1], b[2]);
  }

  /** The checksum tells any two such inputs apart. */
  lemma BurstIsSeen(x: seq<bv8>, y: seq<bv8>, i: nat)
    requires Burst(x, y, i)
    ensures Checksum(x) != Checksum(y)
  {
    var n := |x|;
    if i + 3 <= n {
      BurstInside(x, y, i);
    } else if n >= 3 {
      BurstInside(x, y, n - 3);
    } else {
      var pad: seq<bv8> := [0, 0, 0];
      PaddedBurst(x, y, pad);
      BurstInside(x + pad, y + pad, 0);
      FeedAllJoins(0xB704CE, x, pad);
      FeedAllJoins(0xB704CE, y, pad);
    }
  }

  lemma PaddedBurst(x: seq<bv8>, y: seq<bv8>, pad: seq<bv8>)
    requires |x| == |y| < 3 && x != y
    ensures Burst(x + pad, y + pad, 0)
  {
    assert x == (x + pad)[..|x|] && y == (y + pad)[..|y|];
  }

  // ------------------------------------------------------------- the register of RFC 4880

  /** The check value of this register: what it makes of the digits "123456789". */
  lemma CheckValue()
    ensures Checksum([]) == 0xB704CE
    ensures Checksum([0x31, 0x32, 0x33, 0x34, 0x35, 0x36, 0x37, 0x38, 0x39]) == 0x21CF02
  {
    var data: seq<bv8> := [0x31, 0x32, 0x33, 0x34, 0x35, 0x36, 0x37, 0x38, 0x39];
    CheckSteps();
    hide Feed;
    assert data[0..] == [0x31] + data[1..];
    FeedFirst(0xB704CE, 0x31, data[1..]);
    assert data[1..] == [0x32] + data[2..];
    FeedFirst(0x2EBA48, 0x32, data[2..]);
    assert data[2..] == [0x33] + data[3..];
    FeedFirst(0x4D6151, 0x33, data[3..]);
    assert data[3..] == [0x34] + data[4..];
    FeedFirst(0x9DF67, 0x34, data[4..]);
    assert data[4..] == [0x35] + data[5..];
    FeedFirst(0xA2D343, 0x35, data[5..]);
    assert data[5..] == [0x36] + data[6..];
    FeedFirst(0xBA353A, 0x36, data[6..]);
    assert data[6..] == [0x37] + data[7..];
    FeedFirst(0x341A7C, 0x37, data[7..]);
    assert data[7..] == [0x38] + data[8..];
    FeedFirst(0x16E5F6, 0x38, data[8..]);
    assert data[8..] == [0x39] + data[9..];
    FeedFirst(0x51953C, 0x39, data[9..]);
    assert data[0..] == data && data[9..] == [];
  }

  lemma ChecksumIs24(data: seq<bv8>)
    ensures Checksum(data) < 0x1000000
  {
    FeedAllIs24(0xB704CE, data);
  }

  lemma FeedFirst(c: bv32, b: bv8, rest: seq<bv8>)
    ensures FeedAll(c, [b] + rest) == FeedAll(Feed(c, b), rest)
  {
    assert ([b] + rest)[1..] == rest;
  }

  lemma CheckSteps()
    ensures Feed(0xB704CE, 0x31) == 0x2EBA48
    ensures Feed(0x2EBA48, 0x32) == 0x4D6151
    ensures Feed(0x4D6151, 0x33) == 0x9DF67
    ensures Feed(0x9DF67, 0x34) == 0xA2D343
    ensures Feed(0xA2D343, 0x35) == 0xBA353A
    ensures Feed(0xBA353A, 0x36) == 0x341A7C
    ensures Feed(0x341A7C, 0x37) == 0x16E5F6
    ensures Feed(0x16E5F6, 0x38) == 0x51953C
    ensures Feed(0x51953C, 0x39) == 0x21CF02
  {
  }

  /** x^24 + x^23 + x^18 + x^17 + x^14 + x^11 + x^10 + x^7 + x^6 + x^5 + x^4 + x^3 + x + 1, the
      power k as bit k. */
  function Generator(): bv32 {
    0x1000000 ^ 0x800000 ^ 0x40000 ^ 0x20000 ^ 0x4000 ^ 0x800 ^ 0x400 ^ 0x80 ^ 0x40 ^ 0x20 ^ 0x10 ^ 8 ^ 2 ^ 1
  }

  lemma GeneratorIs()
    ensures Generator() == 0x1864CFB
  {
  }

  lemma OutIff(c: bv32)
    requires Is24(c)
    ensures Out(Double(c)) <==> c >= 0x800000
  {
  }

  /** Shifting is multiplying by x modulo the generator. */
  lemma ShiftReduces(c: bv32)
    requires Is24(c)
    ensures Shift(c) == Xor(Double(c), if c < 0x800000 then 0 else Generator())
  {
    OutIff(c);
    GeneratorIs();
    XorZero(Double(c));
    hide Is24, Out, Double, Generator;
  }

  lemma XorZero(d: bv32)
    ensures Xor(d, 0) == d && Xor(d, 0x1864CFB) == Poly(d)
  {
  }
}
