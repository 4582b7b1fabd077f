/** OpenType files with one face: the table directory written and read, and the character map's
    binary search. */
module Sfnt {
  import opened Options
  import opened Finite
  import opened Sorting
  import Text

  /** A byte by its value. */
  type Byte = x: int | 0 <= x < 256

  type Data = seq<Byte>

  const TAGS: set<Data> := {[0, 1, 0, 0], [0x4F, 0x54, 0x54, 0x4F], [0x74, 0x72, 0x75, 0x65]}
  const MAX_TABLES := 512
  const WORD := 0x1_0000_0000

  // ------------------------------------------------------------- numbers and names

  /** Two bytes, the high one first. */
  function Pack16(n: int): Data
    requires 0 <= n < 0x10000
  {
    [n / 256, n % 256]
  }

  function Pack32(n: int): Data
    requires 0 <= n < WORD
  {
    Pack16(n / 0x10000) + Pack16(n % 0x10000)
  }

  /** The number two bytes stand for. */
  function Value16(high: int, low: int): int {
    high * 256 + low
  }

  function U16(data: Data, at: int): Option<int> {
    if at < 0 || at + 2 > |data| then None else Some(Value16(data[at], data[at + 1]))
  }

  function U32(data: Data, at: int): Option<int> {
    if at < 0 || at + 4 > |data| then None
    else Some(Value16(data[at], data[at + 1]) * 0x10000 + Value16(data[at + 2], data[at + 3]))
  }

  function Slice(data: Data, at: int, length: int): Option<Data> {
    if at < 0 || length < 0 || at + length > |data| then None else Some(data[at..at + length])
  }

  /** What is read at a place is what stands there, the highest byte first. */
  lemma ReadsTwo(before: Data, hi: Byte, lo: Byte, rest: Data)
    ensures U16(before + [hi, lo] + rest, |before|) == Some(256 * hi + lo)
  {
    var data := before + [hi, lo] + rest;
    assert data[|before|] == hi && data[|before| + 1] == lo;
  }

  lemma ReadsFour(before: Data, a: Byte, b: Byte, c: Byte, d: Byte, rest: Data)
    ensures U32(before + [a, b, c, d] + rest, |before|) == Some(0x1000000 * a + 0x10000 * b + 256 * c + d)
  {
    var data, at := before + [a, b, c, d] + rest, |before|;
    assert data[at] == a && data[at + 1] == b && data[at + 2] == c && data[at + 3] == d;
  }

  lemma ReadsSlice(before: Data, mid: Data, rest: Data)
    ensures Slice(before + mid + rest, |before|, |mid|) == Some(mid)
  {
  }

  /** Nothing is read past the end. */
  lemma ReadsNothingElse(data: Data, at: int, length: int)
    ensures at < 0 || at > |data| - 2 ==> U16(data, at) == None
    ensures at < 0 || at > |data| - 4 ==> U32(data, at) == None
    ensures at < 0 || length < 0 || at > |data| - length ==> Slice(data, at, length) == None
  {
  }

  predicate IsLatin(s: string) {
    forall i :: 0 <= i < |s| ==> s[i] as int < 256
  }

  function Latin(s: string): Data
    requires IsLatin(s)
  {
    seq(|s|, i requires 0 <= i < |s| => s[i] as int)
  }

  function FromLatin(b: Data): string {
    seq(|b|, i requires 0 <= i < |b| => b[i] as char)
  }

  lemma LatinReadsBack(s: string)
    requires IsLatin(s)
    ensures FromLatin(Latin(s)) == s
  {
  }

  lemma Pack16ReadsBack(n: int)
    requires 0 <= n < 0x10000
    ensures Value16(Pack16(n)[0], Pack16(n)[1]) == n
  {
  }

  lemma U32At(data: Data, at: nat, n: int)
    requires 0 <= n < WORD && at + 4 <= |data| && data[at..at + 4] == Pack32(n)
    ensures U32(data, at) == Some(n)
  {
    var p := data[at..at + 4];
    assert p[0] == data[at] && p[1] == data[at + 1] && p[2] == data[at + 2] && p[3] == data[at + 3];
    Pack16ReadsBack(n / 0x10000);
    Pack16ReadsBack(n % 0x10000);
  }

  // ------------------------------------------------------------- layout

  type Tables = map<string, Data>

  function Zeros(n: nat): Data {
    seq(n, _ => 0)
  }

  /** A table filled up to a multiple of four bytes. */
  function Padded(blob: Data): Data {
    blob + Zeros((4 - |blob| % 4) % 4)
  }

  lemma PaddedFits(blob: Data)
    ensures |Padded(blob)| % 4 == 0 && blob <= Padded(blob)
  {
  }

  predicate Have(tags: seq<string>, tables: Tables) {
    forall i :: 0 <= i < |tags| ==> tags[i] in tables
  }

  /** The first k tables, filled up. */
  function Blobs(tags: seq<string>, tables: Tables, k: nat): Data
    requires k <= |tags| && Have(tags, tables)
  {
    if k == 0 then [] else Blobs(tags, tables, k - 1) + Padded(tables[tags[k - 1]])
  }

  /** Where table k starts. */
  function Offset(tags: seq<string>, tables: Tables, k: nat): int
    requires k <= |tags| && Have(tags, tables)
  {
    12 + 16 * |tags| + |Blobs(tags, tables, k)|
  }

  predicate IsTag(t: string) {
    IsLatin(t) && |t| == 4
  }

  /** Everything the entry of table i has to hold fits. */
  predicate FitsAt(tags: seq<string>, tables: Tables, i: nat)
    requires i < |tags| && Have(tags, tables)
  {
    IsTag(tags[i]) && Offset(tags, tables, i) < WORD && |tables[tags[i]]| < WORD
  }

  predicate Fits(tags: seq<string>, tables: Tables, k: nat)
    requires k <= |tags|
  {
    Have(tags, tables) && forall i :: 0 <= i < k ==> FitsAt(tags, tables, i)
  }

  function Record(name: string, offset: int, length: int): Data
    requires IsTag(name) && 0 <= offset < WORD && 0 <= length < WORD
  {
    Latin(name) + Pack32(0) + Pack32(offset) + Pack32(length)
  }

  function RecordOf(tags: seq<string>, tables: Tables, i: nat): Data
    requires i < |tags| && Have(tags, tables) && FitsAt(tags, tables, i)
  {
    Record(tags[i], Offset(tags, tables, i), |tables[tags[i]]|)
  }

  function Records(tags: seq<string>, tables: Tables, k: nat): Data
    requires k <= |tags| && Fits(tags, tables, k)
  {
    if k == 0 then [] else Records(tags, tables, k - 1) + RecordOf(tags, tables, k - 1)
  }

  function Head(tag: Data, count: int): Data
    requires 0 <= count < 0x10000
  {
    tag + Pack16(count) + Pack16(0) + Pack16(0) + Pack16(0)
  }

  function Face(tag: Data, tags: seq<string>, tables: Tables): Data
    requires |tags| <= MAX_TABLES && Fits(tags, tables, |tags|)
  {
    Head(tag, |tags|) + Records(tags, tables, |tags|) + Blobs(tags, tables, |tags|)
  }

  /** The face made of the tables; None for the errors, a size that does not fit included. */
  method Assemble(tag: Data, tables: Tables) returns (data: Option<Data>, ghost tags: seq<string>)
    ensures Distinct(tags) && Elements(tags) == tables.Keys && Text.Ordered(tags, Text.Same)
    ensures data.Some? <==> tag in TAGS && |tags| <= 512 && Fits(tags, tables, |tags|)
    ensures data.Some? ==> data.value == Face(tag, tags, tables)
  {
    hide FitsAt, Blobs, RecordOf, Head, Offset, Padded;
    var sorted := Text.SortedSet(tables.Keys);
    tags := sorted;
    assert Have(sorted, tables) by { AllIn(sorted, tables); }
    if tag !in TAGS || |sorted| > MAX_TABLES {
      return None, tags;
    }
    var out := Head(tag, |sorted|);
    var offset := 12 + 16 * |sorted|;
    var blobs: Data := [];
    NoBlobs(sorted, tables);
    for i := 0 to |sorted|
      invariant Fits(sorted, tables, i)
      invariant out == Head(tag, |sorted|) + Records(sorted, tables, i)
      invariant blobs == Blobs(sorted, tables, i)
    {
      var t := sorted[i];
      var blob := tables[t];
      OneMore(sorted, tables, i, offset, blobs);
      if !IsTag(t) || offset + |blobs| >= WORD || |blob| >= WORD {
        assert !Fits(sorted, tables, |sorted|);
        return None, tags;
      }
      assert Fits(sorted, tables, i + 1);
      ghost var before := Records(sorted, tables, i);
      out := out + Record(t, offset + |blobs|, |blob|);
      blobs := blobs + Padded(blob);
      Regrouped(Head(tag, |sorted|), before, RecordOf(sorted, tables, i));
    }
    data := Some(out + blobs);
  }

  lemma AllIn(tags: seq<string>, tables: Tables)
    requires Elements(tags) == tables.Keys
    ensures Have(tags, tables)
  {
    forall i | 0 <= i < |tags| ensures tags[i] in tables {
      assert tags[i] in Elements(tags);
    }
  }

  lemma NoBlobs(tags: seq<string>, tables: Tables)
    requires Have(tags, tables)
    ensures Blobs(tags, tables, 0) == []
  {
  }

  lemma OneMore(tags: seq<string>, tables: Tables, i: nat, offset: int, blobs: Data)
    requires i < |tags| && Have(tags, tables) && offset == 12 + 16 * |tags| && blobs == Blobs(tags, tables, i)
    ensures FitsAt(tags, tables, i) <==> IsTag(tags[i]) && offset + |blobs| < WORD && |tables[tags[i]]| < WORD
    ensures FitsAt(tags, tables, i) ==> RecordOf(tags, tables, i) == Record(tags[i], offset + |blobs|, |tables[tags[i]]|)
    ensures Blobs(tags, tables, i + 1) == blobs + Padded(tables[tags[i]])
  {
  }

  lemma Regrouped(a: Data, b: Data, c: Data)
    ensures (a + b) + c == a + (b + c)
  {
  }

  // ------------------------------------------------------------- reading the directory

  type Directory = map<string, (int, int)>

  /** The entries from number i on, put into found; None where reading leaves the data. */
  function Entries(data: Data, at: int, count: int, i: int, found: Directory): Option<Directory>
    decreases count - i
  {
    if i >= count then Some(found)
    else
      var record := at + 12 + 16 * i;
      var name, offset, length := Slice(data, record, 4), U32(data, record + 8), U32(data, record + 12);
      if name.None? || offset.None? || length.None? || Slice(data, offset.value, length.value).None? then None
      else Entries(data, at, count, i + 1, found[FromLatin(name.value) := (offset.value, length.value)])
  }

  method TableDirectory(data: Data, at: int) returns (tables: Option<Directory>)
    ensures var tag, count := Slice(data, at, 4), U16(data, at + 4);
            tables == if tag.None? || tag.value !in TAGS || count.None? || count.value > 512 then None
                      else Entries(data, at, count.value, 0, map[])
  {
    hide Slice, U32, U16, FromLatin;
    var tag := Slice(data, at, 4);
    if tag.None? || tag.value !in TAGS {
      return None;
    }
    var count := U16(data, at + 4);
    if count.None? || count.value > MAX_TABLES {
      return None;
    }
    var found: Directory := map[];
    var i := 0;
    while i < count.value
      invariant Entries(data, at, count.value, i, found) == Entries(data, at, count.value, 0, map[])
    {
      var record := at + 12 + 16 * i;
      var name := Slice(data, record, 4);
      if name.None? {
        return None;
      }
      var offset := U32(data, record + 8);
      if offset.None? {
        return None;
      }
      var length := U32(data, record + 12);
      if length.None? || Slice(data, offset.value, length.value).None? {
        return None;
      }
      found := found[FromLatin(name.value) := (offset.value, length.value)];
      i := i + 1;
    }
    tables := Some(found);
  }

  // ------------------------------------------------------------- what was assembled is listed

  lemma RecordLength(tags: seq<string>, tables: Tables, i: nat)
    requires i < |tags| && Have(tags, tables) && FitsAt(tags, tables, i)
    ensures |RecordOf(tags, tables, i)| == 16
  {
  }

  lemma {:induction false} RecordsLength(tags: seq<string>, tables: Tables, k: nat)
    requires k <= |tags| && Fits(tags, tables, k)
    ensures |Records(tags, tables, k)| == 16 * k
  {
    hide FitsAt, RecordOf;
    if k > 0 {
      RecordsLength(tags, tables, k - 1);
      RecordLength(tags, tables, k - 1);
    }
  }

  lemma {:induction false} RecordsAre(tags: seq<string>, tables: Tables, k: nat, i: nat)
    requires i < k <= |tags| && Fits(tags, tables, k)
    ensures |Records(tags, tables, k)| == 16 * k
    ensures Records(tags, tables, k)[16 * i..16 * i + 16] == RecordOf(tags, tables, i)
    decreases k
  {
    hide FitsAt, RecordOf;
    RecordsLength(tags, tables, k);
    RecordsLength(tags, tables, k - 1);
    var front, last := Records(tags, tables, k - 1), RecordOf(tags, tables, k - 1);
    if i < k - 1 {
      RecordsAre(tags, tables, k - 1, i);
      assert (front + last)[16 * i..16 * i + 16] == front[16 * i..16 * i + 16];
    } else {
      RecordLength(tags, tables, i);
      assert (front + last)[16 * i..16 * i + 16] == last;
    }
  }

  lemma {:induction false} BlobsAre(tags: seq<string>, tables: Tables, k: nat, i: nat)
    requires i < k <= |tags| && Have(tags, tables)
    ensures |Blobs(tags, tables, i)| % 4 == 0
    ensures |Blobs(tags, tables, i)| + |tables[tags[i]]| <= |Blobs(tags, tables, i + 1)| <= |Blobs(tags, tables, k)|
    ensures var from := |Blobs(tags, tables, i)|;
            Blobs(tags, tables, k)[from..from + |tables[tags[i]]|] == tables[tags[i]]
    decreases k
  {
    hide Padded;
    AlignedTo(tags, tables, i);
    PaddedFits(tables[tags[i]]);
    var from, blob := |Blobs(tags, tables, i)|, tables[tags[i]];
    var front, last := Blobs(tags, tables, k - 1), Padded(tables[tags[k - 1]]);
    assert Blobs(tags, tables, k) == front + last;
    if i < k - 1 {
      BlobsAre(tags, tables, k - 1, i);
      FrontSlice(front, last, from, from + |blob|);
    } else {
      BackSlice(front, last, blob);
    }
  }

  lemma FrontSlice(a: Data, b: Data, from: nat, to: nat)
    requires from <= to <= |a|
    ensures (a + b)[from..to] == a[from..to]
  {
  }

  lemma BackSlice(a: Data, b: Data, c: Data)
    requires c <= b
    ensures (a + b)[|a|..|a| + |c|] == c
  {
  }

  lemma {:induction false} AlignedTo(tags: seq<string>, tables: Tables, k: nat)
    requires k <= |tags| && Have(tags, tables)
    ensures |Blobs(tags, tables, k)| % 4 == 0
  {
    hide Padded;
    if k > 0 {
      var front, last := Blobs(tags, tables, k - 1), Padded(tables[tags[k - 1]]);
      AlignedTo(tags, tables, k - 1);
      PaddedFits(tables[tags[k - 1]]);
      LengthsAdd(front, last);
    }
  }

  lemma LengthsAdd(a: Data, b: Data)
    requires |a| % 4 == 0 && |b| % 4 == 0
    ensures |a + b| % 4 == 0
  {
    assert |a + b| == |a| + |b|;
  }

  ghost predicate IsFace(tag: Data, tables: Tables, tags: seq<string>, data: Data) {
    && tag in TAGS && |tags| <= MAX_TABLES && Distinct(tags) && Elements(tags) == tables.Keys
    && Fits(tags, tables, |tags|) && data == Face(tag, tags, tables)
  }

  /** The directory the face should have. */
  ghost function Listed(tags: seq<string>, tables: Tables, k: nat): Directory
    requires k <= |tags| && Have(tags, tables)
  {
    if k == 0 then map[] else Listed(tags, tables, k - 1)[tags[k - 1] := (Offset(tags, tables, k - 1), |tables[tags[k - 1]]|)]
  }

  lemma HeadLength(tag: Data, count: int)
    requires tag in TAGS && 0 <= count < 0x10000
    ensures |Head(tag, count)| == 12
  {
  }

  lemma Within(a: Data, b: Data, c: Data, from: nat, to: nat)
    requires from <= to <= |b|
    ensures (a + b + c)[|a| + from..|a| + to] == b[from..to]
  {
  }

  lemma After(a: Data, b: Data, from: nat, to: nat)
    requires from <= to <= |b|
    ensures (a + b)[|a| + from..|a| + to] == b[from..to]
  {
  }

  /** Table i is where its entry says, byte for byte, on a multiple of four. */
  lemma TableAt(tag: Data, tables: Tables, tags: seq<string>, data: Data, i: nat)
    requires IsFace(tag, tables, tags, data) && i < |tags|
    ensures var offset := Offset(tags, tables, i);
            Slice(data, offset, |tables[tags[i]]|) == Some(tables[tags[i]]) && offset % 4 == 0
  {
    hide FitsAt, Head, Records, Blobs, Distinct;
    var n := |tags|;
    HeadLength(tag, n);
    RecordsLength(tags, tables, n);
    BlobsAre(tags, tables, n, i);
    var front, blobs := Head(tag, n) + Records(tags, tables, n), Blobs(tags, tables, n);
    var from, length := |Blobs(tags, tables, i)|, |tables[tags[i]]|;
    After(front, blobs, from, from + length);
  }

  lemma RecordReads(data: Data, at: nat, name: string, offset: int, length: int)
    requires IsTag(name) && 0 <= offset < WORD && 0 <= length < WORD
    requires at + 16 <= |data| && data[at..at + 16] == Record(name, offset, length)
    ensures Slice(data, at, 4) == Some(Latin(name)) && U32(data, at + 8) == Some(offset) && U32(data, at + 12) == Some(length)
  {
    hide Latin, Pack32, IsTag;
    LatinLength(name);
    var r := Record(name, offset, length);
    RecordParts(Latin(name), Pack32(0), Pack32(offset), Pack32(length));
    assert r[0..4] == r[..4];
    Inside(data, at, r, 0, 4);
    Inside(data, at, r, 8, 12);
    Inside(data, at, r, 12, 16);
    U32At(data, at + 8, offset);
    U32At(data, at + 12, length);
  }

  lemma Inside(data: Data, at: nat, r: Data, from: nat, to: nat)
    requires from <= to <= |r| && at + |r| <= |data| && data[at..at + |r|] == r
    ensures data[at + from..at + to] == r[from..to]
  {
    var a, b := data[at + from..at + to], r[from..to];
    forall j | 0 <= j < to - from ensures a[j] == b[j] {
      assert data[at..at + |r|][from + j] == data[at + (from + j)];
    }
  }

  lemma LatinLength(name: string)
    requires IsTag(name)
    ensures IsLatin(name) && |Latin(name)| == 4
    ensures forall n :: 0 <= n < WORD ==> |Pack32(n)| == 4
  {
  }

  lemma RecordParts(a: Data, b: Data, c: Data, d: Data)
    requires |a| == |b| == |c| == |d| == 4
    ensures var r := a + b + c + d; |r| == 16 && r[..4] == a && r[8..12] == c && r[12..16] == d
  {
  }

  lemma RecordAt(tag: Data, tables: Tables, tags: seq<string>, data: Data, i: nat)
    requires IsFace(tag, tables, tags, data) && i < |tags|
    ensures FitsAt(tags, tables, i)
    ensures var at := 12 + 16 * i; at + 16 <= |data| && data[at..at + 16] == RecordOf(tags, tables, i)
  {
    hide FitsAt, Head, Records, RecordOf, Blobs, Distinct;
    var n := |tags|;
    HeadLength(tag, n);
    RecordsAre(tags, tables, n, i);
    Within(Head(tag, n), Records(tags, tables, n), Blobs(tags, tables, n), 16 * i, 16 * i + 16);
  }

  lemma {:induction false} EntriesAre(tag: Data, tables: Tables, tags: seq<string>, data: Data, i: nat)
    requires IsFace(tag, tables, tags, data) && i <= |tags|
    ensures Entries(data, 0, |tags|, i, Listed(tags, tables, i)) == Some(Listed(tags, tables, |tags|))
    decreases |tags| - i
  {
    FaceHave(tag, tables, tags, data);
    hide IsFace, U32, Slice, Offset, Entries;
    if i < |tags| {
      EntryReads(tag, tables, tags, data, i);
      EntryStep(data, |tags|, i, Listed(tags, tables, i), tags[i], Offset(tags, tables, i), |tables[tags[i]]|);
      EntriesAre(tag, tables, tags, data, i + 1);
    } else {
      EntriesEnd(data, i, Listed(tags, tables, i));
    }
  }

  lemma EntriesEnd(data: Data, count: int, found: Directory)
    ensures Entries(data, 0, count, count, found) == Some(found)
  {
  }

  lemma EntryStep(data: Data, count: int, i: int, found: Directory, name: string, offset: int, length: int)
    requires i < count
    requires Slice(data, 12 + 16 * i, 4).Some? && FromLatin(Slice(data, 12 + 16 * i, 4).value) == name
    requires U32(data, 12 + 16 * i + 8) == Some(offset) && U32(data, 12 + 16 * i + 12) == Some(length)
    requires Slice(data, offset, length).Some?
    ensures Entries(data, 0, count, i, found) == Entries(data, 0, count, i + 1, found[name := (offset, length)])
  {
    hide Slice, U32, FromLatin;
  }

  lemma FaceHave(tag: Data, tables: Tables, tags: seq<string>, data: Data)
    requires IsFace(tag, tables, tags, data)
    ensures Have(tags, tables)
  {
  }

  /** Entry i is read as it was written, and its table is inside the data. */
  lemma EntryReads(tag: Data, tables: Tables, tags: seq<string>, data: Data, i: nat)
    requires IsFace(tag, tables, tags, data) && i < |tags|
    ensures Have(tags, tables)
    ensures var at := 12 + 16 * i; var name := Slice(data, at, 4);
            && name.Some? && FromLatin(name.value) == tags[i]
            && U32(data, at + 8) == Some(Offset(tags, tables, i)) && U32(data, at + 12) == Some(|tables[tags[i]]|)
    ensures Slice(data, Offset(tags, tables, i), |tables[tags[i]]|).Some?
  {
    FaceHave(tag, tables, tags, data);
    RecordAt(tag, tables, tags, data, i);
    TableAt(tag, tables, tags, data, i);
    hide IsFace, U32, Slice, Offset;
    TagReads(tags[i]);
    RecordReads(data, 12 + 16 * i, tags[i], Offset(tags, tables, i), |tables[tags[i]]|);
  }

  lemma TagReads(t: string)
    requires IsTag(t)
    ensures IsLatin(t) && FromLatin(Latin(t)) == t
  {
    LatinReadsBack(t);
  }

  lemma {:induction false} ListedAre(tags: seq<string>, tables: Tables, k: nat)
    requires k <= |tags| && Distinct(tags) && Have(tags, tables)
    ensures forall t :: t in Listed(tags, tables, k) <==> t in tags[..k]
    ensures forall i :: 0 <= i < k ==>
              tags[i] in Listed(tags, tables, k) && Listed(tags, tables, k)[tags[i]] == (Offset(tags, tables, i), |tables[tags[i]]|)
  {
    hide Offset;
    if k > 0 {
      ListedAre(tags, tables, k - 1);
      assert tags[..k] == tags[..k - 1] + [tags[k - 1]];
    }
  }

  /** Reading the directory of an assembled face lists exactly the tables it was made of; each is
      found where its entry says, on a multiple of four, and no two overlap. */
  lemma DirectoryOfAssembled(tag: Data, tables: Tables, tags: seq<string>, data: Data) returns (found: Directory)
    requires IsFace(tag, tables, tags, data)
    ensures Slice(data, 0, 4) == Some(tag) && U16(data, 4) == Some(|tags|)
    ensures Entries(data, 0, |tags|, 0, map[]) == Some(found)
    ensures found.Keys == tables.Keys
    ensures forall t :: t in tables ==>
              && Slice(data, found[t].0, found[t].1) == Some(tables[t])
              && found[t].0 % 4 == 0 && found[t].0 >= 12 + 16 * |tags|
    ensures forall t, u :: t in tables && u in tables && t != u ==>
              found[t].0 + found[t].1 <= found[u].0 || found[u].0 + found[u].1 <= found[t].0
  {
    FaceHave(tag, tables, tags, data);
    found := Listed(tags, tables, |tags|);
    EntriesAre(tag, tables, tags, data, 0);
    HeadReads(tag, tables, tags, data);
    ListedKeys(tables, tags);
    hide Listed, Fits, Face, Slice, Offset;
    forall t | t in tables
      ensures Slice(data, found[t].0, found[t].1) == Some(tables[t]) && found[t].0 % 4 == 0 && found[t].0 >= 12 + 16 * |tags| {
      var i := IndexOf(tables, tags, t);
      TableAt(tag, tables, tags, data, i);
      AfterDirectory(tables, tags, i);
    }
    forall t, u | t in tables && u in tables && t != u
      ensures found[t].0 + found[t].1 <= found[u].0 || found[u].0 + found[u].1 <= found[t].0 {
      var i, j := IndexOf(tables, tags, t), IndexOf(tables, tags, u);
      Disjoint(tables, tags, i, j);
    }
  }

  lemma AfterDirectory(tables: Tables, tags: seq<string>, i: nat)
    requires Have(tags, tables) && i <= |tags|
    ensures Offset(tags, tables, i) >= 12 + 16 * |tags|
  {
  }

  lemma ListedKeys(tables: Tables, tags: seq<string>)
    requires Distinct(tags) && Elements(tags) == tables.Keys && Have(tags, tables)
    ensures Listed(tags, tables, |tags|).Keys == tables.Keys
    ensures forall i :: 0 <= i < |tags| ==> Listed(tags, tables, |tags|)[tags[i]] == (Offset(tags, tables, i), |tables[tags[i]]|)
  {
    hide Offset;
    ListedAre(tags, tables, |tags|);
    assert tags[..|tags|] == tags;
    assert forall t :: t in tags <==> t in Elements(tags);
  }

  ghost function IndexOf(tables: Tables, tags: seq<string>, t: string): (i: nat)
    requires Elements(tags) == tables.Keys && t in tables
    ensures i < |tags| && tags[i] == t
  {
    assert t in Elements(tags);
    var i :| 0 <= i < |tags| && tags[i] == t;
    i
  }

  lemma Disjoint(tables: Tables, tags: seq<string>, i: nat, j: nat)
    requires Have(tags, tables) && i < |tags| && j < |tags| && i != j
    ensures var a, b := Offset(tags, tables, i), Offset(tags, tables, j);
            a + |tables[tags[i]]| <= b || b + |tables[tags[j]]| <= a
  {
    if i < j { BlobsAre(tags, tables, j, i); } else { BlobsAre(tags, tables, i, j); }
  }

  lemma HeadReads(tag: Data, tables: Tables, tags: seq<string>, data: Data)
    requires IsFace(tag, tables, tags, data)
    ensures Slice(data, 0, 4) == Some(tag) && U16(data, 4) == Some(|tags|)
  {
    hide Fits, Records, Blobs, Distinct;
    var n := |tags|;
    var head := Head(tag, n);
    HeadLength(tag, n);
    assert data[..12] == head;
    assert data[..4] == head[..4] == tag;
    assert data[4] == head[4] == Pack16(n)[0] && data[5] == head[5] == Pack16(n)[1];
    Pack16ReadsBack(n);
  }

  // ------------------------------------------------------------- byte by byte

  /** The face tags: version 1.0, "OTTO" and "true". */
  lemma TagsAre()
    ensures IsLatin("OTTO") && IsLatin("true") && TAGS == {[0, 1, 0, 0], Latin("OTTO"), Latin("true")}
  {
    assert Latin("OTTO") == [0x4F, 0x54, 0x54, 0x4F] && Latin("true") == [0x74, 0x72, 0x75, 0x65];
  }

  /** Numbers are stored with the high byte first. */
  lemma HighFirst(high: Byte, low: Byte)
    ensures Value16(high, low) / 256 == high && Value16(high, low) % 256 == low
  {
  }

  /** The start of a face: the tag, the number of tables, and zeros for the three search fields. */
  lemma HeadIs(tag: Data, count: int)
    requires tag in TAGS && 0 <= count < 0x10000
    ensures var h := Head(tag, count);
            |h| == 12 && h[..4] == tag && Value16(h[4], h[5]) == count && h[6..] == [0, 0, 0, 0, 0, 0]
  {
    HeadLength(tag, count);
    Pack16ReadsBack(count);
  }

  /** An entry: the table's tag, zeros for its checksum, where it is and how long. */
  lemma RecordIs(name: string, offset: int, length: int)
    requires IsTag(name) && 0 <= offset < WORD && 0 <= length < WORD
    ensures var r := Record(name, offset, length);
            |r| == 16 && FromLatin(r[..4]) == name && r[4..8] == [0, 0, 0, 0] && U32(r, 8) == Some(offset) && U32(r, 12) == Some(length)
  {
    var r := Record(name, offset, length);
    assert r[..4] == Latin(name) && r[8..12] == Pack32(offset) && r[12..16] == Pack32(length) && r[4..8] == Pack32(0);
    LatinReadsBack(name);
    hide Pack32, Latin, Record, FromLatin;
    U32At(r, 8, offset);
    U32At(r, 12, length);
  }

  /** A table is filled up with fewer than four zeros. */
  lemma PaddedWithZeros(blob: Data)
    ensures |Padded(blob)| - |blob| < 4 && forall i :: |blob| <= i < |Padded(blob)| ==> Padded(blob)[i] == 0
  {
  }

  // ------------------------------------------------------------- the character map

  /** A group of a format 12 subtable: code points and the first one's glyph. */
  datatype Group = Group(start: int, end: int, glyph: int)

  predicate MapsTo(g: Group, cp: int) {
    g.start <= cp <= g.end && g.glyph + (cp - g.start) != 0
  }

  /** The first code point of a group has its glyph and each next one the next glyph; the glyph 0
      stands for none, and so does every code point outside. */
  lemma GroupMaps(g: Group, k: int)
    ensures MapsTo(g, g.start + k) <==> 0 <= k < g.end - g.start + 1 && k != -g.glyph
  {
  }

  predicate IsRange(g: Group) {
    g.start <= g.end
  }

  /** The groups that are no empty ranges. */
  function Ranges(groups: seq<Group>): seq<Group> {
    if groups == [] then []
    else Ranges(groups[..|groups| - 1]) + if IsRange(groups[|groups| - 1]) then [groups[|groups| - 1]] else []
  }

  /** The order of triples. */
  function InOrder(): (Group, Group) -> bool {
    (a: Group, b: Group) =>
      a.start < b.start || (a.start == b.start && (a.end < b.end || (a.end == b.end && a.glyph <= b.glyph)))
  }

  lemma GroupsOrder()
    ensures TotalOrder(InOrder())
  {
  }

  /** What the search runs over. */
  function Prepared(groups: seq<Group>): seq<Group> {
    GroupsOrder();
    Sorted(Ranges(groups), InOrder())
  }

  /** Where a binary search from lo to hi for the first range that ends at cp or later stops. */
  function Search(ranges: seq<Group>, cp: int, lo: nat, hi: nat): (at: nat)
    requires lo <= hi <= |ranges|
    ensures lo <= at <= hi
    decreases hi - lo
  {
    if lo == hi then lo
    else
      var mid := (lo + hi) / 2;
      if ranges[mid].end < cp then Search(ranges, cp, mid + 1, hi) else Search(ranges, cp, lo, mid)
  }

  predicate SearchFinds(ranges: seq<Group>, cp: int) {
    var at := Search(ranges, cp, 0, |ranges|);
    at < |ranges| && MapsTo(ranges[at], cp)
  }

  predicate SomeMapsTo(groups: seq<Group>, cp: int) {
    exists i :: 0 <= i < |groups| && MapsTo(groups[i], cp)
  }

  method Coverage12(groups: seq<Group>) returns (ranges: seq<Group>)
    ensures ranges == Prepared(groups)
  {
    ranges := [];
    for i := 0 to |groups|
      invariant ranges == Ranges(groups[..i])
    {
      assert groups[..i + 1][..i] == groups[..i];
      if groups[i].end < groups[i].start {
        continue;
      }
      ranges := ranges + [groups[i]];
    }
    assert groups[..|groups|] == groups;
    GroupsOrder();
    ranges := Sorted(ranges, InOrder());
  }

  method Covered12(ranges: seq<Group>, cp: int) returns (covered: bool)
    ensures covered == SearchFinds(ranges, cp)
  {
    var lo, hi := 0, |ranges|;
    while lo < hi
      invariant 0 <= lo <= hi <= |ranges|
      invariant Search(ranges, cp, lo, hi) == Search(ranges, cp, 0, |ranges|)
    {
      var mid := (lo + hi) / 2;
      if ranges[mid].end < cp {
        lo := mid + 1;
      } else {
        hi := mid;
      }
    }
    covered := lo < |ranges| && ranges[lo].start <= cp <= ranges[lo].end && ranges[lo].glyph + (cp - ranges[lo].start) != 0;
  }

  // What the search finds, against a scan of all groups.

  /** Ordered and without overlap. */
  ghost predicate Apart(ranges: seq<Group>) {
    && (forall i :: 0 <= i < |ranges| ==> IsRange(ranges[i]))
    && forall i, j :: 0 <= i < j < |ranges| ==> ranges[i].end < ranges[j].start
  }

  lemma {:induction false} SearchSplits(ranges: seq<Group>, cp: int, lo: nat, hi: nat)
    requires lo <= hi <= |ranges| && Apart(ranges)
    requires forall i :: 0 <= i < lo ==> ranges[i].end < cp
    requires forall i :: hi <= i < |ranges| ==> cp <= ranges[i].end
    ensures var at := Search(ranges, cp, lo, hi);
            && (forall i :: 0 <= i < at ==> ranges[i].end < cp)
            && (forall i :: at <= i < |ranges| ==> cp <= ranges[i].end)
    decreases hi - lo
  {
    if lo < hi {
      var mid := (lo + hi) / 2;
      if ranges[mid].end < cp {
        SearchSplits(ranges, cp, mid + 1, hi);
      } else {
        SearchSplits(ranges, cp, lo, mid);
      }
    }
  }

  lemma {:induction false} RangesHave(groups: seq<Group>)
    ensures forall g :: g in Ranges(groups) <==> g in groups && IsRange(g)
  {
    if groups != [] {
      RangesHave(groups[..|groups| - 1]);
      assert groups == groups[..|groups| - 1] + [groups[|groups| - 1]];
    }
  }

  lemma PreparedHas(groups: seq<Group>)
    ensures forall g :: g in Prepared(groups) <==> g in groups && IsRange(g)
  {
    GroupsOrder();
    RangesHave(groups);
    SortedHas(Ranges(groups), InOrder());
  }

  /** No two ranges of the subtable share a code point. */
  ghost predicate NoOverlap(groups: seq<Group>) {
    forall i, j :: 0 <= i < j < |groups| && IsRange(groups[i]) && IsRange(groups[j]) ==> Disjoint12(groups[i], groups[j])
  }

  predicate Disjoint12(a: Group, b: Group) {
    a.end < b.start || b.end < a.start
  }

  lemma {:induction false} RangesDiffer(groups: seq<Group>)
    requires NoOverlap(groups)
    ensures Distinct(Ranges(groups))
    ensures forall a, b :: a in Ranges(groups) && b in Ranges(groups) && a != b ==> Disjoint12(a, b)
  {
    RangesHave(groups);
    if groups != [] {
      var front, last := groups[..|groups| - 1], groups[|groups| - 1];
      RangesDiffer(front);
      RangesHave(front);
      forall g | g in Ranges(front) && IsRange(last) ensures Disjoint12(g, last) {
        var i :| 0 <= i < |front| && front[i] == g;
        assert Disjoint12(groups[i], last);
      }
    }
  }

  lemma PreparedApart(groups: seq<Group>)
    requires NoOverlap(groups)
    ensures Apart(Prepared(groups))
  {
    hide NoOverlap;
    GroupsOrder();
    RangesDiffer(groups);
    PreparedHas(groups);
    var r := Prepared(groups);
    PermutedDistinct(Ranges(groups), r);
    forall i, j | 0 <= i < j < |r| ensures r[i].end < r[j].start {
      assert InOrder()(r[i], r[j]);
      assert r[i] in Elements(r) && r[j] in Elements(r);
      assert Disjoint12(r[i], r[j]);
    }
    forall i | 0 <= i < |r| ensures IsRange(r[i]) {
      assert r[i] in r;
    }
  }

  lemma ScanPrepared(groups: seq<Group>, cp: int)
    ensures SomeMapsTo(Prepared(groups), cp) <==> SomeMapsTo(groups, cp)
  {
    hide Prepared;
    PreparedHas(groups);
    var r := Prepared(groups);
    if SomeMapsTo(groups, cp) {
      var i :| 0 <= i < |groups| && MapsTo(groups[i], cp);
      assert groups[i] in r;
    }
    if SomeMapsTo(r, cp) {
      var i :| 0 <= i < |r| && MapsTo(r[i], cp);
      assert r[i] in groups;
    }
  }

  /** The search over the prepared groups finds nothing a scan of the raw ones would not, and all
      of it when no two of them overlap, whatever their order. */
  lemma SearchIsScan(groups: seq<Group>, cp: int)
    ensures SearchFinds(Prepared(groups), cp) ==> SomeMapsTo(groups, cp)
    ensures NoOverlap(groups) ==> (SearchFinds(Prepared(groups), cp) <==> SomeMapsTo(groups, cp))
  {
    hide Prepared, NoOverlap;
    ScanPrepared(groups, cp);
    var r := Prepared(groups);
    if NoOverlap(groups) {
      PreparedApart(groups);
      SearchSplits(r, cp, 0, |r|);
    }
  }
}
