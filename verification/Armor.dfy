/** ASCII armor (sections 6.2 and 6.3 of RFC 4880): a public key block from bytes, and back. */
module Armor {
  import opened Octets
  import opened Options
  import opened Strings
  import opened Base64
  import Crc24

  const BEGIN := "-----BEGIN PGP PUBLIC KEY BLOCK-----"
  const END := "-----END PGP PUBLIC KEY BLOCK-----"

  /** The checksum as three bytes, the highest first. */
  function ChecksumBytes(data: Bytes): Bytes {
    var crc := Crc24.Checksum(data);
    [((crc >> 16) & 0xFF) as bv8, ((crc >> 8) & 0xFF) as bv8, (crc & 0xFF) as bv8]
  }

  /** The text cut every 64 characters. */
  function Lines64(s: string): seq<string> {
    if s == "" then [] else if |s| <= 64 then [s] else [s[..64]] + Lines64(s[64..])
  }

  function Inner(b64: string, check: string): string {
    "\n\n" + (Join(Lines64(b64), "\n") + ("\n=" + check)) + "\n"
  }

  function ArmorBetween(begin: string, end: string, data: Bytes): string {
    begin + (Inner(Encode(data), Encode(ChecksumBytes(data))) + (end + "\n"))
  }

  function Armored(data: Bytes): string {
    ArmorBetween(BEGIN, END, data)
  }

  // ------------------------------------------------------------- reading

  /** Where pattern first occurs. */
  function Find(text: string, pattern: string): Option<nat> {
    if pattern <= text then Some(0)
    else if text == "" then None
    else
      var rest := Find(text[1..], pattern);
      if rest.Some? then Some(rest.value + 1) else None
  }

  lemma {:induction false} FoundFits(text: string, pattern: string)
    ensures Find(text, pattern).Some? ==> Find(text, pattern).value + |pattern| <= |text|
  {
    if !(pattern <= text) && text != "" {
      FoundFits(text[1..], pattern);
    }
  }

  /** The body lines after the armor headers, which end at the first empty line. */
  function WithoutHeaders(lines: seq<string>): seq<string> {
    if lines != [] && ':' in lines[0] && "" in lines then AfterEmpty(lines) else lines
  }

  function AfterEmpty(lines: seq<string>): seq<string> {
    if lines == [] then [] else if lines[0] == "" then lines[1..] else AfterEmpty(lines[1..])
  }

  /** The stripped lines joined, blank ones and the checksum line left out. */
  function Cleaned(lines: seq<string>): string {
    if lines == [] then ""
    else
      var line := Trim(lines[0], IsSpace);
      (if line == "" || "=" <= lines[0] then "" else line) + Cleaned(lines[1..])
  }

  /** What reading a key gives: the text as it is when there is no block in it, the bytes of the
      block, or an error. */
  datatype Key = AsItIs(text: string) | Binary(data: Bytes) | Undecodable

  function DearmorBetween(begin: string, end: string, text: string): Key {
    var start := Find(text, begin);
    if start.None? then AsItIs(text)
    else
      FoundFits(text, begin);
      var after := text[start.value + |begin|..];
      var stop := Find(after, end);
      FoundFits(after, end);
      var body := if stop.Some? then after[..stop.value] else after;
      var data := Decode(Cleaned(WithoutHeaders(SplitLines(Trim(body, IsSpace)))));
      if data.None? then Undecodable else Binary(data.value)
  }

  function Dearmored(text: string): Key {
    DearmorBetween(BEGIN, END, text)
  }

  // ------------------------------------------------------------- the lines

  predicate IsBase64(c: char) {
    IsLetter(c) || c == '='
  }

  predicate AllBase64(s: string) {
    forall i :: 0 <= i < |s| ==> IsBase64(s[i])
  }

  lemma Base64IsPlain(c: char)
    requires IsBase64(c)
    ensures !IsSpace(c) && !IsBreak(c) && c != '-' && c != ':' && c != '\n'
  {
  }

  lemma EncodedIsBase64(data: Bytes)
    ensures AllBase64(Encode(data))
    ensures forall i :: 0 <= i < |Encode(data)| && (Encode(data)[i] == '=') ==> |Encode(data)| - 2 <= i
  {
    hide IsLetter, Letters, BytesOf;
    LettersAre(data);
    EncodeLength(data);
    EqualsIsNoLetter();
    var s, pads := Letters(data), Padding(|data|);
    forall i | 0 <= i < |Encode(data)| ensures IsBase64(Encode(data)[i]) {
      if i >= |s| { assert Encode(data)[i] == pads[i - |s|]; } else { assert Encode(data)[i] == s[i]; }
    }
    assert forall i :: 0 <= i < |s| ==> Encode(data)[i] == s[i] && s[i] != '=';
  }

  lemma EqualsIsNoLetter()
    ensures !IsLetter('=')
  {
  }

  /** A text of whole groups whose padding is in its last two places. */
  ghost predicate WholeGroups(s: string) {
    && |s| % 4 == 0 && AllBase64(s)
    && forall i :: 0 <= i < |s| && s[i] == '=' ==> |s| - 2 <= i
  }

  predicate IsBody(line: string) {
    line != "" && AllBase64(line) && line[0] != '='
  }

  /** Cut every 64 characters, no line of whole groups starts with padding. */
  lemma {:induction false} LinesAreBody(s: string)
    requires WholeGroups(s)
    ensures forall i :: 0 <= i < |Lines64(s)| ==> IsBody(Lines64(s)[i])
    ensures s != "" ==> Lines64(s) != []
  {
    hide IsBase64;
    if s == "" {
    } else {
      assert s[0] != '=';
      if |s| > 64 {
        assert (|s| - 64) % 4 == 0;
        LinesAreBody(s[64..]);
      }
    }
  }

  lemma BodyLine(line: string)
    requires IsBody(line)
    ensures IsLine(line) && Trim(line, IsSpace) == line && ':' !in line && !("=" <= line) && '-' !in line
    ensures !IsSpace(line[0]) && !IsSpace(line[|line| - 1])
  {
    hide IsBase64, IsBreak, IsSpace;
    forall i | 0 <= i < |line| ensures !IsBreak(line[i]) && !IsSpace(line[i]) && line[i] != '-' && line[i] != ':' {
      Base64IsPlain(line[i]);
    }
    TrimNothing(line);
  }

  lemma TrimNothing(s: string)
    requires s != "" && !IsSpace(s[0]) && !IsSpace(s[|s| - 1])
    ensures Trim(s, IsSpace) == s
  {
  }

  lemma CheckDropped(check: string)
    ensures Cleaned(["=" + check]) == ""
  {
    assert "=" <= "=" + check;
  }

  /** The lines put together again, without what follows on a checksum line. */
  lemma {:induction false} CleanedLines(s: string, check: string)
    requires WholeGroups(s)
    ensures Cleaned(Lines64(s) + ["=" + check]) == s
    decreases |s|
  {
    hide WholeGroups, Cleaned, Lines64;
    FirstOf64(s);
    CheckDropped(check);
    var tail := ["=" + check];
    if s == "" {
      assert Lines64(s) + tail == tail;
    } else {
      LinesAreKept(s);
      var line := Lines64(s)[0];
      if |s| > 64 {
        GroupsAfter(s);
        CleanedLines(s[64..], check);
        assert Lines64(s) + tail == [line] + (Lines64(s[64..]) + tail);
        LineKept(line, Lines64(s[64..]) + tail);
        assert s == s[..64] + s[64..];
      } else {
        LineKept(line, tail);
      }
    }
  }

  lemma FirstOf64(s: string)
    ensures Lines64(s) == if s == "" then [] else if |s| <= 64 then [s] else [s[..64]] + Lines64(s[64..])
  {
  }

  lemma LinesAreKept(s: string)
    requires WholeGroups(s) && s != ""
    ensures Lines64(s) != []
    ensures var line := Lines64(s)[0]; line != "" && Trim(line, IsSpace) == line && !("=" <= line)
  {
    hide WholeGroups, IsSpace, AllBase64;
    LinesAreBody(s);
    BodyLine(Lines64(s)[0]);
  }

  lemma LineKept(line: string, rest: seq<string>)
    requires line != "" && Trim(line, IsSpace) == line && !("=" <= line)
    ensures Cleaned([line] + rest) == line + Cleaned(rest)
  {
    assert ([line] + rest)[1..] == rest;
  }

  lemma GroupsAfter(s: string)
    requires WholeGroups(s) && |s| > 64
    ensures WholeGroups(s[64..])
  {
    hide IsBase64;
    assert (|s| - 64) % 4 == 0;
  }

  // ------------------------------------------------------------- the block

  lemma {:induction false} FindPast(a: string, pattern: string, rest: string)
    requires pattern != "" && pattern[0] !in a
    ensures Find(a + (pattern + rest), pattern) == Some(|a|)
  {
    var text := a + (pattern + rest);
    if a == "" {
      assert text == pattern + rest;
    } else {
      assert text[0] == a[0] && text[1..] == a[1..] + (pattern + rest);
      FindPast(a[1..], pattern, rest);
    }
  }

  predicate AllSpace(s: string) {
    forall i :: 0 <= i < |s| ==> IsSpace(s[i])
  }

  lemma {:induction false} TrimLeftPast(a: string, s: string)
    requires AllSpace(a)
    ensures TrimLeft(a + s, IsSpace) == TrimLeft(s, IsSpace)
  {
    if a == "" {
      assert a + s == s;
    } else {
      assert (a + s)[1..] == a[1..] + s;
      TrimLeftPast(a[1..], s);
    }
  }

  lemma {:induction false} TrimRightPast(s: string, b: string)
    requires AllSpace(b)
    ensures TrimRight(s + b, IsSpace) == TrimRight(s, IsSpace)
  {
    if b == "" {
      assert s + b == s;
    } else {
      var t := s + b;
      assert t[..|t| - 1] == s + b[..|b| - 1] && t[|t| - 1] == b[|b| - 1];
      TrimRightPast(s, b[..|b| - 1]);
    }
  }

  lemma TrimAround(a: string, s: string, b: string)
    requires AllSpace(a) && AllSpace(b) && s != "" && !IsSpace(s[0]) && !IsSpace(s[|s| - 1])
    ensures Trim(a + s + b, IsSpace) == s
  {
    assert a + s + b == a + (s + b);
    TrimLeftPast(a, s + b);
    assert TrimLeft(s + b, IsSpace) == s + b by { assert (s + b)[0] == s[0]; }
    TrimRightPast(s, b);
    assert TrimRight(s, IsSpace) == s;
  }

  /** What stands between the markers once stripped. */
  function Core(b64: string, check: string): string {
    if b64 == "" then "=" + check else Join(Lines64(b64), "\n") + ("\n=" + check)
  }

  lemma {:induction false} JoinBody(lines: seq<string>)
    requires lines != [] && forall i :: 0 <= i < |lines| ==> IsBody(lines[i])
    ensures Join(lines, "\n") != "" && !IsSpace(Join(lines, "\n")[0]) && '-' !in Join(lines, "\n")
  {
    BodyLine(lines[0]);
    if |lines| > 1 {
      JoinBody(lines[1..]);
    }
  }

  lemma InnerHolds(b64: string, check: string)
    requires WholeGroups(b64) && WholeGroups(check) && check != ""
    ensures Trim(Inner(b64, check), IsSpace) == Core(b64, check)
    ensures '-' !in Inner(b64, check)
  {
    hide IsBase64;
    CheckIsPlain(check);
    if b64 == "" {
      var s := "=" + check;
      assert Inner(b64, check) == "\n\n\n" + s + "\n";
      TrimAround("\n\n\n", s, "\n");
    } else {
      LinesAreBody(b64);
      JoinBody(Lines64(b64));
      BodyLine(Lines64(b64)[0]);
      var s := Join(Lines64(b64), "\n") + ("\n=" + check);
      assert s[|s| - 1] == check[|check| - 1];
      TrimAround("\n\n", s, "\n");
    }
  }

  lemma CheckIsPlain(check: string)
    requires WholeGroups(check) && check != ""
    ensures !IsSpace(check[|check| - 1]) && '-' !in check && IsLine(check)
  {
    hide IsBase64, IsBreak, IsSpace;
    forall i | 0 <= i < |check| ensures !IsSpace(check[i]) && check[i] != '-' && !IsBreak(check[i]) {
      Base64IsPlain(check[i]);
    }
  }

  /** Its lines are the body lines and the checksum line. */
  lemma CoreLines(b64: string, check: string)
    requires WholeGroups(b64) && WholeGroups(check) && check != ""
    ensures SplitLines(Core(b64, check)) == Lines64(b64) + ["=" + check]
  {
    hide IsBase64, IsBody, IsLine, Lines64, Join, SplitLines, WholeGroups;
    CheckIsPlain(check);
    LinesAreBody(b64);
    var body, last := Lines64(b64), "=" + check;
    var lines := body + [last];
    LastIsLine(check);
    forall i | 0 <= i < |lines| ensures IsLine(lines[i]) && lines[i] != "" {
      if i < |body| { BodyIsLine(body[i]); }
    }
    SplitJoined(lines);
    CoreIsJoined(b64, check);
  }

  lemma LastIsLine(check: string)
    requires IsLine(check)
    ensures IsLine("=" + check)
  {
  }

  lemma BodyIsLine(line: string)
    requires IsBody(line)
    ensures IsLine(line) && line != ""
  {
    BodyLine(line);
  }

  lemma CoreIsJoined(b64: string, check: string)
    requires b64 != "" ==> Lines64(b64) != []
    ensures Core(b64, check) == Join(Lines64(b64) + ["=" + check], "\n")
  {
    var body, last := Lines64(b64), "=" + check;
    if b64 == "" {
      assert body + [last] == [last];
    } else {
      JoinSplits(body, [last], "\n");
      assert "\n" + last == "\n=" + check;
      assert Join(body, "\n") + "\n" + last == Join(body, "\n") + ("\n" + last);
    }
  }

  lemma NoHeaders(b64: string, check: string)
    requires WholeGroups(b64) && WholeGroups(check) && check != ""
    ensures WithoutHeaders(Lines64(b64) + ["=" + check]) == Lines64(b64) + ["=" + check]
  {
    hide IsBase64;
    LinesAreBody(b64);
    var lines := Lines64(b64) + ["=" + check];
    forall i | 0 <= i < |lines| ensures lines[i] != "" {
    }
  }

  /** The armor of any bytes, the empty string included, is read back as those bytes. */
  lemma DearmorArmor(begin: string, end: string, data: Bytes)
    requires begin != "" && end != "" && end[0] == '-'
    ensures DearmorBetween(begin, end, ArmorBetween(begin, end, data)) == Binary(data)
  {
    hide Inner, Core, Letters, Cleaned, WithoutHeaders, SplitLines, Trim, Lines64, WholeGroups, ChecksumBytes;
    var b64, check := Encode(data), Encode(ChecksumBytes(data));
    EncodedGroups(data);
    EncodedGroups(ChecksumBytes(data));
    assert check != "" by { ChecksumEncoded(data); }
    InnerHolds(b64, check);
    var inner := Inner(b64, check);
    var text := ArmorBetween(begin, end, data);
    var after := inner + (end + "\n");
    assert text == begin + after && begin <= text;
    assert text[|begin|..] == after;
    FindPast(inner, end, "\n");
    assert after[..|inner|] == inner;
    CoreLines(b64, check);
    NoHeaders(b64, check);
    CleanedLines(b64, check);
    DecodeEncode(data);
  }

  lemma EncodedGroups(data: Bytes)
    ensures WholeGroups(Encode(data))
  {
    hide Encode;
    EncodedIsBase64(data);
    EncodeLength(data);
  }

  lemma ChecksumEncoded(data: Bytes)
    ensures Encode(ChecksumBytes(data)) != ""
  {
    assert |ChecksumBytes(data)| == 3;
  }

  lemma DearmoredArmored(data: Bytes)
    ensures Dearmored(Armored(data)) == Binary(data)
  {
    hide DearmorBetween, ArmorBetween;
    assert BEGIN[0] == '-' && END[0] == '-';
    DearmorArmor(BEGIN, END, data);
  }

  // ------------------------------------------------------------- the shape of a block

  /** Cut every 64 characters: all lines but the last are full, and none is empty. */
  lemma {:induction false} LinesAre64(s: string)
    ensures var lines := Lines64(s);
            && (s == "" <==> lines == [])
            && (forall i :: 0 <= i < |lines| - 1 ==> |lines[i]| == 64)
            && (lines != [] ==> 0 < |lines[|lines| - 1]| <= 64)
            && Join(lines, "") == s
    decreases |s|
  {
    if |s| > 64 {
      LinesAre64(s[64..]);
      assert s == s[..64] + s[64..];
      var rest := Lines64(s[64..]);
      assert Lines64(s)[1..] == rest;
    }
  }

  /** The markers of a public key block (section 6.2 of RFC 4880). */
  lemma Markers()
    ensures BEGIN == "-----BEGIN PGP PUBLIC KEY BLOCK-----"
    ensures END == "-----END PGP PUBLIC KEY BLOCK-----"
  {
  }

  /** The whole text of a block: the marker, an empty line, the lines, the checksum, the marker. */
  lemma BlockIs(data: Bytes)
    ensures Armored(data)
         == (BEGIN + "\n\n") + Join(Lines64(Encode(data)), "\n") + "\n=" + Encode(ChecksumBytes(data)) + ("\n" + (END + "\n"))
  {
    hide Encode, Lines64, Join, ChecksumBytes;
    BlockParts(BEGIN, "\n\n", Join(Lines64(Encode(data)), "\n"), "\n=", Encode(ChecksumBytes(data)), "\n", END + "\n");
  }

  lemma BlockParts(a: string, b: string, c: string, d: string, e: string, f: string, g: string)
    ensures a + (b + (c + (d + e)) + f + g) == (a + b) + c + d + e + (f + g)
  {
  }

  /** The three bytes of the checksum are its digits to the base 256, the highest first. */
  lemma ChecksumBytesAre(data: Bytes)
    ensures var b := ChecksumBytes(data);
            |b| == 3 && ((b[0] as bv32) << 16) | ((b[1] as bv32) << 8) | (b[2] as bv32) == Crc24.Checksum(data)
  {
    Crc24.ChecksumIs24(data);
    ThreeBytes(Crc24.Checksum(data));
  }

  lemma ThreeBytes(c: bv32)
    requires c < 0x1000000
    ensures ((((c >> 16) & 0xFF) as bv8 as bv32) << 16) | ((((c >> 8) & 0xFF) as bv8 as bv32) << 8) | ((c & 0xFF) as bv8 as bv32) == c
  {
  }

  /** Whatever has no block in it is a key in binary form already. */
  lemma NoBlock(text: string)
    requires forall i :: 0 <= i <= |text| ==> !("-----BEGIN PGP PUBLIC KEY BLOCK-----" <= text[i..])
    ensures Dearmored(text) == AsItIs(text)
  {
    NothingFound(text, BEGIN);
  }

  lemma {:induction false} NothingFound(text: string, pattern: string)
    requires forall i :: 0 <= i <= |text| ==> !(pattern <= text[i..])
    ensures Find(text, pattern) == None
  {
    assert text[0..] == text;
    if text != "" {
      forall i | 0 <= i <= |text[1..]| ensures !(pattern <= text[1..][i..]) {
        assert text[1..][i..] == text[i + 1..];
      }
      NothingFound(text[1..], pattern);
    }
  }

  /** Armor headers: lines up to an empty one, the first with a colon in it. */
  ghost predicate AreHeaders(heads: seq<string>) {
    && heads != [] && ':' in heads[0] && !IsSpace(heads[0][0])
    && forall i :: 0 <= i < |heads| ==> IsLine(heads[i]) && heads[i] != "" && '-' !in heads[i]
  }

  lemma {:induction false} AfterHeaders(heads: seq<string>, body: seq<string>)
    requires forall i :: 0 <= i < |heads| ==> heads[i] != ""
    ensures AfterEmpty(heads + [""] + body) == body
  {
    var lines := heads + [""] + body;
    if heads == [] {
      assert lines[0] == "" && lines[1..] == body;
    } else {
      assert lines[0] == heads[0] && lines[1..] == heads[1..] + [""] + body;
      AfterHeaders(heads[1..], body);
    }
  }

  /** What follows the empty line at the start of a block. */
  function Body(b64: string, check: string): string {
    Join(Lines64(b64), "\n") + "\n=" + check
  }

  lemma BodyLines(b64: string, check: string)
    requires WholeGroups(b64) && WholeGroups(check) && check != ""
    ensures Cleaned(SplitLines(Body(b64, check))) == b64
  {
    hide IsBase64, IsLine, WholeGroups, Cleaned, SplitLines, IsSpace, Lines64, Core, Body;
    CoreLines(b64, check);
    CleanedLines(b64, check);
    BodyIs(b64, check);
    if b64 == "" {
      SplitAfterFeed("\n", Core(b64, check));
      SplitFeed();
      BlankDropped(Lines64(b64) + ["=" + check]);
    }
  }

  lemma BodyIs(b64: string, check: string)
    ensures Body(b64, check) == if b64 == "" then "\n" + Core(b64, check) else Core(b64, check)
  {
    hide Lines64;
    if b64 == "" {
      assert Lines64("") == [] by { NoLines(); }
      assert Join([], "\n") + "\n=" + check == "\n" + ("=" + check);
    }
  }

  lemma NoLines()
    ensures Lines64("") == []
  {
  }

  lemma BlankDropped(rest: seq<string>)
    ensures Cleaned([""] + rest) == Cleaned(rest)
  {
    assert ([""] + rest)[1..] == rest;
  }

  lemma HeadedLines(heads: seq<string>, b64: string, check: string)
    requires AreHeaders(heads) && WholeGroups(b64) && WholeGroups(check) && check != ""
    ensures Cleaned(WithoutHeaders(SplitLines(Join(heads, "\n") + "\n\n" + Body(b64, check)))) == b64
  {
    hide IsBase64, IsLine, WholeGroups, Lines64, Body, SplitLines, Join, Cleaned;
    BodyLines(b64, check);
    SplitJoined(heads);
    var text, body := Join(heads, "\n") + "\n", SplitLines(Body(b64, check));
    assert text + ("\n" + Body(b64, check)) == Join(heads, "\n") + "\n\n" + Body(b64, check);
    SplitAfterFeed(text, "\n" + Body(b64, check));
    SplitAfterFeed("\n", Body(b64, check));
    SplitFeed();
    assert heads + ([""] + body) == heads + [""] + body;
    AfterHeaders(heads, body);
    var lines := heads + [""] + body;
    assert lines[0] == heads[0] && lines[|heads|] == "";
  }

  /** Text before the block, armor headers in it and text after it do not change what is read. */
  lemma HeadersAreSkipped(before: string, heads: seq<string>, data: Bytes, rest: string)
    requires '-' !in before && AreHeaders(heads)
    ensures Dearmored(before + BEGIN + "\n" + Join(heads, "\n") + Inner(Encode(data), Encode(ChecksumBytes(data))) + END + rest)
         == Binary(data)
  {
    hide Inner, Body, Encode, Cleaned, WithoutHeaders, SplitLines, Trim, Lines64, WholeGroups, ChecksumBytes, Join, IsLine, IsSpace;
    var b64, check := Encode(data), Encode(ChecksumBytes(data));
    EncodedGroups(data);
    EncodedGroups(ChecksumBytes(data));
    assert check != "" by { ChecksumEncoded(data); }
    InnerHolds(b64, check);
    HeadsJoined(heads);
    var head := "\n" + Join(heads, "\n");
    var block := head + Inner(b64, check);
    var after := block + (END + rest);
    var text := before + (BEGIN + after);
    assert text == before + BEGIN + "\n" + Join(heads, "\n") + Inner(b64, check) + END + rest;
    FindPast(before, BEGIN, after);
    assert text[|before| + |BEGIN|..] == after;
    FindPast(block, END, rest);
    assert after[..|block|] == block;
    HeadedTrims(heads, b64, check);
    HeadedLines(heads, b64, check);
    DecodeEncode(data);
  }

  lemma {:induction false} HeadsJoined(heads: seq<string>)
    requires heads != [] && forall i :: 0 <= i < |heads| ==> heads[i] != "" && '-' !in heads[i]
    ensures Join(heads, "\n") != "" && Join(heads, "\n")[0] == heads[0][0] && '-' !in Join(heads, "\n")
  {
    if |heads| > 1 { HeadsJoined(heads[1..]); }
  }

  lemma HeadedTrims(heads: seq<string>, b64: string, check: string)
    requires AreHeaders(heads) && WholeGroups(b64) && WholeGroups(check) && check != ""
    ensures Trim("\n" + Join(heads, "\n") + Inner(b64, check), IsSpace) == Join(heads, "\n") + "\n\n" + Body(b64, check)
  {
    hide IsBase64, WholeGroups, Join, Lines64, IsLine;
    HeadsJoined(heads);
    CheckIsPlain(check);
    var s := Join(heads, "\n") + "\n\n" + Body(b64, check);
    assert s[|s| - 1] == check[|check| - 1];
    assert s[0] == heads[0][0];
    TrimAround("\n", s, "\n");
    assert "\n" + Join(heads, "\n") + Inner(b64, check) == "\n" + s + "\n";
  }
}
