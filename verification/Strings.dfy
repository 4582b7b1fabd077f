/** Text: white space, trimming, joining and decimal numbers, as Python has them. */
module Strings {
  /** What Python's strip() and the regular expression class \s take for white space. */
  predicate IsSpace(c: char) {
    || '\t' <= c <= '\r'
    || '\U{1c}' <= c <= ' '
    || c in {'\U{85}', '\U{a0}', '\U{1680}', '\U{2028}', '\U{2029}', '\U{202f}', '\U{205f}', '\U{3000}'}
    || '\U{2000}' <= c <= '\U{200a}'
  }

  /** White space, character by character. */
  lemma SpaceIff(c: char)
    ensures IsSpace(c) <==>
            c as int in {9, 10, 11, 12, 13, 28, 29, 30, 31, 32, 133, 160, 5760, 8192, 8193, 8194, 8195, 8196, 8197, 8198,
                         8199, 8200, 8201, 8202, 8232, 8233, 8239, 8287, 12288}
  {
  }

  function TrimLeft(s: string, drop: char -> bool): string {
    if s != "" && drop(s[0]) then TrimLeft(s[1..], drop) else s
  }

  function TrimRight(s: string, drop: char -> bool): string {
    if s != "" && drop(s[|s| - 1]) then TrimRight(s[..|s| - 1], drop) else s
  }

  function Trim(s: string, drop: char -> bool): string {
    TrimRight(TrimLeft(s, drop), drop)
  }

  lemma {:induction false} TrimKeeps(s: string, drop: char -> bool)
    ensures forall c :: c in TrimLeft(s, drop) ==> c in s
    ensures forall c :: c in TrimRight(s, drop) ==> c in s
    ensures |TrimLeft(s, drop)| <= |s| && |TrimRight(s, drop)| <= |s|
    decreases |s|
  {
    if s != "" {
      TrimKeeps(s[1..], drop);
      TrimKeeps(s[..|s| - 1], drop);
    }
  }

  /** What is trimmed away, and what stays. */
  lemma {:induction false} TrimDrops(left: string, mid: string, right: string, drop: char -> bool)
    requires forall i :: 0 <= i < |left| ==> drop(left[i])
    requires forall i :: 0 <= i < |right| ==> drop(right[i])
    requires mid != "" && !drop(mid[0]) && !drop(mid[|mid| - 1])
    ensures Trim(left + mid + right, drop) == mid
    decreases |left| + |right|
  {
    var s := left + mid + right;
    if left != "" {
      assert s[0] == left[0] && s[1..] == left[1..] + mid + right;
      TrimDrops(left[1..], mid, right, drop);
    } else {
      assert s == mid + right && s[0] == mid[0];
      TrimRightDrops(mid, right, drop);
    }
  }

  lemma {:induction false} TrimRightDrops(mid: string, right: string, drop: char -> bool)
    requires forall i :: 0 <= i < |right| ==> drop(right[i])
    requires mid != "" && !drop(mid[|mid| - 1])
    ensures TrimRight(mid + right, drop) == mid
    decreases |right|
  {
    var s := mid + right;
    if right != "" {
      assert s[|s| - 1] == right[|right| - 1];
      assert s[..|s| - 1] == mid + right[..|right| - 1];
      TrimRightDrops(mid, right[..|right| - 1], drop);
    } else {
      assert s == mid;
    }
  }

  lemma {:induction false} TrimAll(s: string, drop: char -> bool)
    requires forall i :: 0 <= i < |s| ==> drop(s[i])
    ensures Trim(s, drop) == ""
  {
    if s != "" { TrimAll(s[1..], drop); }
  }

  /** sep.join(parts). */
  function Join(parts: seq<string>, sep: string): string {
    if parts == [] then ""
    else if |parts| == 1 then parts[0]
    else parts[0] + sep + Join(parts[1..], sep)
  }

  lemma {:induction false} JoinSplits(a: seq<string>, b: seq<string>, sep: string)
    requires a != [] && b != []
    ensures Join(a + b, sep) == Join(a, sep) + sep + Join(b, sep)
  {
    if |a| == 1 {
      assert (a + b)[1..] == b;
    } else {
      assert (a + b)[1..] == a[1..] + b;
      JoinSplits(a[1..], b, sep);
    }
  }

  const DIGITS := "0123456789"

  /** n in decimal. */
  function Decimal(n: nat): string {
    if n < 10 then [DIGITS[n]] else Decimal(n / 10) + [DIGITS[n % 10]]
  }

  lemma DigitsDiffer(a: nat, b: nat)
    requires a < 10 && b < 10 && DIGITS[a] == DIGITS[b]
    ensures a == b
  {
  }

  /** The last digit of a number, and what it has before it. */
  lemma DecimalEnds(n: nat)
    ensures Decimal(n) != "" && Decimal(n)[|Decimal(n)| - 1] == DIGITS[n % 10]
    ensures Decimal(n)[..|Decimal(n)| - 1] == if n < 10 then "" else Decimal(n / 10)
  {
  }

  lemma {:induction false} DecimalIsInjective(m: nat, n: nat)
    requires Decimal(m) == Decimal(n)
    ensures m == n
  {
    hide Decimal;
    DecimalEnds(m);
    DecimalEnds(n);
    DecimalEnds(m / 10);
    DecimalEnds(n / 10);
    DigitsDiffer(m % 10, n % 10);
    if m >= 10 && n >= 10 {
      DecimalIsInjective(m / 10, n / 10);
    }
  }

  /** The number a text of digits stands for. */
  function ValueOf(digits: string): int {
    if digits == "" then 0 else 10 * ValueOf(digits[..|digits| - 1]) + (digits[|digits| - 1] as int - '0' as int)
  }

  /** A number is written in digits, without a leading zero, and can be read back. */
  lemma {:induction false} DecimalReadsBack(n: nat)
    ensures ValueOf(Decimal(n)) == n
    ensures forall i :: 0 <= i < |Decimal(n)| ==> '0' <= Decimal(n)[i] <= '9'
    ensures n > 0 ==> Decimal(n)[0] != '0'
  {
    DigitIs(n % 10);
    if n >= 10 {
      DecimalReadsBack(n / 10);
      assert Decimal(n)[..|Decimal(n)| - 1] == Decimal(n / 10);
    } else {
      assert Decimal(n)[..0] == "";
    }
  }

  lemma DigitIs(d: nat)
    requires d < 10
    ensures DIGITS[d] as int == '0' as int + d
  {
  }

  // ------------------------------------------------------------- lines

  /** The characters at which Python's splitlines() ends a line. */
  predicate IsBreak(c: char) {
    || '\n' <= c <= '\r' || '\U{1c}' <= c <= '\U{1e}'
    || c in {'\U{85}', '\U{2028}', '\U{2029}'}
  }

  /** The ends of lines, character by character. */
  lemma BreakIff(c: char)
    ensures IsBreak(c) <==> c as int in {10, 11, 12, 13, 28, 29, 30, 133, 8232, 8233}
  {
  }

  predicate IsLine(s: string) {
    forall i :: 0 <= i < |s| ==> !IsBreak(s[i])
  }

  lemma LinesJoin(a: string, b: string)
    requires IsLine(a) && IsLine(b)
    ensures IsLine(a + b)
  {
  }

  /** text.splitlines(): a carriage return and a line feed together are one break. */
  function SplitLines(text: string): (lines: seq<string>)
    ensures text != "" ==> lines != []
  {
    if text == "" then []
    else if IsBreak(text[0]) then
      [""] + SplitLines(if text[0] == '\r' && |text| > 1 && text[1] == '\n' then text[2..] else text[1..])
    else
      var rest := SplitLines(text[1..]);
      if rest == [] || text[1..] == "" then [[text[0]]]
      else [[text[0]] + rest[0]] + rest[1..]
  }

  lemma {:induction false} SplitLinesAreLines(text: string)
    ensures forall i :: 0 <= i < |SplitLines(text)| ==> IsLine(SplitLines(text)[i])
    decreases |text|
  {
    if text != "" {
      SplitLinesAreLines(text[1..]);
      if |text| > 1 { SplitLinesAreLines(text[2..]); }
    }
  }

  /** A line followed by a line feed is split off. */
  lemma {:induction false} FirstLine(line: string, rest: string)
    requires IsLine(line)
    ensures SplitLines(line + "\n" + rest) == [line] + SplitLines(rest)
  {
    var text := line + "\n" + rest;
    if line == "" {
      assert text[1..] == rest;
    } else {
      assert text[1..] == line[1..] + "\n" + rest && text[0] == line[0];
      FirstLine(line[1..], rest);
      assert line == [line[0]] + line[1..];
    }
  }

  lemma {:induction false} OnlyLine(line: string)
    requires IsLine(line) && line != ""
    ensures SplitLines(line) == [line]
  {
    if |line| > 1 {
      OnlyLine(line[1..]);
      assert line == [line[0]] + line[1..];
    } else {
      assert line == [line[0]];
    }
  }

  /** Non-empty lines joined by line feeds are split into the same lines, whether or not a line
      feed ends the text. */
  lemma {:induction false} SplitJoined(lines: seq<string>)
    requires forall i :: 0 <= i < |lines| ==> IsLine(lines[i]) && lines[i] != ""
    ensures SplitLines(Join(lines, "\n")) == lines
    ensures lines != [] ==> SplitLines(Join(lines, "\n") + "\n") == lines
  {
    if |lines| == 1 {
      OnlyLine(lines[0]);
      FirstLine(lines[0], "");
      assert lines[0] + "\n" + "" == lines[0] + "\n";
    } else if |lines| > 1 {
      SplitJoined(lines[1..]);
      var rest := Join(lines[1..], "\n");
      FirstLine(lines[0], rest);
      FirstLine(lines[0], rest + "\n");
      assert lines[0] + "\n" + rest + "\n" == lines[0] + "\n" + (rest + "\n");
      assert lines == [lines[0]] + lines[1..];
    }
  }

  lemma SplitBreak(text: string)
    requires text != "" && IsBreak(text[0])
    ensures SplitLines(text) == [""] + SplitLines(if text[0] == '\r' && |text| > 1 && text[1] == '\n' then text[2..] else text[1..])
  {
  }

  lemma SplitOther(text: string)
    requires |text| > 1 && !IsBreak(text[0])
    ensures var rest := SplitLines(text[1..]); SplitLines(text) == [[text[0]] + rest[0]] + rest[1..]
  {
  }

  lemma SplitFeed()
    ensures SplitLines("\n") == [""] && SplitLines("\r\n") == [""]
  {
    assert "\n"[1..] == "" && "\r\n"[2..] == "";
  }

  /** What follows a line feed starts a new line. */
  lemma {:induction false} SplitAfterFeed(s: string, rest: string)
    requires s != "" && s[|s| - 1] == '\n'
    ensures SplitLines(s + rest) == SplitLines(s) + SplitLines(rest)
    decreases |s|
  {
    hide SplitLines;
    var text := s + rest;
    assert text[0] == s[0] && text[1..] == s[1..] + rest;
    SplitFeed();
    if |s| == 1 {
      assert s == "\n" && text[1..] == rest;
      SplitBreak(text);
    } else if s == "\r\n" {
      assert text[2..] == rest;
      SplitBreak(text);
    } else if IsBreak(s[0]) {
      var more := if s[0] == '\r' && s[1] == '\n' then s[2..] else s[1..];
      SplitBreak(text);
      SplitBreak(s);
      assert text[2..] == s[2..] + rest;
      SplitAfterFeed(more, rest);
    } else {
      SplitOther(text);
      SplitOther(s);
      SplitAfterFeed(s[1..], rest);
    }
  }

  /** raw.split("\n"). */
  function SplitFeeds(s: string): (pieces: seq<string>)
    ensures pieces != []
  {
    if s == "" then [""]
    else
      var rest := SplitFeeds(s[1..]);
      if s[0] == '\n' then [""] + rest else [[s[0]] + rest[0]] + rest[1..]
  }

  lemma {:induction false} FeedsOfLine(line: string)
    requires '\n' !in line
    ensures SplitFeeds(line) == [line]
  {
    if line != "" {
      FeedsOfLine(line[1..]);
      assert line == [line[0]] + line[1..];
    }
  }

  lemma {:induction false} FeedsExtended(value: string, line: string)
    requires '\n' !in line
    ensures SplitFeeds(value + "\n" + line) == SplitFeeds(value) + [line]
  {
    var s := value + "\n" + line;
    if value == "" {
      assert s[1..] == line;
      FeedsOfLine(line);
    } else {
      assert s[1..] == value[1..] + "\n" + line && s[0] == value[0];
      FeedsExtended(value[1..], line);
    }
  }

  /** Pieces without a line feed joined by line feeds are split into the same pieces. */
  lemma {:induction false} FeedsOfJoined(pieces: seq<string>)
    requires pieces != [] && forall i :: 0 <= i < |pieces| ==> '\n' !in pieces[i]
    ensures SplitFeeds(Join(pieces, "\n")) == pieces
  {
    var n := |pieces|;
    if n == 1 {
      FeedsOfLine(pieces[0]);
    } else {
      var front, last := pieces[..n - 1], pieces[n - 1];
      FeedsOfJoined(front);
      JoinSplits(front, [last], "\n");
      assert front + [last] == pieces;
      FeedsExtended(Join(front, "\n"), last);
    }
  }
}
