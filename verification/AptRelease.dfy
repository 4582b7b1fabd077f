/** The Release file: its header, and the list of hashes at its end. */
module AptRelease {
  import opened Options
  import opened Strings
  import opened Deb822
  import opened DebStanza
  import opened AptIndex

  /** One line of the list: an index and what its content is. */
  datatype Listed = Listed(path: string, sha: string, size: nat)

  /** What the Release file says about itself; the description is a fixed sentence. */
  datatype Header = Header(
    origin: string, suiteLabel: string, suite: string, codename: string, date: string, validUntil: Option<string>,
    arches: seq<string>, component: string, description: string)

  const SHA256_FIELD := "SHA256:"

  function HeaderFields(h: Header): seq<Field> {
    [Field("Origin", h.origin), Field("Label", h.suiteLabel), Field("Suite", h.suite), Field("Codename", h.codename),
     Field("Date", h.date)]
    + (if h.validUntil.Some? then [Field("Valid-Until", h.validUntil.value)] else [])
    + [Field("Architectures", Join(h.arches, " ")), Field("Components", h.component), Field("Description", h.description)]
  }

  /** The lines of the header, in the order apt expects. */
  lemma HeaderLines(h: Header)
    ensures Texts(HeaderFields(h))
         == ["Origin: " + h.origin, "Label: " + h.suiteLabel, "Suite: " + h.suite, "Codename: " + h.codename, "Date: " + h.date]
            + (if h.validUntil.Some? then ["Valid-Until: " + h.validUntil.value] else [])
            + ["Architectures: " + Join(h.arches, " "), "Components: " + h.component, "Description: " + h.description]
  {
    hide Join;
    assert "Origin" + ": " == "Origin: " && "Label" + ": " == "Label: " && "Suite" + ": " == "Suite: ";
    assert "Codename" + ": " == "Codename: " && "Date" + ": " == "Date: " && "Valid-Until" + ": " == "Valid-Until: ";
    assert "Architectures" + ": " == "Architectures: " && "Components" + ": " == "Components: " && "Description" + ": " == "Description: ";
  }

  function ListedLine(l: Listed): string {
    " " + (l.sha + (" " + (Decimal(l.size) + (" " + l.path))))
  }

  function ListedLines(list: seq<Listed>): seq<string> {
    seq(|list|, i requires 0 <= i < |list| => ListedLine(list[i]))
  }

  function ReleaseText(h: Header, list: seq<Listed>): string {
    Join(Texts(HeaderFields(h)) + ([SHA256_FIELD] + ListedLines(list)), "\n") + "\n"
  }

  // ------------------------------------------------------------- reading the list

  /** s.split(): the maximal runs without white space. */
  function Words(s: string): (r: seq<string>)
    ensures s != "" && !IsSpace(s[0]) ==> r != []
  {
    if s == "" then []
    else
      var rest := Words(s[1..]);
      if IsSpace(s[0]) then rest
      else if |s| > 1 && !IsSpace(s[1]) then [[s[0]] + rest[0]] + rest[1..]
      else [[s[0]]] + rest
  }

  type Hashes = map<string, (string, int)>

  /** The lines from here on; toInt reads a number. */
  function HashLines(toInt: string -> Option<int>, lines: seq<string>, inside: bool, found: Hashes): Option<Hashes> {
    if lines == [] then Some(found)
    else
      var line, rest := lines[0], lines[1..];
      if SHA256_FIELD <= line then HashLines(toInt, rest, true, found)
      else if !inside then HashLines(toInt, rest, false, found)
      else if !(" " <= line) then HashLines(toInt, rest, false, found)
      else
        var words := Words(line);
        if |words| != 3 || toInt(words[1]).None? then None
        else HashLines(toInt, rest, true, found[words[2] := (words[0], toInt(words[1]).value)])
  }

  function ReleaseHashes(toInt: string -> Option<int>, text: string): Option<Hashes> {
    HashLines(toInt, SplitLines(text), false, map[])
  }

  method ReadReleaseHashes(toInt: string -> Option<int>, text: string) returns (r: Option<Hashes>)
    ensures r == ReleaseHashes(toInt, text)
  {
    var lines, found: Hashes, inside := SplitLines(text), map[], false;
    assert lines[0..] == lines;
    for i := 0 to |lines|
      invariant HashLines(toInt, lines[i..], inside, found) == ReleaseHashes(toInt, text)
    {
      var line := lines[i];
      assert lines[i..][0] == line && lines[i..][1..] == lines[i + 1..];
      if SHA256_FIELD <= line {
        inside := true;
        continue;
      }
      if inside {
        if !(" " <= line) {
          inside := false;
          continue;
        }
        var parts := Words(line);
        if |parts| != 3 {
          return None;
        }
        var size := toInt(parts[1]);
        if size.None? {
          return None;
        }
        found := found[parts[2] := (parts[0], size.value)];
      }
    }
    assert lines[|lines|..] == [];
    r := Some(found);
  }

  // ------------------------------------------------------------- what was listed is found

  function HashesOf(list: seq<Listed>): Hashes {
    if list == [] then map[]
    else
      var l := list[|list| - 1];
      HashesOf(list[..|list| - 1])[l.path := (l.sha, l.size)]
  }

  lemma {:induction false} WordThen(w: string, rest: string)
    requires w != "" && IsVisible(w) && (rest == "" || IsSpace(rest[0]))
    ensures Words(w + rest) == [w] + Words(rest)
  {
    var s := w + rest;
    if |w| == 1 {
      assert s[1..] == rest && w == [w[0]];
    } else {
      assert s[1..] == w[1..] + rest && s[0] == w[0] && s[1] == w[1];
      WordThen(w[1..], rest);
      assert w == [w[0]] + w[1..];
    }
  }

  lemma SpaceThen(rest: string)
    ensures Words(" " + rest) == Words(rest)
  {
    assert (" " + rest)[1..] == rest;
  }

  lemma ThreeWords(a: string, b: string, c: string)
    requires a != "" && b != "" && c != "" && IsVisible(a) && IsVisible(b) && IsVisible(c)
    ensures Words(" " + (a + (" " + (b + (" " + c))))) == [a, b, c]
  {
    var tail2 := " " + c;
    var tail1 := " " + (b + tail2);
    SpaceThen(a + tail1);
    WordThen(a, tail1);
    SpaceThen(b + tail2);
    WordThen(b, tail2);
    SpaceThen(c);
    WordThen(c, "");
    assert c + "" == c;
  }

  ghost predicate IsListed(l: Listed) {
    l.path != "" && IsVisible(l.path) && l.sha != "" && IsVisible(l.sha)
  }

  /** A line of the list is one line, and no header. */
  lemma ListedLineStands(l: Listed)
    requires IsLine(l.path) && IsVisible(l.sha)
    ensures IsLine(ListedLine(l)) && " " <= ListedLine(l) && !(SHA256_FIELD <= ListedLine(l))
  {
    DecimalIsVisible(l.size);
    var s := ListedLine(l);
    VisibleLine(l.sha);
    VisibleLine(Decimal(l.size));
    LinesJoin(" ", l.path);
    LinesJoin(Decimal(l.size), " " + l.path);
    LinesJoin(" ", Decimal(l.size) + (" " + l.path));
    LinesJoin(l.sha, " " + (Decimal(l.size) + (" " + l.path)));
    LinesJoin(" ", l.sha + (" " + (Decimal(l.size) + (" " + l.path))));
    assert s[0] == ' ';
  }

  lemma ListedLineReads(l: Listed)
    requires IsListed(l)
    ensures Words(ListedLine(l)) == [l.sha, Decimal(l.size), l.path]
    ensures " " <= ListedLine(l) && !(SHA256_FIELD <= ListedLine(l))
  {
    DecimalIsVisible(l.size);
    DecimalEnds(l.size);
    ThreeWords(l.sha, Decimal(l.size), l.path);
    VisibleLine(l.path);
    ListedLineStands(l);
  }

  lemma VisibleLine(s: string)
    requires IsVisible(s)
    ensures IsLine(s)
  {
  }

  ghost predicate ReadsNumbers(toInt: string -> Option<int>) {
    forall n: nat :: toInt(Decimal(n)) == Some(n)
  }

  lemma {:induction false} ListedLinesRead(toInt: string -> Option<int>, list: seq<Listed>, k: nat)
    requires ReadsNumbers(toInt) && k <= |list| && forall i :: 0 <= i < |list| ==> IsListed(list[i])
    ensures HashLines(toInt, ListedLines(list)[k..], true, HashesOf(list[..k])) == Some(HashesOf(list))
    decreases |list| - k
  {
    if k == |list| {
      assert list[..k] == list;
    } else {
      var lines := ListedLines(list)[k..];
      ListedLineReads(list[k]);
      assert lines[0] == ListedLine(list[k]) && lines[1..] == ListedLines(list)[k + 1..];
      assert list[..k + 1][..k] == list[..k];
      assert toInt(Decimal(list[k].size)) == Some(list[k].size);
      ListedLinesRead(toInt, list, k + 1);
    }
  }

  // ------------------------------------------------------------- the header is skipped

  /** No line of the text starts the list of hashes. */
  predicate HasNoList(text: string) {
    forall i :: 0 <= i < |SplitLines(text)| ==> !(SHA256_FIELD <= SplitLines(text)[i])
  }

  /** No line of any field starts the list of hashes. */
  predicate IsHeader(h: Header) {
    AreSkipped(HeaderFields(h))
  }

  predicate AreSkipped(fields: seq<Field>) {
    forall i :: 0 <= i < |fields| ==> HasNoList(FieldText(fields[i]) + "\n")
  }

  lemma {:induction false} LinesSkipped(toInt: string -> Option<int>, head: seq<string>, rest: seq<string>)
    requires forall i :: 0 <= i < |head| ==> !(SHA256_FIELD <= head[i])
    ensures HashLines(toInt, head + rest, false, map[]) == HashLines(toInt, rest, false, map[])
  {
    if head == [] {
      assert head + rest == rest;
    } else {
      assert (head + rest)[0] == head[0] && (head + rest)[1..] == head[1..] + rest;
      LinesSkipped(toInt, head[1..], rest);
    }
  }

  /** The fields of a header, each ended by a line feed, are read over. */
  lemma {:induction false} HeaderSkipped(toInt: string -> Option<int>, fields: seq<Field>, rest: string)
    requires fields != [] && AreSkipped(fields)
    ensures HashLines(toInt, SplitLines(Join(Texts(fields), "\n") + "\n" + rest), false, map[])
         == HashLines(toInt, SplitLines(rest), false, map[])
  {
    hide SplitLines, HashLines, FieldText;
    var text := FieldText(fields[0]) + "\n";
    assert HasNoList(text);
    if |fields| == 1 {
      assert Texts(fields) == [FieldText(fields[0])];
      SplitAfterFeed(text, rest);
      LinesSkipped(toInt, SplitLines(text), SplitLines(rest));
    } else {
      assert Texts(fields)[1..] == Texts(fields[1..]);
      var more := Join(Texts(fields[1..]), "\n") + "\n" + rest;
      assert Join(Texts(fields), "\n") + "\n" + rest == text + more;
      SplitAfterFeed(text, more);
      LinesSkipped(toInt, SplitLines(text), SplitLines(more));
      HeaderSkipped(toInt, fields[1..], rest);
    }
  }

  /** A field on one line is no list. */
  lemma LineIsSkipped(f: Field)
    requires |f.name| > 1 && f.name[1] != 'H' && IsLine(f.name) && IsLine(f.value)
    ensures HasNoList(FieldText(f) + "\n")
  {
    var text := FieldText(f);
    LinesJoin(f.name, ": ");
    LinesJoin(f.name + ": ", f.value);
    FirstLine(text, "");
    assert text + "\n" + "" == text + "\n" && SplitLines("") == [];
    assert text[1] == f.name[1] && SHA256_FIELD[1] == 'H';
  }

  lemma ListStarts(toInt: string -> Option<int>, rest: seq<string>)
    ensures HashLines(toInt, [SHA256_FIELD] + rest, false, map[]) == HashLines(toInt, rest, true, map[])
  {
    assert ([SHA256_FIELD] + rest)[1..] == rest;
  }

  lemma ListLinesAre(list: seq<Listed>)
    requires forall i :: 0 <= i < |list| ==> IsLine(list[i].path) && IsVisible(list[i].sha)
    ensures var lines := [SHA256_FIELD] + ListedLines(list);
            forall i :: 0 <= i < |lines| ==> IsLine(lines[i]) && lines[i] != ""
  {
    hide ListedLine;
    forall i | 0 <= i < |list| ensures IsLine(ListedLines(list)[i]) && ListedLines(list)[i] != "" {
      ListedLineStands(list[i]);
    }
  }

  /** Only the list of a Release file is read. */
  lemma ReleaseReadsList(toInt: string -> Option<int>, h: Header, list: seq<Listed>)
    requires IsHeader(h) && forall i :: 0 <= i < |list| ==> IsLine(list[i].path) && IsVisible(list[i].sha)
    ensures ReleaseHashes(toInt, ReleaseText(h, list)) == HashLines(toInt, ListedLines(list), true, map[])
  {
    hide HeaderFields, IsLine, HashLines, Join, SplitLines, ListedLines, AreSkipped;
    ListLinesAre(list);
    var tail := [SHA256_FIELD] + ListedLines(list);
    var rest := Join(tail, "\n") + "\n";
    SplitJoined(tail);
    HasFields(h);
    JoinSplits(Texts(HeaderFields(h)), tail, "\n");
    assert ReleaseText(h, list) == Join(Texts(HeaderFields(h)), "\n") + "\n" + rest;
    HeaderSkipped(toInt, HeaderFields(h), rest);
    ListStarts(toInt, ListedLines(list));
  }

  lemma HasFields(h: Header)
    ensures HeaderFields(h) != [] && Texts(HeaderFields(h)) != []
  {
  }

  /** The hashes read from a Release file are the ones that were listed. */
  lemma ReleaseReadsBack(toInt: string -> Option<int>, h: Header, list: seq<Listed>)
    requires ReadsNumbers(toInt) && IsHeader(h) && forall i :: 0 <= i < |list| ==> IsListed(list[i])
    ensures ReleaseHashes(toInt, ReleaseText(h, list)) == Some(HashesOf(list))
  {
    hide IsHeader, HashLines, ListedLines;
    forall i | 0 <= i < |list| ensures IsLine(list[i].path) { VisibleLine(list[i].path); }
    ReleaseReadsList(toInt, h, list);
    assert ListedLines(list)[0..] == ListedLines(list) && list[..0] == [];
    ListedLinesRead(toInt, list, 0);
  }

  // ------------------------------------------------------------- words of a listed line

  /** The last of the words of s, when there is one. */
  function Last(words: seq<string>): string {
    if words == [] then "" else words[|words| - 1]
  }

  lemma LastGrown(c: char, rest: seq<string>)
    requires rest != [] && Last(rest) != ""
    ensures var grown := Last([[c] + rest[0]] + rest[1..]); grown != "" && grown[|grown| - 1] == Last(rest)[|Last(rest)| - 1]
    ensures Last([[c]] + rest) == Last(rest)
  {
  }

  lemma WordsCases(s: string)
    requires |s| > 1 && Words(s[1..]) != []
    ensures var rest := Words(s[1..]);
            Words(s) == rest || Words(s) == [[s[0]] + rest[0]] + rest[1..] || Words(s) == [[s[0]]] + rest
  {
  }

  /** A line that ends in a visible character ends in its last word. */
  lemma {:induction false} LastWord(s: string)
    requires s != "" && !IsSpace(s[|s| - 1])
    ensures Words(s) != [] && Last(Words(s)) != "" && Last(Words(s))[|Last(Words(s))| - 1] == s[|s| - 1]
  {
    if |s| > 1 {
      hide Words, Last;
      LastWord(s[1..]);
      WordsCases(s);
      LastGrown(s[0], Words(s[1..]));
    } else {
      assert s[1..] == "";
    }
  }

  lemma {:induction false} WordsAreVisible(s: string)
    ensures forall i :: 0 <= i < |Words(s)| ==> IsVisible(Words(s)[i]) && Words(s)[i] != ""
  {
    if s != "" { WordsAreVisible(s[1..]); }
  }

  /** Every path read from a list stands last in some line of it. */
  lemma {:induction false} PathIsLastWord(toInt: string -> Option<int>, lines: seq<string>, found: Hashes, path: string)
    returns (i: nat)
    requires forall k :: 0 <= k < |lines| ==> " " <= lines[k] && !(SHA256_FIELD <= lines[k])
    requires HashLines(toInt, lines, true, found).Some? && path in HashLines(toInt, lines, true, found).value && path !in found
    ensures i < |lines| && |Words(lines[i])| == 3 && Words(lines[i])[2] == path
  {
    var words := Words(lines[0]);
    if words[2] == path {
      i := 0;
    } else {
      var now := found[words[2] := (words[0], toInt(words[1]).value)];
      var k := PathIsLastWord(toInt, lines[1..], now, path);
      i := k + 1;
    }
  }
}
