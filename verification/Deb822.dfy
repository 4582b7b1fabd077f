/** Control paragraphs (section 5.1 of the Debian Policy Manual): reading, printing, and the index
    entry made from one. */
module Deb822 {
  import opened Options
  import opened Strings

  // ------------------------------------------------------------- fields

  /** A field: its name, and its value with the continuation lines as they stand. */
  datatype Field = Field(name: string, value: string)

  predicate IsBlank(line: string) {
    Trim(line, IsSpace) == ""
  }

  predicate IsContinuation(line: string) {
    line != "" && (line[0] == ' ' || line[0] == '\t')
  }

  predicate IsAlnum(c: char) {
    'A' <= c <= 'Z' || 'a' <= c <= 'z' || '0' <= c <= '9'
  }

  predicate IsFieldName(name: string) {
    name != "" && IsAlnum(name[0]) && forall i :: 0 <= i < |name| ==> IsAlnum(name[i]) || name[i] == '-'
  }

  /** Where the first ':' is; the length when there is none. */
  function Colon(line: string): (n: nat)
    ensures n <= |line|
  {
    if line == "" || line[0] == ':' then 0 else 1 + Colon(line[1..])
  }

  /** The field a line starts, if it is one. */
  function FieldOf(line: string): Option<Field> {
    var n := Colon(line);
    if n == |line| || !IsFieldName(line[..n]) then None
    else Some(Field(line[..n], Trim(line[n + 1..], IsSpace)))
  }

  function Extended(fields: seq<Field>, line: string): seq<Field>
    requires fields != []
  {
    var last := fields[|fields| - 1];
    fields[..|fields| - 1] + [last.(value := last.value + "\n" + line)]
  }

  /** The first paragraph, read line by line onto the fields so far; None for the errors. */
  function ParseLines(lines: seq<string>, fields: seq<Field>): Option<seq<Field>> {
    if lines == [] then Some(fields)
    else
      var line, rest := lines[0], lines[1..];
      if IsBlank(line) then if fields != [] then Some(fields) else ParseLines(rest, fields)
      else if IsContinuation(line) then if fields == [] then None else ParseLines(rest, Extended(fields, line))
      else if FieldOf(line).None? then None
      else ParseLines(rest, fields + [FieldOf(line).value])
  }

  function ParseText(text: string): Option<seq<Field>> {
    ParseLines(SplitLines(text), [])
  }

  method ParseControl(text: string) returns (r: Option<seq<Field>>)
    ensures r == ParseText(text)
    ensures r.Some? ==> forall i :: 0 <= i < |r.value| ==> IsField(r.value[i])
  {
    ParsedAreFields(text);
    var lines, fields := SplitLines(text), [];
    assert lines[0..] == lines;
    for i := 0 to |lines|
      invariant ParseLines(lines[i..], fields) == ParseText(text)
    {
      var line := lines[i];
      assert lines[i..][0] == line && lines[i..][1..] == lines[i + 1..];
      if IsBlank(line) {
        if fields != [] {
          return Some(fields);
        }
      } else if IsContinuation(line) {
        if fields == [] {
          return None;
        }
        fields := Extended(fields, line);
      } else {
        var field := FieldOf(line);
        if field.None? {
          return None;
        }
        fields := fields + [field.value];
      }
    }
    assert lines[|lines|..] == [];
    r := Some(fields);
  }

  // ------------------------------------------------------------- what a parsed field looks like

  predicate IsStripped(s: string) {
    Trim(s, IsSpace) == s
  }

  predicate IsMore(line: string) {
    IsLine(line) && IsContinuation(line) && !IsBlank(line)
  }

  /** A legal name, and a value whose first line is stripped and whose other lines continue it. */
  ghost predicate IsField(f: Field) {
    var lines := SplitFeeds(f.value);
    && IsFieldName(f.name) && IsLine(lines[0]) && IsStripped(lines[0])
    && forall i :: 1 <= i < |lines| ==> IsMore(lines[i])
  }

  ghost predicate AreFields(fields: seq<Field>) {
    forall i :: 0 <= i < |fields| ==> IsField(fields[i])
  }

  lemma {:induction false} TrimIdempotent(s: string)
    ensures IsStripped(Trim(s, IsSpace))
  {
    TrimRightEnds(TrimLeft(s, IsSpace));
    TrimLeftStarts(s);
    var left := TrimLeft(s, IsSpace);
    TrimRightPrefix(left);
    var t := TrimRight(left, IsSpace);
    assert t != "" ==> t[0] == left[0];
  }

  lemma {:induction false} TrimLeftStarts(s: string)
    ensures var t := TrimLeft(s, IsSpace); t != "" ==> !IsSpace(t[0])
  {
    if s != "" { TrimLeftStarts(s[1..]); }
  }

  lemma {:induction false} TrimRightEnds(s: string)
    ensures var t := TrimRight(s, IsSpace); t != "" ==> !IsSpace(t[|t| - 1])
  {
    if s != "" { TrimRightEnds(s[..|s| - 1]); }
  }

  lemma {:induction false} TrimRightPrefix(s: string)
    ensures TrimRight(s, IsSpace) <= s
  {
    if s != "" { TrimRightPrefix(s[..|s| - 1]); }
  }

  lemma TrimIsLine(s: string)
    requires IsLine(s)
    ensures IsLine(Trim(s, IsSpace))
  {
    TrimKeeps(s, IsSpace);
    var left := TrimLeft(s, IsSpace);
    TrimKeeps(left, IsSpace);
    var t := TrimRight(left, IsSpace);
    forall i | 0 <= i < |t| ensures !IsBreak(t[i]) {
      assert t[i] in left && t[i] in s;
    }
  }

  lemma FieldOfIsField(line: string)
    requires IsLine(line) && FieldOf(line).Some?
    ensures IsField(FieldOf(line).value)
  {
    var rest := line[Colon(line) + 1..];
    assert IsLine(rest);
    TrimIsLine(rest);
    TrimIdempotent(rest);
    FeedsOfLine(Trim(rest, IsSpace));
  }

  lemma ExtendedAreFields(fields: seq<Field>, line: string)
    requires fields != [] && AreFields(fields) && IsMore(line)
    ensures AreFields(Extended(fields, line))
  {
    var last := fields[|fields| - 1];
    assert IsField(last);
    FeedsExtended(last.value, line);
  }

  lemma {:induction false} ParsedLinesAreFields(lines: seq<string>, fields: seq<Field>)
    requires AreFields(fields) && forall i :: 0 <= i < |lines| ==> IsLine(lines[i])
    ensures ParseLines(lines, fields).Some? ==> AreFields(ParseLines(lines, fields).value)
  {
    if lines != [] {
      hide IsField;
      var line := lines[0];
      if !IsBlank(line) && IsContinuation(line) && fields != [] {
        ExtendedAreFields(fields, line);
        ParsedLinesAreFields(lines[1..], Extended(fields, line));
      } else if !IsBlank(line) && !IsContinuation(line) && FieldOf(line).Some? {
        FieldOfIsField(line);
        ParsedLinesAreFields(lines[1..], fields + [FieldOf(line).value]);
      } else if IsBlank(line) && fields == [] {
        ParsedLinesAreFields(lines[1..], fields);
      }
    }
  }

  lemma ParsedAreFields(text: string)
    ensures ParseText(text).Some? ==> AreFields(ParseText(text).value)
  {
    SplitLinesAreLines(text);
    ParsedLinesAreFields(SplitLines(text), []);
  }

  // ------------------------------------------------------------- which paragraphs are read, and as what

  /** A name of letters, digits and dashes that does not start with a dash. */
  predicate IsName(name: string) {
    && name != "" && name[0] != '-'
    && forall c :: c in name ==> 'a' <= c <= 'z' || 'A' <= c <= 'Z' || '0' <= c <= '9' || c == '-'
  }

  /** Such a name and a colon start the line. */
  ghost predicate StartsField(line: string) {
    exists n :: 0 < n < |line| && line[n] == ':' && IsName(line[..n])
  }

  predicate IsFolded(line: string) {
    line != "" && line[0] in {' ', '\t'}
  }

  lemma {:induction false} ColonIsFirst(name: string, rest: string)
    requires ':' !in name
    ensures Colon(name + ":" + rest) == |name|
  {
    if name != "" {
      var line := name + ":" + rest;
      assert line[0] == name[0] && line[1..] == name[1..] + ":" + rest;
      ColonIsFirst(name[1..], rest);
    }
  }

  lemma {:induction false} ColonIsThere(line: string)
    ensures Colon(line) < |line| ==> line[Colon(line)] == ':'
  {
    if line != "" && line[0] != ':' { ColonIsThere(line[1..]); }
  }

  lemma NameIs(name: string)
    ensures IsName(name) <==> IsFieldName(name)
  {
    if IsName(name) {
      assert forall i :: 0 <= i < |name| ==> name[i] in name;
    }
  }

  /** The line of a field reads as its name and the rest without the white space around it. */
  lemma FieldLine(name: string, rest: string)
    requires IsName(name)
    ensures FieldOf(name + ":" + rest) == Some(Field(name, Trim(rest, IsSpace)))
  {
    var line := name + ":" + rest;
    NameIs(name);
    assert ':' !in name;
    ColonIsFirst(name, rest);
    assert line[..|name|] == name && line[|name| + 1..] == rest;
  }

  lemma FieldOfIff(line: string)
    ensures FieldOf(line).Some? <==> StartsField(line)
  {
    ColonIsThere(line);
    NameIs(line[..Colon(line)]);
    if StartsField(line) {
      var n :| 0 < n < |line| && line[n] == ':' && IsName(line[..n]);
      assert line == line[..n] + ":" + line[n + 1..];
      FieldLine(line[..n], line[n + 1..]);
    }
  }

  /** Empty lines before a paragraph and everything after the empty line that ends it are passed
      over. */
  lemma {:induction false} OnlyFirstParagraph(before: seq<string>, lines: seq<string>, after: seq<string>)
    requires forall i :: 0 <= i < |before| ==> IsBlank(before[i])
    requires lines != [] && forall i :: 0 <= i < |lines| ==> !IsBlank(lines[i])
    requires after == [] || IsBlank(after[0])
    ensures ParseLines(before + lines + after, []) == ParseLines(lines, [])
  {
    hide IsBlank;
    if before == [] {
      assert before + lines + after == lines + after;
      EndsAtBlank(lines, [], after);
    } else {
      var all := before + lines + after;
      assert all[0] == before[0] && all[1..] == before[1..] + lines + after;
      OnlyFirstParagraph(before[1..], lines, after);
    }
  }

  lemma ExtendedLength(fields: seq<Field>, line: string)
    requires fields != []
    ensures |Extended(fields, line)| == |fields|
  {
  }

  lemma {:induction false} EndsAtBlank(lines: seq<string>, fields: seq<Field>, after: seq<string>)
    requires forall i :: 0 <= i < |lines| ==> !IsBlank(lines[i])
    requires after == [] || (IsBlank(after[0]) && (lines != [] || fields != []))
    ensures ParseLines(lines + after, fields) == ParseLines(lines, fields)
    decreases |lines|
  {
    hide IsBlank, IsContinuation, FieldOf, Extended;
    if lines == [] {
      assert lines + after == after;
    } else {
      var line, rest := lines[0], lines[1..];
      assert (lines + after)[0] == line && (lines + after)[1..] == rest + after;
      if IsContinuation(line) {
        if fields != [] {
          assert Extended(fields, line) != [] by { ExtendedLength(fields, line); }
          EndsAtBlank(rest, Extended(fields, line), after);
        }
      } else if FieldOf(line).Some? {
        EndsAtBlank(rest, fields + [FieldOf(line).value], after);
      }
    }
  }

  lemma {:induction false} ParsedLast(lines: seq<string>, fields: seq<Field>, line: string)
    requires !IsBlank(line) && forall i :: 0 <= i < |lines| ==> !IsBlank(lines[i])
    ensures var front := ParseLines(lines, fields);
            ParseLines(lines + [line], fields) == if front.None? then None else ParseLines([line], front.value)
    decreases |lines|
  {
    hide IsBlank, IsContinuation, FieldOf, Extended;
    if lines == [] {
      assert lines + [line] == [line];
    } else {
      var first, rest := lines[0], lines[1..];
      assert (lines + [line])[0] == first && (lines + [line])[1..] == rest + [line];
      if IsContinuation(first) {
        if fields != [] { ParsedLast(rest, Extended(fields, first), line); }
      } else if FieldOf(first).Some? {
        ParsedLast(rest, fields + [FieldOf(first).value], line);
      }
    }
  }

  /** One more line of a paragraph: one that starts with a space or a tab is folded onto the last
      field as it stands, any other has to start a field. */
  lemma ParagraphStep(lines: seq<string>, line: string)
    requires !IsBlank(line) && forall i :: 0 <= i < |lines| ==> !IsBlank(lines[i])
    ensures var front, all := ParseLines(lines, []), ParseLines(lines + [line], []);
            && (all.Some? <==> front.Some? && if IsFolded(line) then front.value != [] else StartsField(line))
            && (all.Some? && IsFolded(line) ==>
                  front.Some? && front.value != [] &&
                  var n := |front.value| - 1; var last := front.value[n];
                  all.value == front.value[..n] + [Field(last.name, last.value + "\n" + line)])
            && (all.Some? && !IsFolded(line) ==> front.Some? && FieldOf(line).Some? && all.value == front.value + [FieldOf(line).value])
  {
    ParsedLast(lines, [], line);
    FieldOfIff(line);
    var front := ParseLines(lines, []);
    hide IsBlank, StartsField;
    if front.Some? {
      assert [line][1..] == [];
      assert IsFolded(line) <==> IsContinuation(line);
    }
  }
}
