/** Printing control paragraphs, the stanza of a Packages index, and an index of stanzas. */
module DebStanza {
  import opened Options
  import opened Strings
  import opened Deb822

  function FieldText(f: Field): string {
    f.name + ": " + f.value
  }

  function Texts(fields: seq<Field>): seq<string> {
    seq(|fields|, i requires 0 <= i < |fields| => FieldText(fields[i]))
  }

  /** A paragraph without its last line feed. */
  function Body(fields: seq<Field>): string {
    Join(Texts(fields), "\n")
  }

  function FieldLines(f: Field): seq<string> {
    var lines := SplitFeeds(f.value);
    [f.name + ": " + lines[0]] + lines[1..]
  }

  function AllLines(fields: seq<Field>): seq<string> {
    if fields == [] then [] else FieldLines(fields[0]) + AllLines(fields[1..])
  }

  // ------------------------------------------------------------- reading back what was printed

  lemma {:induction false} FeedsJoin(s: string)
    ensures Join(SplitFeeds(s), "\n") == s
  {
    if s != "" {
      FeedsJoin(s[1..]);
      var rest := SplitFeeds(s[1..]);
      if s[0] == '\n' {
        assert ([""] + rest)[1..] == rest;
        assert s == "\n" + s[1..];
      } else {
        JoinHead([s[0]], rest);
      }
    }
  }

  /** Text put before the first of the parts. */
  lemma JoinHead(head: string, parts: seq<string>)
    requires parts != []
    ensures Join([head + parts[0]] + parts[1..], "\n") == head + Join(parts, "\n")
  {
    if |parts| > 1 {
      var all := [head + parts[0]] + parts[1..];
      assert all[1..] == parts[1..];
      assert head + (parts[0] + "\n" + Join(parts[1..], "\n")) == (head + parts[0]) + "\n" + Join(parts[1..], "\n");
    }
  }

  lemma FieldTextLines(f: Field)
    ensures FieldText(f) == Join(FieldLines(f), "\n")
  {
    FeedsJoin(f.value);
    JoinHead(f.name + ": ", SplitFeeds(f.value));
  }

  predicate IsNameLine(line: string) {
    IsLine(line) && !IsBlank(line) && !IsContinuation(line)
  }

  lemma {:induction false} ColonAfter(name: string, rest: string)
    requires ':' !in name
    ensures Colon(name + ":" + rest) == |name|
  {
    if name != "" {
      assert (name + ":" + rest)[1..] == name[1..] + ":" + rest;
      ColonAfter(name[1..], rest);
    }
  }

  lemma FieldNameIsPlain(name: string)
    requires IsFieldName(name)
    ensures ':' !in name && IsLine(name)
  {
  }

  lemma {:induction false} VisibleIsNotBlank(s: string, i: nat)
    requires i < |s| && !IsSpace(s[i])
    ensures !IsBlank(s)
  {
    var k := TrimLeftKeepsVisible(s, i);
    TrimRightKeepsVisible(TrimLeft(s, IsSpace), k);
  }

  lemma {:induction false} TrimLeftKeepsVisible(s: string, i: nat) returns (k: nat)
    requires i < |s| && !IsSpace(s[i])
    ensures k < |TrimLeft(s, IsSpace)| && !IsSpace(TrimLeft(s, IsSpace)[k])
  {
    if IsSpace(s[0]) {
      k := TrimLeftKeepsVisible(s[1..], i - 1);
    } else {
      k := i;
    }
  }

  lemma {:induction false} TrimRightKeepsVisible(s: string, i: nat)
    requires i < |s| && !IsSpace(s[i])
    ensures TrimRight(s, IsSpace) != ""
  {
    if IsSpace(s[|s| - 1]) {
      TrimRightKeepsVisible(s[..|s| - 1], i);
    }
  }

  lemma TrimSpaceBefore(s: string)
    requires IsStripped(s)
    ensures Trim(" " + s, IsSpace) == s
  {
    assert (" " + s)[1..] == s;
    assert TrimLeft(" " + s, IsSpace) == TrimLeft(s, IsSpace);
  }

  /** The line a field starts with reads as that field's name and first line. */
  lemma NameLineReads(name: string, first: string)
    requires IsFieldName(name) && IsLine(first) && IsStripped(first)
    ensures var line := name + ": " + first;
            IsNameLine(line) && FieldOf(line) == Some(Field(name, first))
  {
    var line := name + ": " + first;
    FieldNameIsPlain(name);
    assert line == name + ":" + (" " + first);
    ColonAfter(name, " " + first);
    assert line[..|name|] == name && line[|name| + 1..] == " " + first;
    TrimSpaceBefore(first);
    assert line[0] == name[0] && !IsSpace(name[0]);
    VisibleIsNotBlank(line, 0);
    LinesJoin(name, ": ");
    LinesJoin(name + ": ", first);
    hide IsLine, IsStripped, Trim, Colon, IsBlank, IsSpace;
  }

  /** Continuation lines go onto the last field. */
  lemma {:induction false} MoreLinesRead(more: seq<string>, rest: seq<string>, fields: seq<Field>, name: string, value: string)
    requires forall i :: 0 <= i < |more| ==> IsMore(more[i])
    ensures ParseLines(more + rest, fields + [Field(name, value)])
         == ParseLines(rest, fields + [Field(name, Join([value] + more, "\n"))])
  {
    if more == [] {
      assert more + rest == rest;
    } else {
      var line := more[0];
      assert (more + rest)[0] == line && (more + rest)[1..] == more[1..] + rest;
      assert Extended(fields + [Field(name, value)], line) == fields + [Field(name, value + "\n" + line)];
      MoreLinesRead(more[1..], rest, fields, name, value + "\n" + line);
      JoinTwo(value, line, more[1..]);
      assert [value] + more == [value, line] + more[1..];
    }
  }

  lemma JoinTwo(a: string, b: string, more: seq<string>)
    ensures Join([a + "\n" + b] + more, "\n") == Join([a, b] + more, "\n")
  {
    assert ([a, b] + more)[1..] == [b] + more;
    if more != [] {
      assert ([b] + more)[1..] == more && ([a + "\n" + b] + more)[1..] == more;
      var rest := Join(more, "\n");
      assert a + "\n" + (b + "\n" + rest) == (a + "\n" + b) + "\n" + rest;
    }
  }

  lemma FieldLinesRead(f: Field, rest: seq<string>, fields: seq<Field>)
    requires IsField(f)
    ensures ParseLines(FieldLines(f) + rest, fields) == ParseLines(rest, fields + [f])
  {
    hide ParseLines, FieldOf, IsLine, IsMore, IsBlank, IsContinuation;
    var lines := SplitFeeds(f.value);
    NameLineReads(f.name, lines[0]);
    var line := f.name + ": " + lines[0];
    assert FieldLines(f) + rest == [line] + (lines[1..] + rest);
    NameLineStep(line, lines[1..] + rest, fields, Field(f.name, lines[0]));
    MoreLinesRead(lines[1..], rest, fields, f.name, lines[0]);
    assert [lines[0]] + lines[1..] == lines;
    FeedsJoin(f.value);
  }

  lemma NameLineStep(line: string, rest: seq<string>, fields: seq<Field>, f: Field)
    requires IsNameLine(line) && FieldOf(line) == Some(f)
    ensures ParseLines([line] + rest, fields) == ParseLines(rest, fields + [f])
  {
    assert ([line] + rest)[1..] == rest;
  }

  lemma NoLinesRead(before: seq<Field>)
    ensures ParseLines(AllLines([]), before) == Some(before)
  {
  }

  lemma Regrouped(before: seq<Field>, fields: seq<Field>)
    requires fields != []
    ensures (before + [fields[0]]) + fields[1..] == before + fields
  {
  }

  lemma {:induction false} AllLinesRead(fields: seq<Field>, before: seq<Field>)
    requires AreFields(fields)
    ensures ParseLines(AllLines(fields), before) == Some(before + fields)
  {
    hide ParseLines, IsField, FieldLines;
    if fields == [] {
      NoLinesRead(before);
      assert before + [] == before;
    } else {
      FieldLinesRead(fields[0], AllLines(fields[1..]), before);
      AllLinesRead(fields[1..], before + [fields[0]]);
      Regrouped(before, fields);
    }
  }

  lemma FieldLinesAreLines(f: Field)
    requires IsField(f)
    ensures forall i :: 0 <= i < |FieldLines(f)| ==> IsLine(FieldLines(f)[i]) && FieldLines(f)[i] != ""
  {
    var lines := SplitFeeds(f.value);
    NameLineReads(f.name, lines[0]);
  }

  lemma {:induction false} BodyLines(fields: seq<Field>)
    requires AreFields(fields)
    ensures forall i :: 0 <= i < |AllLines(fields)| ==> IsLine(AllLines(fields)[i]) && AllLines(fields)[i] != ""
    ensures Body(fields) == Join(AllLines(fields), "\n")
    ensures fields != [] ==> AllLines(fields) != []
  {
    if fields != [] {
      var rest := fields[1..];
      BodyLines(rest);
      FieldLinesAreLines(fields[0]);
      FieldTextLines(fields[0]);
      assert Texts(fields) == [FieldText(fields[0])] + Texts(rest);
      if rest == [] {
        assert FieldLines(fields[0]) + [] == FieldLines(fields[0]);
        assert Texts(fields) == [FieldText(fields[0])];
      } else {
        assert Texts(fields)[1..] == Texts(rest);
        JoinSplits(FieldLines(fields[0]), AllLines(rest), "\n");
      }
    }
  }

  /** A printed paragraph is read back as it was, with or without its last line feed. */
  lemma PrintedReadsBack(fields: seq<Field>)
    requires AreFields(fields) && fields != []
    ensures ParseText(Body(fields)) == Some(fields)
    ensures ParseText(Body(fields) + "\n") == Some(fields)
  {
    BodyLines(fields);
    SplitJoined(AllLines(fields));
    AllLinesRead(fields, []);
    assert [] + fields == fields;
  }
}
