/** A Packages index: the stanza of each package, and how the index is taken apart again. */
module AptIndex {
  import opened Options
  import opened Strings
  import opened Deb822
  import opened DebStanza

  /** The fields of a control file that the index states itself. */
  const DROPPED := {"Filename", "Size", "MD5sum", "SHA1", "SHA256", "SHA512"}

  function Kept(fields: seq<Field>): seq<Field> {
    if fields == [] then []
    else
      var f, rest := fields[|fields| - 1], Kept(fields[..|fields| - 1]);
      if f.name in DROPPED || f.name == "Description" then rest else rest + [f]
  }

  /** dict(fields).get(name): the last value of a repeated field. */
  function Value(fields: seq<Field>, name: string): Option<string> {
    if fields == [] then None
    else
      var f := fields[|fields| - 1];
      if f.name == name then Some(f.value) else Value(fields[..|fields| - 1], name)
  }

  /** The fields of the stanza: the package's own, where it is and what it is, the description last. */
  function Arranged(fields: seq<Field>, filename: string, size: nat, sha: string): seq<Field> {
    var desc := Value(fields, "Description");
    Kept(fields)
    + [Field("Filename", filename), Field("Size", Decimal(size)), Field("SHA256", sha)]
    + if desc.Some? then [Field("Description", desc.value)] else []
  }

  function Stanza(fields: seq<Field>, filename: string, size: nat, sha: string): string {
    Body(Arranged(fields, filename, size, sha)) + "\n"
  }

  method PackagesStanza(fields: seq<Field>, filename: string, size: nat, sha: string) returns (text: string)
    ensures text == Stanza(fields, filename, size, sha)
  {
    var lines: seq<string>, desc: Option<string> := [], None;
    for i := 0 to |fields|
      invariant lines == Texts(Kept(fields[..i])) && desc == Value(fields[..i], "Description")
    {
      var f := fields[i];
      assert fields[..i + 1][..i] == fields[..i];
      if f.name in DROPPED {
        continue;
      }
      if f.name == "Description" {
        desc := Some(f.value);
        continue;
      }
      lines := lines + [f.name + ": " + f.value];
    }
    assert fields[..|fields|] == fields;
    lines := lines + ["Filename: " + filename, "Size: " + Decimal(size), "SHA256: " + sha];
    if desc.Some? {
      lines := lines + ["Description: " + desc.value];
    }
    assert lines == Texts(Arranged(fields, filename, size, sha)) by {
      NamedTexts(filename, Decimal(size), sha);
      if desc.Some? { assert "Description: " + desc.value == FieldText(Field("Description", desc.value)); }
    }
    text := Join(lines, "\n") + "\n";
  }

  lemma NamedTexts(filename: string, size: string, sha: string)
    ensures "Filename: " + filename == FieldText(Field("Filename", filename))
    ensures "Size: " + size == FieldText(Field("Size", size))
    ensures "SHA256: " + sha == FieldText(Field("SHA256", sha))
  {
    assert "Filename" + ": " == "Filename: " && "Size" + ": " == "Size: " && "SHA256" + ": " == "SHA256: ";
  }

  // ------------------------------------------------------------- the stanza is a paragraph

  /** One stripped line: a value that needs no continuation. */
  predicate IsPlain(s: string) {
    IsLine(s) && IsStripped(s)
  }

  lemma PlainIsField(name: string, value: string)
    requires IsFieldName(name) && IsPlain(value)
    ensures IsField(Field(name, value))
  {
    FeedsOfLine(value);
  }

  predicate IsVisible(s: string) {
    forall i :: 0 <= i < |s| ==> !IsSpace(s[i])
  }

  lemma VisibleIsPlain(s: string)
    requires IsVisible(s)
    ensures IsPlain(s)
  {
  }

  lemma {:induction false} DecimalIsVisible(n: nat)
    ensures IsVisible(Decimal(n))
  {
    if n >= 10 { DecimalIsVisible(n / 10); }
  }

  lemma {:induction false} KeptAreFields(fields: seq<Field>)
    requires AreFields(fields)
    ensures AreFields(Kept(fields))
    ensures forall i :: 0 <= i < |Kept(fields)| ==> Kept(fields)[i].name !in DROPPED && Kept(fields)[i].name != "Description"
    ensures var d := Value(fields, "Description"); d.Some? ==> IsField(Field("Description", d.value))
  {
    if fields != [] {
      var f := fields[|fields| - 1];
      assert IsField(f);
      KeptAreFields(fields[..|fields| - 1]);
    }
  }

  lemma ArrangedAreFields(fields: seq<Field>, filename: string, size: nat, sha: string)
    requires AreFields(fields) && IsPlain(filename) && IsPlain(sha)
    ensures AreFields(Arranged(fields, filename, size, sha))
  {
    hide IsField;
    KeptAreFields(fields);
    DecimalIsVisible(size);
    VisibleIsPlain(Decimal(size));
    PlainIsField("Filename", filename);
    PlainIsField("Size", Decimal(size));
    PlainIsField("SHA256", sha);
  }

  lemma ValueSkips(fields: seq<Field>, f: Field, name: string)
    ensures Value(fields + [f], name) == if f.name == name then Some(f.value) else Value(fields, name)
  {
    assert (fields + [f])[..|fields|] == fields;
  }

  lemma ArrangedValues(fields: seq<Field>, filename: string, size: nat, sha: string)
    ensures var a := Arranged(fields, filename, size, sha);
            && Value(a, "Filename") == Some(filename) && Value(a, "Size") == Some(Decimal(size))
            && Value(a, "SHA256") == Some(sha)
  {
    hide Value, Kept;
    var desc := Value(fields, "Description");
    var k := Kept(fields);
    var k1 := k + [Field("Filename", filename)];
    var k2 := k1 + [Field("Size", Decimal(size))];
    var k3 := k2 + [Field("SHA256", sha)];
    assert k + [Field("Filename", filename), Field("Size", Decimal(size)), Field("SHA256", sha)] == k3;
    forall name ensures Value(k1, name) == if name == "Filename" then Some(filename) else Value(k, name) {
      ValueSkips(k, Field("Filename", filename), name);
    }
    forall name ensures Value(k2, name) == if name == "Size" then Some(Decimal(size)) else Value(k1, name) {
      ValueSkips(k1, Field("Size", Decimal(size)), name);
    }
    forall name ensures Value(k3, name) == if name == "SHA256" then Some(sha) else Value(k2, name) {
      ValueSkips(k2, Field("SHA256", sha), name);
    }
    if desc.Some? {
      ValueSkips(k3, Field("Description", desc.value), "Filename");
      ValueSkips(k3, Field("Description", desc.value), "Size");
      ValueSkips(k3, Field("Description", desc.value), "SHA256");
    } else {
      assert k3 + [] == k3;
    }
  }

  // ------------------------------------------------------------- what a stanza keeps of a package's fields

  /** The values of a field, in order. */
  function ValuesOf(fields: seq<Field>, name: string): seq<string> {
    if fields == [] then []
    else ValuesOf(fields[..|fields| - 1], name) + if fields[|fields| - 1].name == name then [fields[|fields| - 1].value] else []
  }

  lemma {:induction false} ValuesJoin(a: seq<Field>, b: seq<Field>, name: string)
    ensures ValuesOf(a + b, name) == ValuesOf(a, name) + ValuesOf(b, name)
  {
    if b == [] {
      assert a + b == a;
    } else {
      var front, last := b[..|b| - 1], b[|b| - 1];
      assert (a + b)[..|a + b| - 1] == a + front;
      ValuesJoin(a, front, name);
    }
  }

  /** The names the index states itself, and the description, which goes last. */
  predicate IsRestated(name: string) {
    || name == "Filename" || name == "Size" || name == "MD5sum" || name == "SHA1" || name == "SHA256" || name == "SHA512"
    || name == "Description"
  }

  lemma {:induction false} KeptValues(fields: seq<Field>, name: string)
    ensures ValuesOf(Kept(fields), name) == if IsRestated(name) then [] else ValuesOf(fields, name)
  {
    if fields != [] {
      var f := fields[|fields| - 1];
      KeptValues(fields[..|fields| - 1], name);
      ValuesJoin(Kept(fields[..|fields| - 1]), [f], name);
      OneValue(f, name);
      assert f.name in DROPPED || f.name == "Description" <==> IsRestated(f.name);
    }
  }

  lemma OneValue(f: Field, name: string)
    ensures ValuesOf([f], name) == if f.name == name then [f.value] else []
  {
    assert [f][..0] == [];
  }

  /** Of a package's own fields the stanza has every value in its order, except those it states
      itself: place, size and hash once, other hashes not at all, and the last description. */
  lemma StanzaKeeps(fields: seq<Field>, filename: string, size: nat, sha: string, name: string)
    ensures ValuesOf(Arranged(fields, filename, size, sha), name)
         == if !IsRestated(name) then ValuesOf(fields, name)
            else if name == "Filename" then [filename]
            else if name == "Size" then [Decimal(size)]
            else if name == "SHA256" then [sha]
            else if name == "Description" && Value(fields, "Description").Some? then [Value(fields, "Description").value]
            else []
  {
    hide ValuesOf, Kept, Decimal;
    var desc := Value(fields, "Description");
    var stated := [Field("Filename", filename), Field("Size", Decimal(size)), Field("SHA256", sha)];
    var last := if desc.Some? then [Field("Description", desc.value)] else [];
    ValuesJoin(Kept(fields) + stated, last, name);
    ValuesJoin(Kept(fields), stated, name);
    KeptValues(fields, name);
    StatedValues(filename, Decimal(size), sha, name);
    if desc.Some? {
      OneValue(last[0], name);
    } else {
      NoValues(name);
    }
  }

  lemma NoValues(name: string)
    ensures ValuesOf([], name) == []
  {
  }

  lemma StatedValues(filename: string, size: string, sha: string, name: string)
    ensures ValuesOf([Field("Filename", filename), Field("Size", size), Field("SHA256", sha)], name)
         == if name == "Filename" then [filename] else if name == "Size" then [size] else if name == "SHA256" then [sha] else []
  {
    var a, b, c := Field("Filename", filename), Field("Size", size), Field("SHA256", sha);
    assert [a, b, c] == [a] + [b] + [c];
    ValuesJoin([a] + [b], [c], name);
    ValuesJoin([a], [b], name);
    OneValue(a, name);
    OneValue(b, name);
    OneValue(c, name);
    hide ValuesOf;
  }

  /** Its last description is the one a reader of the package's fields would see. */
  lemma {:induction false} ValueIsLast(fields: seq<Field>, name: string)
    ensures var all := ValuesOf(fields, name); Value(fields, name) == if all == [] then None else Some(all[|all| - 1])
  {
    if fields != [] { ValueIsLast(fields[..|fields| - 1], name); }
  }

  /** The stanza, with or without its last line feed, is read back as its fields. */
  lemma StanzaReadsBack(fields: seq<Field>, filename: string, size: nat, sha: string)
    requires AreFields(fields) && IsPlain(filename) && IsPlain(sha)
    ensures var a := Arranged(fields, filename, size, sha);
            ParseText(Body(a)) == Some(a) && ParseText(Stanza(fields, filename, size, sha)) == Some(a)
  {
    ArrangedAreFields(fields, filename, size, sha);
    PrintedReadsBack(Arranged(fields, filename, size, sha));
  }

  // ------------------------------------------------------------- joining and splitting

  /** No empty line: neither at the ends nor inside. */
  predicate IsTight(s: string) {
    && s != "" && s[0] != '\n' && s[|s| - 1] != '\n'
    && forall i :: 0 <= i < |s| - 1 ==> !(s[i] == '\n' && s[i + 1] == '\n')
  }

  lemma {:induction false} JoinedIsTight(lines: seq<string>)
    requires lines != [] && forall i :: 0 <= i < |lines| ==> IsLine(lines[i]) && lines[i] != ""
    ensures IsTight(Join(lines, "\n"))
  {
    if |lines| > 1 {
      JoinedIsTight(lines[1..]);
      var a, b := lines[0], Join(lines[1..], "\n");
      var s := a + "\n" + b;
      forall i | 0 <= i < |s| - 1 ensures !(s[i] == '\n' && s[i + 1] == '\n') {
        if i < |a| {
          assert s[i] == a[i];
        } else if i == |a| {
          assert s[i + 1] == b[0];
        } else {
          assert s[i] == b[i - |a| - 1] && s[i + 1] == b[i - |a|];
        }
      }
    }
  }

  lemma BodyIsTight(fields: seq<Field>)
    requires AreFields(fields) && fields != []
    ensures IsTight(Body(fields))
  {
    BodyLines(fields);
    JoinedIsTight(AllLines(fields));
  }

  /** text.split("\n\n"). */
  function SplitBlank(text: string): (pieces: seq<string>)
    ensures pieces != []
  {
    if text == "" then [""]
    else if |text| > 1 && text[0] == '\n' && text[1] == '\n' then [""] + SplitBlank(text[2..])
    else
      var rest := SplitBlank(text[1..]);
      [[text[0]] + rest[0]] + rest[1..]
  }

  /** No empty line inside or at the end. */
  predicate EndsTight(s: string) {
    && (s == "" || s[|s| - 1] != '\n')
    && forall i :: 0 <= i < |s| - 1 ==> !(s[i] == '\n' && s[i + 1] == '\n')
  }

  lemma {:induction false} FirstPiece(body: string, rest: string)
    requires EndsTight(body)
    ensures SplitBlank(body + "\n\n" + rest) == [body] + SplitBlank(rest)
  {
    var text := body + "\n\n" + rest;
    if body == "" {
      assert text[2..] == rest;
    } else {
      assert text[0] == body[0] && text[1..] == body[1..] + "\n\n" + rest;
      assert |body| > 1 ==> text[1] == body[1];
      FirstPiece(body[1..], rest);
      assert body == [body[0]] + body[1..];
    }
  }

  lemma {:induction false} LastPiece(body: string)
    requires EndsTight(body)
    ensures SplitBlank(body + "\n") == [body + "\n"]
  {
    var text := body + "\n";
    if body == "" {
      assert text[1..] == "";
      assert SplitBlank("")[1..] == [] && [text[0]] + SplitBlank("")[0] == text;
    } else {
      var rest := body[1..] + "\n";
      assert text[0] == body[0] && text[1..] == rest;
      assert |body| > 1 ==> text[1] == body[1];
      LastPiece(body[1..]);
      assert SplitBlank(rest)[1..] == [] && [text[0]] + rest == text;
    }
  }

  /** The bodies with the line feeds a split leaves: only the last keeps its own. */
  function Pieces(bodies: seq<string>): seq<string> {
    if bodies == [] then []
    else if |bodies| == 1 then [bodies[0] + "\n"]
    else [bodies[0]] + Pieces(bodies[1..])
  }

  function Ended(bodies: seq<string>): seq<string> {
    seq(|bodies|, i requires 0 <= i < |bodies| => bodies[i] + "\n")
  }

  /** Stanzas joined by an empty line and split there are the same stanzas. */
  lemma {:induction false} IndexSplits(bodies: seq<string>)
    requires bodies != [] && forall i :: 0 <= i < |bodies| ==> IsTight(bodies[i])
    ensures SplitBlank(Join(Ended(bodies), "\n")) == Pieces(bodies)
  {
    assert Ended(bodies)[0] == bodies[0] + "\n";
    if |bodies| == 1 {
      LastPiece(bodies[0]);
    } else {
      assert Ended(bodies)[1..] == Ended(bodies[1..]);
      var rest := Join(Ended(bodies[1..]), "\n");
      assert (bodies[0] + "\n") + "\n" + rest == bodies[0] + "\n\n" + rest;
      FirstPiece(bodies[0], rest);
      IndexSplits(bodies[1..]);
    }
  }

  lemma {:induction false} PiecesAre(bodies: seq<string>)
    ensures |Pieces(bodies)| == |bodies|
    ensures forall i :: 0 <= i < |bodies| ==> Pieces(bodies)[i] == bodies[i] || Pieces(bodies)[i] == bodies[i] + "\n"
  {
    if |bodies| > 1 { PiecesAre(bodies[1..]); }
  }

  predicate IsFeed(c: char) {
    c == '\n'
  }

  /** Either piece of a body is that body without the line feeds around it. */
  lemma PieceStrips(body: string, piece: string)
    requires IsTight(body) && (piece == body || piece == body + "\n")
    ensures Trim(piece, IsFeed) == body && TrimRight(body + "\n", IsFeed) == body
  {
    assert TrimLeft(piece, IsFeed) == piece by { assert piece[0] == body[0]; }
    assert (body + "\n")[..|body|] == body;
    assert TrimRight(body, IsFeed) == body;
  }
}
