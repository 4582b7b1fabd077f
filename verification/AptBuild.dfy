/** Building an apt tree: the pool, an index for each architecture, and the Release file. */
module AptBuild {
  import opened Octets
  import opened Options
  import opened Strings
  import opened Deb822
  import opened DebStanza
  import opened AptIndex
  import opened AptRelease
  import opened AptVerify

  /** The laws of what comes from outside. */
  ghost predicate ValidEnv(env: Env) {
    && (forall b :: env.sha256(b) != "" && IsVisible(env.sha256(b)))
    && (forall s :: env.decode(env.encode(s)) == Some(s))
    && (forall b :: env.gunzip(env.gzip(b)) == Some(b))
    && ReadsNumbers(env.toInt)
  }

  // ------------------------------------------------------------- where a package goes

  const DEB_ARCHES := {"amd64", "arm64", "all"}

  predicate IsNameChar(c: char) {
    'a' <= c <= 'z' || '0' <= c <= '9' || c == '+' || c == '.' || c == '-'
  }

  predicate IsPackageName(s: string) {
    |s| > 1 && ('a' <= s[0] <= 'z' || '0' <= s[0] <= '9') && forall i :: 0 <= i < |s| ==> IsNameChar(s[i])
  }

  predicate IsUpstream(s: string) {
    s != "" && forall i :: 0 <= i < |s| ==> IsAlnum(s[i]) || s[i] == '.' || s[i] == '+' || s[i] == '~' || s[i] == '-'
  }

  /** version.split(":", 1)[-1]. */
  function Upstream(version: string): string {
    var n := Colon(version);
    if n == |version| then version else version[n + 1..]
  }

  function PoolFile(component: string, name: string, upstream: string, arch: string): string {
    var prefix := if "lib" <= name then if |name| > 4 then name[..4] else name else if name == "" then "" else name[..1];
    "pool/" + component + "/" + prefix + "/" + name + "/" + name + "_" + upstream + "_" + arch + ".deb"
  }

  function PoolPath(fields: seq<Field>, component: string): Option<string> {
    var name, version, arch := Value(fields, "Package"), Value(fields, "Version"), Value(fields, "Architecture");
    if name.None? || version.None? || arch.None? || name.value == "" || version.value == "" || arch.value == "" then None
    else if !IsPackageName(name.value) || arch.value !in DEB_ARCHES || !IsUpstream(Upstream(version.value)) then None
    else Some(PoolFile(component, name.value, Upstream(version.value), arch.value))
  }

  /** What the build knows of one package. */
  datatype Record = Record(fields: seq<Field>, path: string, arch: string, deb: Bytes)

  function RecordOf(env: Env, component: string, deb: Bytes): Option<Record> {
    if env.control(deb).None? then None
    else
      var fields := ParseText(env.control(deb).value);
      if fields.None? || PoolPath(fields.value, component).None? then None
      else Some(Record(fields.value, PoolPath(fields.value, component).value, Value(fields.value, "Architecture").value, deb))
  }

  ghost predicate IsRecord(env: Env, component: string, r: Record) {
    RecordOf(env, component, r.deb) == Some(r)
  }

  function StanzaOf(env: Env, r: Record): string {
    Stanza(r.fields, r.path, |r.deb|, env.sha256(r.deb))
  }

  function BodyOf(env: Env, r: Record): string {
    Body(Arranged(r.fields, r.path, |r.deb|, env.sha256(r.deb)))
  }

  predicate StartsPool(path: string) {
    "pool/" <= path
  }

  lemma VisibleJoins(a: string, b: string)
    requires IsVisible(a) && IsVisible(b)
    ensures IsVisible(a + b)
  {
  }

  lemma NamesAreVisible(name: string, upstream: string)
    requires IsPackageName(name) && IsUpstream(upstream)
    ensures IsVisible(name) && IsVisible(upstream)
  {
  }

  /** A record's place is made of a package name, a version and an architecture. */
  lemma RecordParts(env: Env, component: string, r: Record) returns (name: string, upstream: string)
    requires IsRecord(env, component, r)
    ensures IsPackageName(name) && IsUpstream(upstream) && r.arch in DEB_ARCHES
    ensures r.path == PoolFile(component, name, upstream, r.arch)
  {
    hide ParseText, Value, PoolFile, IsPackageName, IsUpstream, Upstream;
    name, upstream := Value(r.fields, "Package").value, Upstream(Value(r.fields, "Version").value);
  }

  lemma InPool(component: string, name: string, upstream: string, arch: string)
    ensures StartsPool(PoolFile(component, name, upstream, arch))
  {
    var path := PoolFile(component, name, upstream, arch);
    assert path[..5] == "pool/";
  }

  lemma RecordPlace(env: Env, component: string, r: Record)
    requires IsRecord(env, component, r)
    ensures StartsPool(r.path) && IsVisible(r.arch) && r.arch != ""
  {
    hide IsRecord, PoolFile, IsPackageName, IsUpstream;
    var name, upstream := RecordParts(env, component, r);
    InPool(component, name, upstream, r.arch);
  }

  lemma RecordPath(env: Env, component: string, r: Record)
    requires IsRecord(env, component, r) && IsVisible(component)
    ensures IsVisible(r.path)
  {
    hide IsRecord, IsVisible;
    var name, upstream := RecordParts(env, component, r);
    hide IsPackageName, IsUpstream;
    RecordPlace(env, component, r);
    NamesAreVisible(name, upstream);
    PrefixVisible(name, 1);
    PrefixVisible(name, 4);
    var prefix := if "lib" <= name then if |name| > 4 then name[..4] else name else if name == "" then "" else name[..1];
    PathIsVisible(component, prefix, name, upstream, r.arch);
  }

  lemma PrefixVisible(s: string, n: nat)
    requires IsVisible(s)
    ensures n <= |s| ==> IsVisible(s[..n])
    ensures IsVisible("")
  {
  }

  lemma PathIsVisible(component: string, prefix: string, name: string, upstream: string, arch: string)
    requires IsVisible(component) && IsVisible(prefix) && IsVisible(name) && IsVisible(upstream) && IsVisible(arch)
    ensures var path := "pool/" + component + "/" + prefix + "/" + name + "/" + name + "_" + upstream + "_" + arch + ".deb";
            IsVisible(path)
  {
    hide IsVisible;
    PathMarks();
    var p0 := "pool/" + component;
    var p1 := p0 + "/" + prefix;
    var p2 := p1 + "/" + name;
    var p3 := p2 + "/" + name;
    var p4 := p3 + "_" + upstream;
    var p5 := p4 + "_" + arch;
    VisibleJoins("pool/", component);
    SeparatedVisible(p0, "/", prefix);
    SeparatedVisible(p1, "/", name);
    SeparatedVisible(p2, "/", name);
    SeparatedVisible(p3, "_", upstream);
    SeparatedVisible(p4, "_", arch);
    VisibleJoins(p5, ".deb");
  }

  lemma PathMarks()
    ensures IsVisible("pool/") && IsVisible("/") && IsVisible("_") && IsVisible(".deb")
  {
  }

  lemma SeparatedVisible(a: string, sep: string, b: string)
    requires IsVisible(a) && IsVisible(sep) && IsVisible(b)
    ensures IsVisible(a + sep + b)
  {
    hide IsVisible;
    VisibleJoins(a, sep);
    VisibleJoins(a + sep, b);
  }

  // ------------------------------------------------------------- the stanza of a record holds

  lemma RecordBody(env: Env, component: string, r: Record)
    requires ValidEnv(env) && IsRecord(env, component, r) && IsVisible(component)
    ensures var a := Arranged(r.fields, r.path, |r.deb|, env.sha256(r.deb));
            && ParseText(BodyOf(env, r)) == Some(a) && ParseText(BodyOf(env, r) + "\n") == Some(a)
            && IsTight(BodyOf(env, r)) && StanzaOf(env, r) == BodyOf(env, r) + "\n"
            && !IsBlank(BodyOf(env, r)) && !IsBlank(BodyOf(env, r) + "\n")
  {
    hide IsField, Kept, Value, PoolPath;
    RecordPath(env, component, r);
    VisibleIsPlain(r.path);
    VisibleIsPlain(env.sha256(r.deb));
    ParsedAreFields(env.control(r.deb).value);
    var a := Arranged(r.fields, r.path, |r.deb|, env.sha256(r.deb));
    StanzaReadsBack(r.fields, r.path, |r.deb|, env.sha256(r.deb));
    ArrangedAreFields(r.fields, r.path, |r.deb|, env.sha256(r.deb));
    BodyIsTight(a);
    ParsedIsNotBlank(BodyOf(env, r), a);
    ParsedIsNotBlank(BodyOf(env, r) + "\n", a);
  }

  /** A text with fields in it is not blank. */
  lemma ParsedIsNotBlank(text: string, fields: seq<Field>)
    requires ParseText(text) == Some(fields) && fields != []
    ensures !IsBlank(text)
  {
    if IsBlank(text) {
      BlankHasNothing(text);
      BlankLinesSkipped(SplitLines(text));
    }
  }

  lemma {:induction false} AllSpaceIfTrimmed(s: string)
    requires IsBlank(s)
    ensures forall i :: 0 <= i < |s| ==> IsSpace(s[i])
  {
    forall i | 0 <= i < |s| ensures IsSpace(s[i]) {
      if !IsSpace(s[i]) { VisibleIsNotBlank(s, i); }
    }
  }

  lemma {:induction false} SpacesAreBlank(s: string)
    requires forall i :: 0 <= i < |s| ==> IsSpace(s[i])
    ensures IsBlank(s)
  {
    if s != "" { SpacesAreBlank(s[1..]); }
  }

  lemma BlankHasNothing(text: string)
    requires IsBlank(text)
    ensures forall i :: 0 <= i < |SplitLines(text)| ==> IsBlank(SplitLines(text)[i])
  {
    AllSpaceIfTrimmed(text);
    SpacesSplit(text);
    forall i | 0 <= i < |SplitLines(text)| ensures IsBlank(SplitLines(text)[i]) {
      SpacesAreBlank(SplitLines(text)[i]);
    }
  }

  lemma {:induction false} SpacesSplit(text: string)
    requires forall i :: 0 <= i < |text| ==> IsSpace(text[i])
    ensures forall i, j :: 0 <= i < |SplitLines(text)| && 0 <= j < |SplitLines(text)[i]| ==> IsSpace(SplitLines(text)[i][j])
    decreases |text|
  {
    if text != "" {
      SpacesSplit(text[1..]);
      if |text| > 1 { SpacesSplit(text[2..]); }
    }
  }

  lemma {:induction false} BlankLinesSkipped(lines: seq<string>)
    requires forall i :: 0 <= i < |lines| ==> IsBlank(lines[i])
    ensures ParseLines(lines, []) == Some([])
  {
    if lines != [] { BlankLinesSkipped(lines[1..]); }
  }

  /** A stanza of the index holds wherever its package is in the tree. */
  lemma RecordStanzaOk(env: Env, component: string, tree: Tree, r: Record, piece: string)
    requires ValidEnv(env) && IsRecord(env, component, r) && IsVisible(component)
    requires r.path in tree && tree[r.path] == r.deb
    requires piece == BodyOf(env, r) || piece == BodyOf(env, r) + "\n"
    ensures StanzaOk(env, tree, piece) && !IsBlank(piece)
  {
    hide Arranged, PoolPath, IsVisible, Body, Value, ParseText, IsTight, IsBlank;
    RecordBody(env, component, r);
    ArrangedValues(r.fields, r.path, |r.deb|, env.sha256(r.deb));
    PieceStrips(BodyOf(env, r), piece);
    assert env.toInt(Decimal(|r.deb|)) == Some(|r.deb|);
  }
}
