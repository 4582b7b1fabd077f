/** Verifying an apt tree: from each Release file down to the packages its indexes list. */
module AptVerify {
  import opened Octets
  import opened Options
  import opened Finite
  import Text
  import opened Strings
  import opened Deb822
  import opened AptIndex
  import opened AptRelease

  /** What the checks use from outside: the hash, the encodings, the compression, a package's
      control file, and reading a number. */
  datatype Env = Env(
    sha256: Bytes -> string,
    encode: string -> Bytes,
    decode: Bytes -> Option<string>,
    gzip: Bytes -> Bytes,
    gunzip: Bytes -> Option<Bytes>,
    control: Bytes -> Option<string>,
    toInt: string -> Option<int>)

  /** The files below apt/, by path. */
  type Tree = map<string, Bytes>

  const DISTS := "dists/"

  /** s up to its first slash. */
  function Segment(s: string): (first: string)
    ensures first <= s
  {
    if s == "" || s[0] == '/' then "" else [s[0]] + Segment(s[1..])
  }

  /** The names below dists. */
  function Suites(tree: Tree): set<string> {
    set p | p in tree && DISTS < p :: Segment(p[|DISTS|..])
  }

  /** A relative path as it is kept: no segment is empty, "." or "..". */
  predicate IsNormal(path: string)
    decreases |path|
  {
    var first := Segment(path);
    && first != "" && first != "." && first != ".."
    && (|first| < |path| ==> IsNormal(path[|first| + 1..]))
  }

  function DistPath(suite: string, path: string): string {
    DISTS + suite + "/" + path
  }

  const PACKAGES := "/Packages"

  predicate EndsWith(s: string, suffix: string) {
    |suffix| <= |s| && s[|s| - |suffix|..] == suffix
  }

  // ------------------------------------------------------------- what is accepted

  /** The package a stanza names is there, is what the stanza says, and its own control file gives
      that stanza. */
  predicate StanzaOk(env: Env, tree: Tree, stanza: string) {
    var fields := ParseText(stanza);
    fields.Some? &&
    var filename, size, sha := Value(fields.value, "Filename"), Value(fields.value, "Size"), Value(fields.value, "SHA256");
    && filename.Some? && size.Some? && sha.Some? && filename.value in tree
    && var deb := tree[filename.value];
       && env.toInt(size.value) == Some(|deb|) && env.sha256(deb) == sha.value
       && env.control(deb).Some?
       && var own := ParseText(env.control(deb).value);
          && own.Some?
          && TrimRight(Stanza(own.value, filename.value, |deb|, sha.value), IsFeed) == Trim(stanza, IsFeed)
  }

  /** The stanzas of an index. */
  function StanzasIn(pieces: seq<string>): seq<string> {
    if pieces == [] then []
    else (if IsBlank(pieces[0]) then [] else [pieces[0]]) + StanzasIn(pieces[1..])
  }

  /** An index that decodes, equals its compressed copy, and whose stanzas all hold. */
  predicate IndexOk(env: Env, tree: Tree, path: string) {
    && path in tree && env.decode(tree[path]).Some? && path + ".gz" in tree
    && var text, copy := env.decode(tree[path]).value, env.gunzip(tree[path + ".gz"]);
       && copy.Some? && env.decode(copy.value) == Some(text)
       && forall i :: 0 <= i < |StanzasIn(SplitBlank(text))| ==> StanzaOk(env, tree, StanzasIn(SplitBlank(text))[i])
  }

  predicate ListedOk(env: Env, tree: Tree, path: string, entry: (string, int)) {
    path in tree && |tree[path]| == entry.1 && env.sha256(tree[path]) == entry.0
  }

  function HashesIn(env: Env, tree: Tree, suite: string): Option<Hashes> {
    var release := DistPath(suite, "Release");
    if release in tree && env.decode(tree[release]).Some? then ReleaseHashes(env.toInt, env.decode(tree[release]).value)
    else None
  }

  ghost predicate SuiteOk(env: Env, tree: Tree, suite: string) {
    var hashes := HashesIn(env, tree, suite);
    && hashes.Some? && hashes.value != map[]
    && (forall path :: path in hashes.value ==> ListedOk(env, tree, DistPath(suite, path), hashes.value[path]))
    && (forall path :: path in hashes.value && EndsWith(path, PACKAGES) ==> IndexOk(env, tree, DistPath(suite, path)))
  }

  ghost predicate Accepted(env: Env, tree: Tree) {
    forall suite :: suite in Suites(tree) ==> SuiteOk(env, tree, suite)
  }

  /** The packages an accepted index lists. */
  function FilesIn(stanzas: seq<string>): seq<string> {
    if stanzas == [] then []
    else
      var fields := ParseText(stanzas[|stanzas| - 1]);
      var filename := if fields.Some? then Value(fields.value, "Filename") else None;
      FilesIn(stanzas[..|stanzas| - 1]) + if filename.Some? then [filename.value] else []
  }

  // ------------------------------------------------------------- the verifier

  method VerifyStanza(env: Env, tree: Tree, stanza: string) returns (filename: Option<string>)
    ensures filename.Some? <==> StanzaOk(env, tree, stanza)
    ensures filename.Some? ==> ParseText(stanza).Some? && Value(ParseText(stanza).value, "Filename") == filename
  {
    var fields := ParseControl(stanza);
    if fields.None? {
      return None;
    }
    var name, size, sha := Value(fields.value, "Filename"), Value(fields.value, "Size"), Value(fields.value, "SHA256");
    if name.None? || name.value !in tree || size.None? || sha.None? {
      return None;
    }
    var deb := tree[name.value];
    if env.toInt(size.value) != Some(|deb|) || env.sha256(deb) != sha.value {
      return None;
    }
    if env.control(deb).None? {
      return None;
    }
    var own := ParseControl(env.control(deb).value);
    if own.None? {
      return None;
    }
    var want := PackagesStanza(own.value, name.value, |deb|, sha.value);
    if TrimRight(want, IsFeed) != Trim(stanza, IsFeed) {
      return None;
    }
    return name;
  }

  lemma NoFiles()
    ensures FilesIn([]) == []
  {
  }

  lemma OneMoreFile(stanzas: seq<string>, i: nat)
    requires i < |stanzas| && ParseText(stanzas[i]).Some? && Value(ParseText(stanzas[i]).value, "Filename").Some?
    ensures FilesIn(stanzas[..i + 1]) == FilesIn(stanzas[..i]) + [Value(ParseText(stanzas[i]).value, "Filename").value]
  {
    assert stanzas[..i + 1][..i] == stanzas[..i];
  }

  method VerifyStanzas(env: Env, tree: Tree, stanzas: seq<string>) returns (checked: Option<seq<string>>)
    ensures checked.Some? <==> forall i :: 0 <= i < |stanzas| ==> StanzaOk(env, tree, stanzas[i])
    ensures checked.Some? ==> checked.value == FilesIn(stanzas)
  {
    hide StanzaOk, FilesIn;
    var files := [];
    NoFiles();
    for i := 0 to |stanzas|
      invariant forall k :: 0 <= k < i ==> StanzaOk(env, tree, stanzas[k])
      invariant files == FilesIn(stanzas[..i])
    {
      var filename := VerifyStanza(env, tree, stanzas[i]);
      if filename.None? {
        return None;
      }
      OneMoreFile(stanzas, i);
      files := files + [filename.value];
    }
    assert stanzas[..|stanzas|] == stanzas;
    checked := Some(files);
  }

  method VerifyIndex(env: Env, tree: Tree, path: string) returns (checked: Option<seq<string>>)
    requires path in tree
    ensures checked.Some? <==> IndexOk(env, tree, path)
    ensures checked.Some? ==> checked.value == FilesAt(env, tree, path)
  {
    hide StanzaOk, StanzasIn, SplitBlank, FilesIn;
    var text := env.decode(tree[path]);
    if text.None? || path + ".gz" !in tree {
      return None;
    }
    var copy := env.gunzip(tree[path + ".gz"]);
    if copy.None? || env.decode(copy.value) != text {
      return None;
    }
    checked := VerifyStanzas(env, tree, StanzasIn(SplitBlank(text.value)));
  }

  method VerifyListed(env: Env, tree: Tree, suite: string, hashes: Hashes, paths: seq<string>) returns (ok: bool)
    requires forall path :: path in paths ==> path in hashes
    ensures ok <==> forall path :: path in paths ==> ListedOk(env, tree, DistPath(suite, path), hashes[path])
  {
    hide ListedOk, DistPath;
    for i := 0 to |paths|
      invariant forall k :: 0 <= k < i ==> ListedOk(env, tree, DistPath(suite, paths[k]), hashes[paths[k]])
    {
      if !ListedOk(env, tree, DistPath(suite, paths[i]), hashes[paths[i]]) {
        return false;
      }
    }
    ok := true;
  }

  method VerifyIndexes(env: Env, tree: Tree, suite: string, paths: seq<string>) returns (ok: bool, checked: seq<string>)
    requires forall path :: path in paths ==> DistPath(suite, path) in tree
    ensures ok <==> forall path :: path in paths && EndsWith(path, PACKAGES) ==> IndexOk(env, tree, DistPath(suite, path))
    ensures ok ==> forall f :: f in checked <==>
              exists path :: path in paths && EndsWith(path, PACKAGES) && f in FilesAt(env, tree, DistPath(suite, path))
  {
    hide IndexOk, FilesAt, DistPath, EndsWith;
    checked := [];
    for i := 0 to |paths|
      invariant forall k :: 0 <= k < i && EndsWith(paths[k], PACKAGES) ==> IndexOk(env, tree, DistPath(suite, paths[k]))
      invariant forall f :: f in checked <==>
                  exists k :: 0 <= k < i && EndsWith(paths[k], PACKAGES) && f in FilesAt(env, tree, DistPath(suite, paths[k]))
    {
      if EndsWith(paths[i], PACKAGES) {
        var files := VerifyIndex(env, tree, DistPath(suite, paths[i]));
        if files.None? {
          return false, [];
        }
        checked := checked + files.value;
      }
    }
    ok := true;
  }

  method VerifySuite(env: Env, tree: Tree, suite: string) returns (ok: bool, checked: seq<string>)
    ensures ok <==> SuiteOk(env, tree, suite)
    ensures ok ==> forall f :: f in checked <==> Reaches(env, tree, suite, f)
  {
    hide IndexOk, FilesAt, EndsWith;
    checked := [];
    var release := DistPath(suite, "Release");
    if release !in tree || env.decode(tree[release]).None? {
      return false, [];
    }
    var hashes := ReadReleaseHashes(env.toInt, env.decode(tree[release]).value);
    if hashes.None? || hashes.value == map[] {
      return false, [];
    }
    var paths := Text.SortedSet(hashes.value.Keys);
    assert forall path :: path in hashes.value <==> path in Elements(paths);
    var listed := VerifyListed(env, tree, suite, hashes.value, paths);
    if !listed {
      return false, [];
    }
    ok, checked := VerifyIndexes(env, tree, suite, paths);
  }

  function FilesAt(env: Env, tree: Tree, path: string): seq<string> {
    if path in tree && env.decode(tree[path]).Some? then FilesIn(StanzasIn(SplitBlank(env.decode(tree[path]).value)))
    else []
  }

  /** f is listed in an index of the suite's Release file. */
  ghost predicate Reaches(env: Env, tree: Tree, suite: string, f: string) {
    var hashes := HashesIn(env, tree, suite);
    hashes.Some? && exists path :: path in hashes.value && EndsWith(path, PACKAGES) && f in FilesAt(env, tree, DistPath(suite, path))
  }

  /** Accepts exactly the accepted trees, and reports every package that was checked. */
  method VerifyApt(env: Env, tree: Tree) returns (ok: bool, checked: seq<string>)
    ensures ok <==> Accepted(env, tree)
    ensures ok ==> forall f :: f in checked <==> exists suite :: suite in Suites(tree) && Reaches(env, tree, suite, f)
  {
    hide SuiteOk, Reaches;
    checked := [];
    var suites := Text.SortedSet(Suites(tree));
    assert forall suite :: suite in Suites(tree) <==> suite in Elements(suites);
    for i := 0 to |suites|
      invariant forall k :: 0 <= k < i ==> SuiteOk(env, tree, suites[k])
      invariant forall f :: f in checked <==> exists k :: 0 <= k < i && Reaches(env, tree, suites[k], f)
    {
      assert suites[i] in Elements(suites);
      var fine, files := VerifySuite(env, tree, suites[i]);
      if !fine {
        return false, [];
      }
      checked := checked + files;
    }
    ok := true;
  }

  // ------------------------------------------------------------- the hash chain

  ghost predicate CollisionFree(env: Env) {
    forall a, b :: env.sha256(a) == env.sha256(b) ==> a == b
  }

  lemma {:induction false} FileHasStanza(stanzas: seq<string>, f: string) returns (i: nat)
    requires f in FilesIn(stanzas)
    ensures i < |stanzas| && ParseText(stanzas[i]).Some? && Value(ParseText(stanzas[i]).value, "Filename") == Some(f)
  {
    var front := stanzas[..|stanzas| - 1];
    if f in FilesIn(front) {
      i := FileHasStanza(front, f);
    } else {
      i := |stanzas| - 1;
    }
  }

  /** A package listed in an accepted index is there, with the size and the hash that its stanza
      gives, and its own control file gives that stanza. */
  lemma ListedPackage(env: Env, tree: Tree, path: string, f: string)
    returns (sha: string, stanza: string)
    requires IndexOk(env, tree, path) && f in FilesAt(env, tree, path)
    ensures stanza in StanzasIn(SplitBlank(env.decode(tree[path]).value))
    ensures ParseText(stanza).Some? && Value(ParseText(stanza).value, "Filename") == Some(f)
    ensures Value(ParseText(stanza).value, "SHA256") == Some(sha)
    ensures f in tree && env.sha256(tree[f]) == sha
    ensures Value(ParseText(stanza).value, "Size").Some? && env.toInt(Value(ParseText(stanza).value, "Size").value) == Some(|tree[f]|)
    ensures env.control(tree[f]).Some? && ParseText(env.control(tree[f]).value).Some?
    ensures TrimRight(Stanza(ParseText(env.control(tree[f]).value).value, f, |tree[f]|, sha), IsFeed) == Trim(stanza, IsFeed)
  {
    var stanzas := StanzasIn(SplitBlank(env.decode(tree[path]).value));
    var i := FileHasStanza(stanzas, f);
    stanza := stanzas[i];
    assert StanzaOk(env, tree, stanza);
    sha := Value(ParseText(stanza).value, "SHA256").value;
  }

  /** Two accepted trees with the same Release file have the same indexes. */
  lemma SameIndexes(env: Env, a: Tree, b: Tree, suite: string, path: string)
    requires CollisionFree(env) && SuiteOk(env, a, suite) && SuiteOk(env, b, suite)
    requires a[DistPath(suite, "Release")] == b[DistPath(suite, "Release")]
    requires path in HashesIn(env, a, suite).value
    ensures HashesIn(env, a, suite) == HashesIn(env, b, suite)
    ensures var p := DistPath(suite, path); p in a && p in b && a[p] == b[p]
  {
    hide IndexOk;
    var p := DistPath(suite, path);
    assert ListedOk(env, a, p, HashesIn(env, a, suite).value[path]);
    assert ListedOk(env, b, p, HashesIn(env, b, suite).value[path]);
    assert env.sha256(a[p]) == env.sha256(b[p]);
  }

  /** And byte for byte the same packages. */
  lemma SamePackages(env: Env, a: Tree, b: Tree, suite: string, f: string)
    requires CollisionFree(env) && SuiteOk(env, a, suite) && SuiteOk(env, b, suite)
    requires a[DistPath(suite, "Release")] == b[DistPath(suite, "Release")]
    requires Reaches(env, a, suite, f)
    ensures Reaches(env, b, suite, f) && f in a && f in b && a[f] == b[f]
  {
    hide IndexOk, FilesAt, StanzaOk, ListedOk;
    var path :| path in HashesIn(env, a, suite).value && EndsWith(path, PACKAGES) && f in FilesAt(env, a, DistPath(suite, path));
    var p := DistPath(suite, path);
    SameIndexes(env, a, b, suite, path);
    SameListing(env, a, b, p, f);
    assert IndexOk(env, a, p) && IndexOk(env, b, p);
    SamePackage(env, a, b, p, f);
  }

  lemma SameListing(env: Env, a: Tree, b: Tree, p: string, f: string)
    requires p in a && p in b && a[p] == b[p] && f in FilesAt(env, a, p)
    ensures f in FilesAt(env, b, p)
  {
  }

  lemma SamePackage(env: Env, a: Tree, b: Tree, p: string, f: string)
    requires CollisionFree(env) && IndexOk(env, a, p) && IndexOk(env, b, p) && a[p] == b[p] && f in FilesAt(env, a, p)
    ensures f in a && f in b && a[f] == b[f]
  {
    var sha, stanza := ListedPackage(env, a, p, f);
    StanzaNames(env, b, p, stanza);
  }

  lemma StanzaNames(env: Env, tree: Tree, p: string, stanza: string)
    requires IndexOk(env, tree, p) && stanza in StanzasIn(SplitBlank(env.decode(tree[p]).value))
    ensures StanzaOk(env, tree, stanza)
  {
  }
}
