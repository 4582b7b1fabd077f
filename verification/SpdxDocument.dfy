/** SPDX 2.3 documents, and the validator: identifiers, licences, files and verification codes. */
module SpdxDocument {
  import opened Options
  import opened Finite
  import opened Strings
  import Text
  import E = SpdxExpression
  import opened SpdxNaming
  import opened SpdxIds

  datatype Checksum = Checksum(algorithm: string, value: string)

  datatype PackageEntry = PackageEntry(id: string, name: string, declared: string, filesAnalyzed: bool, code: Option<string>)

  datatype FileEntry = FileEntry(id: string, fileName: string, checksums: seq<Checksum>)

  datatype Relation = Relation(from: string, kind: string, to: string)

  datatype Document = Document(
    extracted: seq<string>,
    packages: seq<PackageEntry>,
    files: seq<FileEntry>,
    relations: seq<Relation>)

  /** The validator's tables and the hash of section 7.9. A length of None allows any. */
  datatype Rules = Rules(
    licenses: set<string>,
    exceptions: set<string>,
    hexLength: map<string, Option<nat>>,
    relationTypes: set<string>,
    sha1: string -> string)

  datatype Problem =
    | BadRef(ref: string) | RefTwice(ref: string)
    | NoPackages | BadId(id: string) | DuplicateId(id: string) | NoName(id: string)
    | BadLicense(id: string, found: seq<E.Problem>) | NoCode(id: string)
    | BadFileName(id: string) | NoChecksums(id: string) | BadChecksum(id: string, c: Checksum) | NoSha1(id: string)
    | BadRelation(r: Relation) | UnknownElement(element: string) | NothingDescribed
    | UnexpectedFiles(id: string) | CannotRecompute(id: string) | WrongCode(id: string)

  const DOCUMENT_ID := "SPDXRef-DOCUMENT"

  // ------------------------------------------------------------- what a valid document is

  /** The identifiers are new, also among themselves. */
  ghost predicate Fresh(before: set<string>, ids: seq<string>) {
    forall j :: 0 <= j < |ids| ==> ids[j] !in before && ids[j] !in ids[..j]
  }

  function PackageIds(packages: seq<PackageEntry>): seq<string> {
    seq(|packages|, i requires 0 <= i < |packages| => packages[i].id)
  }

  function FileIds(files: seq<FileEntry>): seq<string> {
    seq(|files|, i requires 0 <= i < |files| => files[i].id)
  }

  ghost predicate RefsOk(extracted: seq<string>) {
    Distinct(extracted) && forall i :: 0 <= i < |extracted| ==> IsRef(extracted[i])
  }

  predicate PackageOk(names: E.Names, p: PackageEntry) {
    && IsSpdxId(p.id) && p.name != "" && E.ProblemsOf(names, p.declared) == []
    && (p.filesAnalyzed ==> p.code.Some? && p.code.value != "")
  }

  predicate IsHex(s: string) {
    s != "" && forall i :: 0 <= i < |s| ==> '0' <= s[i] <= '9' || 'a' <= s[i] <= 'f'
  }

  predicate ChecksumOk(rules: Rules, c: Checksum) {
    && c.algorithm in rules.hexLength && IsHex(c.value)
    && var length := rules.hexLength[c.algorithm]; length.Some? ==> |c.value| == length.value
  }

  /** The value of the last well-formed SHA1 checksum. */
  function Sha1Of(rules: Rules, checksums: seq<Checksum>): Option<string> {
    if checksums == [] then None
    else
      var c := checksums[|checksums| - 1];
      if ChecksumOk(rules, c) && c.algorithm == "SHA1" then Some(c.value)
      else Sha1Of(rules, checksums[..|checksums| - 1])
  }

  predicate ChecksumsOk(rules: Rules, checksums: seq<Checksum>) {
    && checksums != [] && Sha1Of(rules, checksums).Some?
    && forall i :: 0 <= i < |checksums| ==> ChecksumOk(rules, checksums[i])
  }

  predicate FileOk(rules: Rules, f: FileEntry) {
    IsSpdxId(f.id) && "./" <= f.fileName && ChecksumsOk(rules, f.checksums)
  }

  ghost function KnownIds(doc: Document): set<string> {
    {DOCUMENT_ID} + Elements(PackageIds(doc.packages)) + Elements(FileIds(doc.files))
  }

  predicate EndOk(known: set<string>, e: string) {
    e in known || e == "NONE" || e == "NOASSERTION"
  }

  predicate RelationOk(rules: Rules, known: set<string>, r: Relation) {
    r.kind in rules.relationTypes && EndOk(known, r.from) && EndOk(known, r.to)
  }

  predicate Describes(r: Relation) {
    r.from == DOCUMENT_ID && r.kind == "DESCRIBES"
  }

  /** The files a package contains, in the order of the relationships. */
  function Contained(relations: seq<Relation>, fileIds: set<string>, id: string): seq<string> {
    if relations == [] then []
    else
      var r, before := relations[|relations| - 1], Contained(relations[..|relations| - 1], fileIds, id);
      if r.from == id && r.kind == "CONTAINS" && r.to in fileIds then before + [r.to] else before
  }

  function Sha1s(rules: Rules, files: seq<FileEntry>): map<string, Option<string>> {
    if files == [] then map[]
    else
      var f := files[|files| - 1];
      Sha1s(rules, files[..|files| - 1])[f.id := Sha1Of(rules, f.checksums)]
  }

  function Concat(parts: seq<string>): string {
    if parts == [] then "" else parts[0] + Concat(parts[1..])
  }

  /** Section 7.9: the hash of the sorted hashes of the files. */
  function VerificationCode(rules: Rules, hashes: seq<string>): string {
    rules.sha1(Concat(Text.Sorted(hashes, Text.Same)))
  }

  /** The order of the files does not matter to the code. */
  lemma CodeIgnoresOrder(rules: Rules, hashes: seq<string>, other: seq<string>)
    requires multiset(hashes) == multiset(other)
    ensures VerificationCode(rules, hashes) == VerificationCode(rules, other)
  {
    Text.OneOrder(Text.Sorted(hashes, Text.Same), Text.Sorted(other, Text.Same));
  }

  /** Hashes in ascending order are hashed one after the other. */
  lemma CodeOfAscending(rules: Rules, hashes: seq<string>)
    requires forall i, j :: 0 <= i < j < |hashes| ==> Text.AtMost(hashes[i], hashes[j])
    ensures VerificationCode(rules, hashes) == rules.sha1(Join(hashes, ""))
  {
    Text.OneOrder(Text.Sorted(hashes, Text.Same), hashes);
    ConcatIsJoin(hashes);
  }

  lemma {:induction false} ConcatIsJoin(parts: seq<string>)
    ensures Concat(parts) == Join(parts, "")
  {
    if |parts| == 1 {
      assert parts[1..] == [];
    } else if |parts| > 1 {
      ConcatIsJoin(parts[1..]);
    }
  }

  /** The hash of each id; None where one has none. */
  function Hashes(sha1s: map<string, Option<string>>, ids: seq<string>): Option<seq<string>> {
    if ids == [] then Some([])
    else
      var rest := Hashes(sha1s, ids[1..]);
      if ids[0] in sha1s && sha1s[ids[0]].Some? && rest.Some? then Some([sha1s[ids[0]].value] + rest.value) else None
  }

  /** A package contains files exactly if it says so, and its code is theirs. */
  ghost predicate ContentOk(rules: Rules, sha1s: map<string, Option<string>>, p: PackageEntry, mine: seq<string>) {
    && (!p.filesAnalyzed ==> mine == [])
    && (p.filesAnalyzed && p.code.Some? && p.code.value != "" ==>
          && mine != [] && Hashes(sha1s, mine).Some?
          && p.code.value == VerificationCode(rules, Hashes(sha1s, mine).value))
  }

  function NamesIn(rules: Rules, doc: Document): E.Names {
    E.Names(rules.licenses, rules.exceptions, Elements(doc.extracted))
  }

  ghost predicate ValidDocument(rules: Rules, doc: Document) {
    var packageIds, fileIds := PackageIds(doc.packages), FileIds(doc.files);
    && RefsOk(doc.extracted)
    && doc.packages != []
    && Fresh({DOCUMENT_ID}, packageIds) && Fresh({DOCUMENT_ID} + Elements(packageIds), fileIds)
    && (forall i :: 0 <= i < |doc.packages| ==> PackageOk(NamesIn(rules, doc), doc.packages[i]))
    && (forall i :: 0 <= i < |doc.files| ==> FileOk(rules, doc.files[i]))
    && (forall i :: 0 <= i < |doc.relations| ==> RelationOk(rules, KnownIds(doc), doc.relations[i]))
    && (exists i :: 0 <= i < |doc.relations| && Describes(doc.relations[i]))
    && (forall i :: 0 <= i < |doc.packages| ==>
          ContentOk(rules, Sha1s(rules, doc.files), doc.packages[i],
                    Contained(doc.relations, Elements(fileIds), doc.packages[i].id)))
  }

  // ------------------------------------------------------------- the validator

  method CheckExtracted(extracted: seq<string>) returns (problems: seq<Problem>, refs: set<string>)
    ensures problems == [] <==> RefsOk(extracted)
    ensures refs == Elements(extracted)
  {
    problems, refs := [], {};
    for i := 0 to |extracted|
      invariant refs == Elements(extracted[..i])
      invariant problems == [] <==> RefsOk(extracted[..i])
    {
      var ref := extracted[i];
      RefsExtend(extracted, i);
      if !IsRef(ref) {
        problems := problems + [BadRef(ref)];
      } else if ref in refs {
        problems := problems + [RefTwice(ref)];
      }
      refs := refs + {ref};
    }
    assert extracted[..|extracted|] == extracted;
  }

  lemma RefsExtend(extracted: seq<string>, i: nat)
    requires i < |extracted|
    ensures RefsOk(extracted[..i + 1]) <==>
            RefsOk(extracted[..i]) && IsRef(extracted[i]) && extracted[i] !in Elements(extracted[..i])
    ensures Elements(extracted[..i + 1]) == Elements(extracted[..i]) + {extracted[i]}
  {
    var a, b := extracted[..i], extracted[..i + 1];
    assert b == a + [extracted[i]];
    assert forall k :: 0 <= k < i ==> b[k] == a[k];
    assert b[i] == extracted[i];
    assert extracted[i] in a ==> exists k :: 0 <= k < i && b[k] == b[i];
  }

  lemma NoIdsFresh(before: set<string>)
    ensures Fresh(before, [])
  {
  }

  /** One more identifier. */
  lemma FreshExtend(before: set<string>, ids: seq<string>, i: nat)
    requires i < |ids|
    ensures Fresh(before, ids[..i + 1]) <==> Fresh(before, ids[..i]) && ids[i] !in before + Elements(ids[..i])
    ensures Elements(ids[..i + 1]) == Elements(ids[..i]) + {ids[i]}
  {
    var a, b := ids[..i], ids[..i + 1];
    assert b == a + [ids[i]];
    assert forall k :: 0 <= k <= i ==> b[..k] == ids[..k] && b[k] == ids[k];
    assert forall k :: 0 <= k < i ==> a[..k] == ids[..k] && a[k] == ids[k];
  }

  method CheckPackages(names: E.Names, packages: seq<PackageEntry>) returns (problems: seq<Problem>, ids: set<string>)
    ensures problems == [] <==>
            && packages != [] && Fresh({DOCUMENT_ID}, PackageIds(packages))
            && forall i :: 0 <= i < |packages| ==> PackageOk(names, packages[i])
    ensures ids == {DOCUMENT_ID} + Elements(PackageIds(packages))
  {
    hide Fresh, PackageOk;
    problems, ids := [], {DOCUMENT_ID};
    NoIdsFresh({DOCUMENT_ID});
    if packages == [] {
      problems := [NoPackages];
    }
    var all := PackageIds(packages);
    for i := 0 to |packages|
      invariant ids == {DOCUMENT_ID} + Elements(all[..i])
      invariant problems == [] <==>
                && packages != [] && Fresh({DOCUMENT_ID}, all[..i])
                && forall k :: 0 <= k < i ==> PackageOk(names, packages[k])
    {
      var p := packages[i];
      FreshExtend({DOCUMENT_ID}, all, i);
      var found := CheckPackage(names, ids, p);
      problems := problems + found;
      ids := ids + {p.id};
    }
    assert all[..|all|] == all;
  }

  method CheckPackage(names: E.Names, ids: set<string>, p: PackageEntry) returns (problems: seq<Problem>)
    ensures problems == [] <==> PackageOk(names, p) && p.id !in ids
  {
    problems := [];
    if !IsSpdxId(p.id) {
      problems := [BadId(p.id)];
    } else if p.id in ids {
      problems := [DuplicateId(p.id)];
    }
    if p.name == "" {
      problems := problems + [NoName(p.id)];
    }
    var found := E.CheckExpression(names, p.declared);
    if found != [] {
      problems := problems + [BadLicense(p.id, found)];
    }
    if p.filesAnalyzed && (p.code.None? || p.code.value == "") {
      problems := problems + [NoCode(p.id)];
    }
  }

  method CheckFiles(rules: Rules, ids: set<string>, files: seq<FileEntry>)
    returns (problems: seq<Problem>, fileIds: set<string>, sha1s: map<string, Option<string>>)
    ensures problems == [] <==>
            && Fresh(ids, FileIds(files)) && forall i :: 0 <= i < |files| ==> FileOk(rules, files[i])
    ensures fileIds == Elements(FileIds(files)) && sha1s == Sha1s(rules, files)
  {
    hide Fresh, FileOk, Sha1Of;
    problems, fileIds, sha1s := [], {}, map[];
    NoIdsFresh(ids);
    var all := FileIds(files);
    for i := 0 to |files|
      invariant fileIds == Elements(all[..i]) && sha1s == Sha1s(rules, files[..i])
      invariant problems == [] <==>
                && Fresh(ids, all[..i]) && forall k :: 0 <= k < i ==> FileOk(rules, files[k])
    {
      var f := files[i];
      FreshExtend(ids, all, i);
      assert files[..i + 1][..i] == files[..i];
      var found, sha1 := CheckFile(rules, ids + fileIds, f);
      problems := problems + found;
      fileIds := fileIds + {f.id};
      sha1s := sha1s[f.id := sha1];
    }
    assert all[..|all|] == all && files[..|files|] == files;
  }

  method CheckFile(rules: Rules, ids: set<string>, f: FileEntry) returns (problems: seq<Problem>, sha1: Option<string>)
    ensures problems == [] <==> FileOk(rules, f) && f.id !in ids
    ensures sha1 == Sha1Of(rules, f.checksums)
  {
    problems, sha1 := [], None;
    if !IsSpdxId(f.id) {
      problems := [BadId(f.id)];
    } else if f.id in ids {
      problems := [DuplicateId(f.id)];
    }
    if !("./" <= f.fileName) {
      problems := problems + [BadFileName(f.id)];
    }
    if f.checksums == [] {
      problems := problems + [NoChecksums(f.id)];
      return;
    }
    ghost var fine := problems == [];
    for i := 0 to |f.checksums|
      invariant sha1 == Sha1Of(rules, f.checksums[..i])
      invariant problems == [] <==> fine && forall k :: 0 <= k < i ==> ChecksumOk(rules, f.checksums[k])
    {
      var c := f.checksums[i];
      assert f.checksums[..i + 1][..i] == f.checksums[..i];
      if !ChecksumOk(rules, c) {
        problems := problems + [BadChecksum(f.id, c)];
      } else if c.algorithm == "SHA1" {
        sha1 := Some(c.value);
      }
    }
    assert f.checksums[..|f.checksums|] == f.checksums;
    if sha1.None? {
      problems := problems + [NoSha1(f.id)];
    }
  }

  method CheckRelations(rules: Rules, known: set<string>, fileIds: set<string>, relations: seq<Relation>)
    returns (problems: seq<Problem>, contains: map<string, seq<string>>)
    ensures problems == [] <==>
            && (forall i :: 0 <= i < |relations| ==> RelationOk(rules, known, relations[i]))
            && (exists i :: 0 <= i < |relations| && Describes(relations[i]))
    ensures forall id :: ContainedBy(contains, id) == Contained(relations, fileIds, id)
  {
    hide EndOk, Contained, Describes, ContainsRight, ContainedBy;
    problems, contains := [], map[];
    NothingContained(fileIds);
    var describes := 0;
    for i := 0 to |relations|
      invariant problems == [] <==> forall k :: 0 <= k < i ==> RelationOk(rules, known, relations[k])
      invariant describes >= 0 && (describes > 0 <==> exists k :: 0 <= k < i && Describes(relations[k]))
      invariant ContainsRight(contains, relations[..i], fileIds)
    {
      var r := relations[i];
      ContainsMore(contains, relations, fileIds, i);
      if r.kind !in rules.relationTypes {
        problems := problems + [BadRelation(r)];
      }
      if !EndOk(known, r.from) {
        problems := problems + [UnknownElement(r.from)];
      }
      if !EndOk(known, r.to) {
        problems := problems + [UnknownElement(r.to)];
      }
      if Describes(r) {
        describes := describes + 1;
      }
      if r.kind == "CONTAINS" && r.to in fileIds {
        contains := contains[r.from := ContainedBy(contains, r.from) + [r.to]];
      }
    }
    assert relations[..|relations|] == relations;
    if describes == 0 {
      problems := problems + [NothingDescribed];
    }
    ContainsAll(contains, relations, fileIds);
  }

  /** The map gives what each element contains. */
  ghost predicate ContainsRight(contains: map<string, seq<string>>, relations: seq<Relation>, fileIds: set<string>) {
    forall id :: ContainedBy(contains, id) == Contained(relations, fileIds, id)
  }

  lemma NothingContained(fileIds: set<string>)
    ensures ContainsRight(map[], [], fileIds)
  {
  }

  lemma ContainsAll(contains: map<string, seq<string>>, relations: seq<Relation>, fileIds: set<string>)
    requires ContainsRight(contains, relations, fileIds)
    ensures forall id :: ContainedBy(contains, id) == Contained(relations, fileIds, id)
  {
  }

  lemma ContainsMore(contains: map<string, seq<string>>, relations: seq<Relation>, fileIds: set<string>, i: nat)
    requires i < |relations| && ContainsRight(contains, relations[..i], fileIds)
    ensures var r := relations[i];
            var more := if r.kind == "CONTAINS" && r.to in fileIds then contains[r.from := ContainedBy(contains, r.from) + [r.to]] else contains;
            ContainsRight(more, relations[..i + 1], fileIds)
  {
    hide Contained;
    ContainedStep(relations, fileIds, i);
  }

  lemma ContainedStep(relations: seq<Relation>, fileIds: set<string>, i: nat)
    requires i < |relations|
    ensures forall id {:trigger Contained(relations[..i + 1], fileIds, id)} ::
              Contained(relations[..i + 1], fileIds, id) ==
              var r, before := relations[i], Contained(relations[..i], fileIds, id);
              if r.from == id && r.kind == "CONTAINS" && r.to in fileIds then before + [r.to] else before
  {
    assert relations[..i + 1][..i] == relations[..i];
  }

  function ContainedBy(contains: map<string, seq<string>>, id: string): seq<string> {
    if id in contains then contains[id] else []
  }

  method CheckContents(rules: Rules, sha1s: map<string, Option<string>>, contains: map<string, seq<string>>, packages: seq<PackageEntry>)
    returns (problems: seq<Problem>)
    ensures problems == [] <==> forall i :: 0 <= i < |packages| ==>
              ContentOk(rules, sha1s, packages[i], ContainedBy(contains, packages[i].id))
  {
    problems := [];
    for i := 0 to |packages|
      invariant problems == [] <==> forall k :: 0 <= k < i ==>
                  ContentOk(rules, sha1s, packages[k], ContainedBy(contains, packages[k].id))
    {
      var p := packages[i];
      var mine := ContainedBy(contains, p.id);
      if !p.filesAnalyzed && mine != [] {
        problems := problems + [UnexpectedFiles(p.id)];
      }
      if p.filesAnalyzed && p.code.Some? && p.code.value != "" {
        var hashes := Hashes(sha1s, mine);
        if hashes.None? || hashes.value == [] {
          problems := problems + [CannotRecompute(p.id)];
        } else if p.code.value != VerificationCode(rules, hashes.value) {
          problems := problems + [WrongCode(p.id)];
        }
      }
    }
  }

  /** The validator finds nothing exactly in valid documents. */
  method Validate(rules: Rules, doc: Document) returns (problems: seq<Problem>)
    ensures problems == [] <==> ValidDocument(rules, doc)
  {
    var inRefs, refs := CheckExtracted(doc.extracted);
    var names := E.Names(rules.licenses, rules.exceptions, refs);
    var inPackages, ids := CheckPackages(names, doc.packages);
    var inFiles, fileIds, sha1s := CheckFiles(rules, ids, doc.files);
    var inRelations, contains := CheckRelations(rules, ids + fileIds, fileIds, doc.relations);
    var inContents := CheckContents(rules, sha1s, contains, doc.packages);
    problems := inRefs + inPackages + inFiles + inRelations + inContents;
  }
}
