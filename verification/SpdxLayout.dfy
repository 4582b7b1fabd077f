/** The document laid out from placed packages, and exactly when the validator accepts it. */
module SpdxLayout {
  import opened Options
  import opened Finite
  import E = SpdxExpression
  import opened SpdxIds
  import opened SpdxDocument

  /** A file of a package: the path it is shown under, and its digests in order, one for each
      algorithm. */
  datatype Shown = Shown(display: string, digests: seq<Checksum>)

  datatype Info = Info(key: string, name: string, licenseRaw: string, licenseOrigin: string, relation: string, files: seq<Shown>)

  /** A package with the identifiers and the licence it got; held says that the root is said to
      relate to it. */
  datatype Placed = Placed(info: Info, id: string, fileIds: seq<string>, declared: string, held: bool)

  /** The digest the generator reads; every file has one. */
  function RawSha1(digests: seq<Checksum>): string {
    if digests == [] then ""
    else if digests[0].algorithm == "SHA1" then digests[0].value
    else RawSha1(digests[1..])
  }

  ghost predicate OneOfEach(digests: seq<Checksum>) {
    && (forall i, j :: 0 <= i < j < |digests| ==> digests[i].algorithm != digests[j].algorithm)
    && exists i :: 0 <= i < |digests| && digests[i].algorithm == "SHA1"
  }

  function RawSha1s(files: seq<Shown>): seq<string> {
    seq(|files|, i requires 0 <= i < |files| => RawSha1(files[i].digests))
  }

  function Entry(rules: Rules, p: Placed): PackageEntry {
    var files := p.info.files;
    PackageEntry(p.id, p.info.name, p.declared, files != [],
                 if files != [] then Some(VerificationCode(rules, RawSha1s(files))) else None)
  }

  ghost predicate Matched(p: Placed) {
    |p.fileIds| == |p.info.files| && forall i :: 0 <= i < |p.info.files| ==> OneOfEach(p.info.files[i].digests)
  }

  function FilesOf(p: Placed): seq<FileEntry> {
    seq(|p.fileIds|, i requires 0 <= i < |p.fileIds| =>
      if i < |p.info.files| then FileEntry(p.fileIds[i], p.info.files[i].display, p.info.files[i].digests)
      else FileEntry(p.fileIds[i], "", []))
  }

  function RelationsOf(root: string, p: Placed): seq<Relation> {
    (if p.held then [Relation(root, p.info.relation, p.id)] else []) + ContainsOf(p)
  }

  function ContainsOf(p: Placed): seq<Relation> {
    seq(|p.fileIds|, i requires 0 <= i < |p.fileIds| => Relation(p.id, "CONTAINS", p.fileIds[i]))
  }

  function Entries(rules: Rules, all: seq<Placed>): seq<PackageEntry> {
    seq(|all|, i requires 0 <= i < |all| => Entry(rules, all[i]))
  }

  function Ids(all: seq<Placed>): seq<string> {
    seq(|all|, i requires 0 <= i < |all| => all[i].id)
  }

  function AllFiles(all: seq<Placed>): seq<FileEntry> {
    if all == [] then [] else AllFiles(all[..|all| - 1]) + FilesOf(all[|all| - 1])
  }

  function AllFileIds(all: seq<Placed>): seq<string> {
    if all == [] then [] else AllFileIds(all[..|all| - 1]) + all[|all| - 1].fileIds
  }

  function AllRelations(root: string, all: seq<Placed>): seq<Relation> {
    if all == [] then [] else AllRelations(root, all[..|all| - 1]) + RelationsOf(root, all[|all| - 1])
  }

  function DocumentOf(rules: Rules, all: seq<Placed>, extra: seq<Relation>, extracted: seq<string>): Document
    requires all != []
  {
    Document(extracted, Entries(rules, all), AllFiles(all),
             [Relation(DOCUMENT_ID, "DESCRIBES", all[0].id)] + AllRelations(all[0].id, all) + extra)
  }

  /** What the generator sees to: well-formed identifiers, none of a file's taken before, and
      additional relations between placed packages. */
  ghost predicate WellPlaced(all: seq<Placed>, extra: seq<Relation>, extracted: seq<string>) {
    && all != []
    && (forall i :: 0 <= i < |all| ==> Matched(all[i]) && IsSpdxId(all[i].id) && all[i].id != DOCUMENT_ID)
    && (forall x :: x in AllFileIds(all) ==> IsSpdxId(x))
    && Fresh({DOCUMENT_ID} + Elements(Ids(all)), AllFileIds(all))
    && (forall i :: 0 <= i < |extra| ==> extra[i].from in Ids(all) && extra[i].to in Ids(all))
    && RefsOk(extracted)
  }

  ghost predicate ValidRules(rules: Rules) {
    && "DESCRIBES" in rules.relationTypes && "CONTAINS" in rules.relationTypes
    && forall s :: rules.sha1(s) != ""
  }

  /** What the validator asks of one package beyond its identifiers. */
  predicate LeavesOk(rules: Rules, names: E.Names, p: Placed) {
    && p.info.name != "" && E.ProblemsOf(names, p.declared) == []
    && (p.held ==> p.info.relation in rules.relationTypes)
    && forall i :: 0 <= i < |p.info.files| ==>
         "./" <= p.info.files[i].display && ChecksumsOk(rules, p.info.files[i].digests)
  }

  // ------------------------------------------------------------- identifiers

  lemma IdsOfEntries(rules: Rules, all: seq<Placed>)
    ensures PackageIds(Entries(rules, all)) == Ids(all)
  {
  }

  lemma {:induction false} IdsOfFiles(all: seq<Placed>)
    ensures FileIds(AllFiles(all)) == AllFileIds(all)
  {
    if all != [] {
      var front, last := all[..|all| - 1], all[|all| - 1];
      IdsOfFiles(front);
      var a, b := AllFiles(front), FilesOf(last);
      assert FileIds(b) == last.fileIds;
      assert FileIds(a + b) == FileIds(a) + FileIds(b);
    }
  }

  lemma {:induction false} OwnFiles(all: seq<Placed>, i: nat)
    requires i < |all|
    ensures forall f :: f in FilesOf(all[i]) ==> f in AllFiles(all)
    ensures forall x :: x in all[i].fileIds ==> x in AllFileIds(all)
  {
    if i < |all| - 1 {
      OwnFiles(all[..|all| - 1], i);
    }
  }

  lemma {:induction false} FileComesFrom(all: seq<Placed>, f: FileEntry) returns (i: nat)
    requires f in AllFiles(all)
    ensures i < |all| && f in FilesOf(all[i])
  {
    if f in AllFiles(all[..|all| - 1]) {
      i := FileComesFrom(all[..|all| - 1], f);
    } else {
      i := |all| - 1;
    }
  }

  lemma {:induction false} RelationComesFrom(root: string, all: seq<Placed>, r: Relation) returns (i: nat)
    requires r in AllRelations(root, all)
    ensures i < |all| && r in RelationsOf(root, all[i])
  {
    if r in AllRelations(root, all[..|all| - 1]) {
      i := RelationComesFrom(root, all[..|all| - 1], r);
    } else {
      i := |all| - 1;
    }
  }

  lemma {:induction false} OwnRelations(root: string, all: seq<Placed>, i: nat)
    requires i < |all|
    ensures forall r :: r in RelationsOf(root, all[i]) ==> r in AllRelations(root, all)
  {
    if i < |all| - 1 {
      OwnRelations(root, all[..|all| - 1], i);
    }
  }

  // ------------------------------------------------------------- contents

  lemma {:induction false} ContainedJoins(a: seq<Relation>, b: seq<Relation>, fileIds: set<string>, id: string)
    ensures Contained(a + b, fileIds, id) == Contained(a, fileIds, id) + Contained(b, fileIds, id)
  {
    if b == [] {
      assert a + b == a;
    } else {
      var front := b[..|b| - 1];
      assert (a + b)[..|a + b| - 1] == a + front;
      ContainedJoins(a, front, fileIds, id);
    }
  }

  lemma {:induction false} NoneContained(a: seq<Relation>, fileIds: set<string>, id: string)
    requires forall r :: r in a ==> r.from != id || r.to !in fileIds
    ensures Contained(a, fileIds, id) == []
  {
    if a != [] {
      NoneContained(a[..|a| - 1], fileIds, id);
    }
  }

  lemma {:induction false} AllContained(p: Placed, fileIds: set<string>, n: nat)
    requires n <= |p.fileIds| && forall x :: x in p.fileIds ==> x in fileIds
    ensures Contained(ContainsOf(p)[..n], fileIds, p.id) == p.fileIds[..n]
  {
    if n > 0 {
      assert ContainsOf(p)[..n][..n - 1] == ContainsOf(p)[..n - 1];
      AllContained(p, fileIds, n - 1);
    }
  }

  lemma OwnContained(root: string, p: Placed, fileIds: set<string>)
    requires p.id !in fileIds && forall x :: x in p.fileIds ==> x in fileIds
    ensures Contained(RelationsOf(root, p), fileIds, p.id) == p.fileIds
  {
    var head := if p.held then [Relation(root, p.info.relation, p.id)] else [];
    ContainedJoins(head, ContainsOf(p), fileIds, p.id);
    NoneContained(head, fileIds, p.id);
    AllContained(p, fileIds, |p.fileIds|);
    assert ContainsOf(p)[..|p.fileIds|] == ContainsOf(p);
  }

  lemma OthersContained(root: string, p: Placed, fileIds: set<string>, id: string)
    requires p.id !in fileIds && p.id != id
    ensures Contained(RelationsOf(root, p), fileIds, id) == []
  {
    NoneContained(RelationsOf(root, p), fileIds, id);
  }

  ghost predicate DifferentIds(all: seq<Placed>) {
    forall k, l :: 0 <= k < l < |all| ==> all[k].id != all[l].id
  }

  /** Among packages with different identifiers, each contains exactly its own files. */
  lemma {:induction false} EachContains(root: string, all: seq<Placed>, fileIds: set<string>, i: nat)
    requires i < |all| && DifferentIds(all)
    requires forall k :: 0 <= k < |all| ==> all[k].id !in fileIds
    requires forall x :: x in all[i].fileIds ==> x in fileIds
    ensures Contained(AllRelations(root, all), fileIds, all[i].id) == all[i].fileIds
    decreases |all|
  {
    var front, last := all[..|all| - 1], all[|all| - 1];
    ContainedJoins(AllRelations(root, front), RelationsOf(root, last), fileIds, all[i].id);
    if i < |all| - 1 {
      EachContains(root, front, fileIds, i);
      OthersContained(root, last, fileIds, all[i].id);
    } else {
      BeforeContains(root, front, fileIds, last.id);
      OwnContained(root, last, fileIds);
    }
  }

  lemma {:induction false} BeforeContains(root: string, all: seq<Placed>, fileIds: set<string>, id: string)
    requires forall k :: 0 <= k < |all| ==> all[k].id !in fileIds && all[k].id != id
    ensures Contained(AllRelations(root, all), fileIds, id) == []
  {
    if all != [] {
      var front, last := all[..|all| - 1], all[|all| - 1];
      BeforeContains(root, front, fileIds, id);
      ContainedJoins(AllRelations(root, front), RelationsOf(root, last), fileIds, id);
      OthersContained(root, last, fileIds, id);
    }
  }

  // ------------------------------------------------------------- hashes

  lemma {:induction false} Sha1sHold(rules: Rules, before: set<string>, files: seq<FileEntry>, f: FileEntry)
    requires Fresh(before, FileIds(files)) && f in files
    ensures f.id in Sha1s(rules, files) && Sha1s(rules, files)[f.id] == Sha1Of(rules, f.checksums)
  {
    var front, last := files[..|files| - 1], files[|files| - 1];
    var ids := FileIds(files);
    assert FileIds(front) == ids[..|ids| - 1];
    FreshExtend(before, ids, |ids| - 1);
    assert ids[..|ids|] == ids;
    if f != last {
      assert f in front;
      Sha1sHold(rules, before, front, f);
      var k :| 0 <= k < |front| && front[k] == f;
      assert FileIds(front)[k] == f.id;
    }
  }

  lemma {:induction false} HashesAre(sha1s: map<string, Option<string>>, ids: seq<string>, hashes: seq<string>)
    requires |ids| == |hashes|
    requires forall i :: 0 <= i < |ids| ==> ids[i] in sha1s && sha1s[ids[i]] == Some(hashes[i])
    ensures Hashes(sha1s, ids) == Some(hashes)
  {
    if ids != [] {
      HashesAre(sha1s, ids[1..], hashes[1..]);
      assert hashes == [hashes[0]] + hashes[1..];
    } else {
      assert hashes == [];
    }
  }

  /** The validator and the generator read the same SHA1 digest. */
  lemma {:induction false} SameSha1(rules: Rules, digests: seq<Checksum>, i: nat)
    requires forall k, l :: 0 <= k < l < |digests| ==> digests[k].algorithm != digests[l].algorithm
    requires i < |digests| && digests[i].algorithm == "SHA1" && ChecksumOk(rules, digests[i])
    ensures Sha1Of(rules, digests) == Some(digests[i].value) && RawSha1(digests) == digests[i].value
  {
    RawSha1At(digests, i);
    if i < |digests| - 1 {
      SameSha1(rules, digests[..|digests| - 1], i);
    }
  }

  lemma {:induction false} RawSha1At(digests: seq<Checksum>, i: nat)
    requires forall k, l :: 0 <= k < l < |digests| ==> digests[k].algorithm != digests[l].algorithm
    requires i < |digests| && digests[i].algorithm == "SHA1"
    ensures RawSha1(digests) == digests[i].value
  {
    if i > 0 {
      RawSha1At(digests[1..], i - 1);
    }
  }

  /** The recorded code is the one the files give. */
  lemma CodeIsTheirs(rules: Rules, before: set<string>, all: seq<Placed>, i: nat)
    requires i < |all| && Matched(all[i]) && Fresh(before, AllFileIds(all))
    requires forall k :: 0 <= k < |all[i].info.files| ==> ChecksumsOk(rules, all[i].info.files[k].digests)
    ensures Hashes(Sha1s(rules, AllFiles(all)), all[i].fileIds) == Some(RawSha1s(all[i].info.files))
  {
    var p, sha1s := all[i], Sha1s(rules, AllFiles(all));
    IdsOfFiles(all);
    OwnFiles(all, i);
    forall k | 0 <= k < |p.fileIds| ensures p.fileIds[k] in sha1s && sha1s[p.fileIds[k]] == Some(RawSha1s(p.info.files)[k]) {
      var f := FilesOf(p)[k];
      Sha1sHold(rules, before, AllFiles(all), f);
      assert OneOfEach(f.checksums);
      var j :| 0 <= j < |f.checksums| && f.checksums[j].algorithm == "SHA1";
      SameSha1(rules, f.checksums, j);
    }
    HashesAre(sha1s, p.fileIds, RawSha1s(p.info.files));
  }

  // ------------------------------------------------------------- the document

  lemma FreshIffDifferent(all: seq<Placed>)
    requires forall i :: 0 <= i < |all| ==> all[i].id != DOCUMENT_ID
    ensures Fresh({DOCUMENT_ID}, Ids(all)) <==> DifferentIds(all)
  {
    var ids := Ids(all);
    if DifferentIds(all) {
      forall j | 0 <= j < |ids| ensures ids[j] !in ids[..j] {
        assert forall k :: 0 <= k < j ==> ids[..j][k] == all[k].id;
      }
    } else {
      var k, l :| 0 <= k < l < |all| && all[k].id == all[l].id;
      assert ids[..l][k] == ids[l];
    }
  }

  lemma BuiltRelationsOk(rules: Rules, names: E.Names, all: seq<Placed>, extra: seq<Relation>, extracted: seq<string>, i: nat)
    requires WellPlaced(all, extra, extracted) && ValidRules(rules) && i < |AllRelations(all[0].id, all)|
    requires forall k :: 0 <= k < |all| ==> LeavesOk(rules, names, all[k])
    ensures RelationOk(rules, {DOCUMENT_ID} + Elements(Ids(all)) + Elements(AllFileIds(all)), AllRelations(all[0].id, all)[i])
  {
    var root := all[0].id;
    var r := AllRelations(root, all)[i];
    var k := RelationComesFrom(root, all, r);
    OwnFiles(all, k);
    assert Ids(all)[0] == root && Ids(all)[k] == all[k].id;
  }

  /** The relations are sound when the leaves are. */
  lemma RelationsOk(rules: Rules, names: E.Names, all: seq<Placed>, extra: seq<Relation>, extracted: seq<string>)
    requires WellPlaced(all, extra, extracted) && ValidRules(rules)
    requires forall k :: 0 <= k < |all| ==> LeavesOk(rules, names, all[k])
    requires forall k :: 0 <= k < |extra| ==> extra[k].kind in rules.relationTypes
    ensures var doc := DocumentOf(rules, all, extra, extracted);
            && (forall i :: 0 <= i < |doc.relations| ==> RelationOk(rules, KnownIds(doc), doc.relations[i]))
            && Describes(doc.relations[0])
  {
    hide LeavesOk, RelationOk, AllRelations, AllFiles, AllFileIds, Entries, Ids, IsSpdxId, Fresh, RefsOk, Matched;
    var doc := DocumentOf(rules, all, extra, extracted);
    IdsOfEntries(rules, all);
    IdsOfFiles(all);
    var built := AllRelations(all[0].id, all);
    var known := {DOCUMENT_ID} + Elements(Ids(all)) + Elements(AllFileIds(all));
    assert known == KnownIds(doc);
    var head := Relation(DOCUMENT_ID, "DESCRIBES", all[0].id);
    HeadRelationOk(rules, all);
    forall i | 0 <= i < |built| ensures RelationOk(rules, known, built[i]) {
      BuiltRelationsOk(rules, names, all, extra, extracted, i);
    }
    forall i | 0 <= i < |extra| ensures RelationOk(rules, known, extra[i]) {
      ExtraRelationOk(rules, all, extra[i]);
    }
    PartsRelationsOk(rules, known, head, built, extra);
  }

  lemma HeadRelationOk(rules: Rules, all: seq<Placed>)
    requires ValidRules(rules) && all != []
    ensures RelationOk(rules, {DOCUMENT_ID} + Elements(Ids(all)) + Elements(AllFileIds(all)), Relation(DOCUMENT_ID, "DESCRIBES", all[0].id))
  {
    assert Ids(all)[0] == all[0].id;
  }

  lemma ExtraRelationOk(rules: Rules, all: seq<Placed>, r: Relation)
    requires r.kind in rules.relationTypes && r.from in Ids(all) && r.to in Ids(all)
    ensures RelationOk(rules, {DOCUMENT_ID} + Elements(Ids(all)) + Elements(AllFileIds(all)), r)
  {
  }

  lemma PartsRelationsOk(rules: Rules, known: set<string>, head: Relation, built: seq<Relation>, extra: seq<Relation>)
    requires RelationOk(rules, known, head)
    requires forall i :: 0 <= i < |built| ==> RelationOk(rules, known, built[i])
    requires forall i :: 0 <= i < |extra| ==> RelationOk(rules, known, extra[i])
    ensures var all := [head] + built + extra; forall i :: 0 <= i < |all| ==> RelationOk(rules, known, all[i])
  {
    hide RelationOk;
  }

  /** Only relations between packages are added, so they change no package's files. */
  lemma ContentsOk(rules: Rules, names: E.Names, all: seq<Placed>, extra: seq<Relation>, extracted: seq<string>, i: nat)
    requires WellPlaced(all, extra, extracted) && ValidRules(rules) && DifferentIds(all) && i < |all|
    requires LeavesOk(rules, names, all[i])
    ensures var doc := DocumentOf(rules, all, extra, extracted);
            ContentOk(rules, Sha1s(rules, doc.files), doc.packages[i],
                      Contained(doc.relations, Elements(FileIds(doc.files)), doc.packages[i].id))
  {
    var doc := DocumentOf(rules, all, extra, extracted);
    var fileIds := Elements(AllFileIds(all));
    IdsOfFiles(all);
    ContainedFiles(all, extra, i);
    CodeIsTheirs(rules, {DOCUMENT_ID} + Elements(Ids(all)), all, i);
  }

  lemma NotAFile(all: seq<Placed>, x: string)
    requires x in Ids(all) && Fresh({DOCUMENT_ID} + Elements(Ids(all)), AllFileIds(all))
    ensures x !in AllFileIds(all)
  {
  }

  lemma OwnIdIsNotAFile(all: seq<Placed>, k: nat)
    requires k < |all| && Fresh({DOCUMENT_ID} + Elements(Ids(all)), AllFileIds(all))
    ensures all[k].id !in AllFileIds(all)
  {
    hide Fresh, AllFileIds;
    assert Ids(all)[k] == all[k].id;
    NotAFile(all, all[k].id);
  }

  /** No package identifier is a file's. */
  lemma NoneIsAFile(all: seq<Placed>)
    requires Fresh({DOCUMENT_ID} + Elements(Ids(all)), AllFileIds(all))
    ensures forall k :: 0 <= k < |all| ==> all[k].id !in AllFileIds(all)
  {
    hide Fresh, AllFileIds, Ids, Elements;
    forall k | 0 <= k < |all| ensures all[k].id !in AllFileIds(all) {
      OwnIdIsNotAFile(all, k);
    }
  }

  lemma NoneLeadsToAFile(all: seq<Placed>, extra: seq<Relation>)
    requires Fresh({DOCUMENT_ID} + Elements(Ids(all)), AllFileIds(all))
    requires forall r :: r in extra ==> r.to in Ids(all)
    ensures forall r :: r in extra ==> r.to !in AllFileIds(all)
  {
    hide Fresh, AllFileIds, Ids;
    forall r | r in extra ensures r.to !in AllFileIds(all) {
      NotAFile(all, r.to);
    }
  }

  lemma ContainedFiles(all: seq<Placed>, extra: seq<Relation>, i: nat)
    requires i < |all| && DifferentIds(all)
    requires Fresh({DOCUMENT_ID} + Elements(Ids(all)), AllFileIds(all))
    requires forall r :: r in extra ==> r.to in Ids(all)
    ensures Contained([Relation(DOCUMENT_ID, "DESCRIBES", all[0].id)] + AllRelations(all[0].id, all) + extra,
                      Elements(AllFileIds(all)), all[i].id) == all[i].fileIds
  {
    NoneIsAFile(all);
    NoneLeadsToAFile(all, extra);
    hide AllRelations, Fresh, Contained, Ids;
    OwnFiles(all, i);
    EachContains(all[0].id, all, Elements(AllFileIds(all)), i);
    AroundContains([Relation(DOCUMENT_ID, "DESCRIBES", all[0].id)], AllRelations(all[0].id, all), extra,
                   Elements(AllFileIds(all)), all[i].id);
  }

  lemma AroundContains(head: seq<Relation>, built: seq<Relation>, extra: seq<Relation>, fileIds: set<string>, id: string)
    requires forall r :: r in head || r in extra ==> r.from != id || r.to !in fileIds
    ensures Contained(head + built + extra, fileIds, id) == Contained(built, fileIds, id)
  {
    ContainedJoins(head + built, extra, fileIds, id);
    ContainedJoins(head, built, fileIds, id);
    NoneContained(head, fileIds, id);
    NoneContained(extra, fileIds, id);
  }

  /** The validator accepts the document exactly when no identifier serves two packages, the added
      relations have known types, and every package's leaves are sound. */
  lemma ValidIff(rules: Rules, all: seq<Placed>, extra: seq<Relation>, extracted: seq<string>)
    requires WellPlaced(all, extra, extracted) && ValidRules(rules)
    ensures var doc := DocumentOf(rules, all, extra, extracted);
            ValidDocument(rules, doc) <==>
            && DifferentIds(all)
            && (forall i :: 0 <= i < |extra| ==> extra[i].kind in rules.relationTypes)
            && (forall i :: 0 <= i < |all| ==> LeavesOk(rules, NamesIn(rules, doc), all[i]))
  {
    var doc := DocumentOf(rules, all, extra, extracted);
    var names := NamesIn(rules, doc);
    IdsOfEntries(rules, all);
    IdsOfFiles(all);
    FreshIffDifferent(all);
    if ValidDocument(rules, doc) {
      ValidLeaves(rules, all, extra, extracted);
    }
    if && DifferentIds(all)
       && (forall i :: 0 <= i < |extra| ==> extra[i].kind in rules.relationTypes)
       && (forall i :: 0 <= i < |all| ==> LeavesOk(rules, names, all[i])) {
      SoundIsValid(rules, all, extra, extracted);
    }
  }

  lemma ValidLeaves(rules: Rules, all: seq<Placed>, extra: seq<Relation>, extracted: seq<string>)
    requires WellPlaced(all, extra, extracted) && ValidDocument(rules, DocumentOf(rules, all, extra, extracted))
    ensures var names := NamesIn(rules, DocumentOf(rules, all, extra, extracted));
            && (forall i :: 0 <= i < |extra| ==> extra[i].kind in rules.relationTypes)
            && (forall i :: 0 <= i < |all| ==> LeavesOk(rules, names, all[i]))
  {
    hide Fresh, RefsOk, ContentOk, PackageOk, FileOk, RelationOk, LeavesOk, AllRelations, AllFiles, IsSpdxId;
    var doc := DocumentOf(rules, all, extra, extracted);
    var built := AllRelations(all[0].id, all);
    KnownKinds(rules, KnownIds(doc), [Relation(DOCUMENT_ID, "DESCRIBES", all[0].id)], built, extra);
    forall i | 0 <= i < |all| ensures LeavesOk(rules, NamesIn(rules, doc), all[i]) {
      assert PackageOk(NamesIn(rules, doc), doc.packages[i]);
      ValidLeaf(rules, NamesIn(rules, doc), all, i);
    }
  }

  lemma KnownKinds(rules: Rules, known: set<string>, head: seq<Relation>, built: seq<Relation>, extra: seq<Relation>)
    requires forall i :: 0 <= i < |head + built + extra| ==> RelationOk(rules, known, (head + built + extra)[i])
    ensures forall i :: 0 <= i < |built| ==> built[i].kind in rules.relationTypes
    ensures forall i :: 0 <= i < |extra| ==> extra[i].kind in rules.relationTypes
  {
    var all := head + built + extra;
    forall i | 0 <= i < |built| ensures built[i].kind in rules.relationTypes {
      assert all[|head| + i] == built[i];
    }
    forall i | 0 <= i < |extra| ensures extra[i].kind in rules.relationTypes {
      assert all[|head| + |built| + i] == extra[i];
    }
  }

  lemma ValidLeaf(rules: Rules, names: E.Names, all: seq<Placed>, i: nat)
    requires i < |all| && Matched(all[i]) && PackageOk(names, Entry(rules, all[i]))
    requires forall k :: 0 <= k < |AllFiles(all)| ==> FileOk(rules, AllFiles(all)[k])
    requires forall k :: 0 <= k < |AllRelations(all[0].id, all)| ==> AllRelations(all[0].id, all)[k].kind in rules.relationTypes
    ensures LeavesOk(rules, names, all[i])
  {
    var p := all[i];
    hide ChecksumsOk, AllFiles, AllRelations, FileOk, FilesOf, OneOfEach;
    OwnFiles(all, i);
    forall k | 0 <= k < |p.info.files| ensures "./" <= p.info.files[k].display && ChecksumsOk(rules, p.info.files[k].digests) {
      ShownFile(rules, p, k);
      assert FilesOf(p)[k] in AllFiles(all);
    }
    if p.held {
      OwnRelations(all[0].id, all, i);
      assert RelationsOf(all[0].id, p)[0] in AllRelations(all[0].id, all);
    }
  }

  lemma ShownFile(rules: Rules, p: Placed, k: nat)
    requires Matched(p) && k < |p.info.files|
    ensures k < |FilesOf(p)|
    ensures FileOk(rules, FilesOf(p)[k]) ==> "./" <= p.info.files[k].display && ChecksumsOk(rules, p.info.files[k].digests)
  {
    hide ChecksumsOk, OneOfEach;
  }

  lemma ShownFileOk(rules: Rules, names: E.Names, all: seq<Placed>, extra: seq<Relation>, extracted: seq<string>, f: FileEntry)
    requires WellPlaced(all, extra, extracted) && f in AllFiles(all)
    requires forall i :: 0 <= i < |all| ==> LeavesOk(rules, names, all[i])
    ensures FileOk(rules, f)
  {
    hide Fresh, RefsOk, IsSpdxId, ChecksumsOk;
    var k := FileComesFrom(all, f);
    OwnFiles(all, k);
    assert f.id in all[k].fileIds;
  }

  lemma SoundIsValid(rules: Rules, all: seq<Placed>, extra: seq<Relation>, extracted: seq<string>)
    requires WellPlaced(all, extra, extracted) && ValidRules(rules) && DifferentIds(all)
    requires forall i :: 0 <= i < |extra| ==> extra[i].kind in rules.relationTypes
    requires var names := NamesIn(rules, DocumentOf(rules, all, extra, extracted));
             forall i :: 0 <= i < |all| ==> LeavesOk(rules, names, all[i])
    ensures ValidDocument(rules, DocumentOf(rules, all, extra, extracted))
  {
    hide Fresh, RefsOk, ContentOk, RelationOk, IsSpdxId, ChecksumsOk;
    var doc := DocumentOf(rules, all, extra, extracted);
    var names := NamesIn(rules, doc);
    IdsOfEntries(rules, all);
    IdsOfFiles(all);
    FreshIffDifferent(all);
    RelationsOk(rules, names, all, extra, extracted);
    forall i | 0 <= i < |all|
      ensures ContentOk(rules, Sha1s(rules, doc.files), doc.packages[i],
                        Contained(doc.relations, Elements(FileIds(doc.files)), doc.packages[i].id)) {
      ContentsOk(rules, names, all, extra, extracted, i);
    }
    forall i | 0 <= i < |doc.files| ensures FileOk(rules, doc.files[i]) {
      ShownFileOk(rules, names, all, extra, extracted, doc.files[i]);
    }
  }
}
