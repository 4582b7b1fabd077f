/** What an accepted document says about its packages, and what the laid-out one holds. */
module SpdxContents {
  import opened Options
  import opened Finite
  import opened Strings
  import Text
  import E = SpdxExpression
  import opened SpdxIds
  import opened SpdxDocument
  import opened SpdxLayout

  // ------------------------------------------------------------- digests

  /** A checksum is sound when its algorithm is known and its value is that many small hexadecimal
      digits. */
  lemma ChecksumIff(rules: Rules, c: Checksum)
    ensures ChecksumOk(rules, c) <==>
            && c.algorithm in rules.hexLength && c.value != ""
            && (forall i :: 0 <= i < |c.value| ==>
                  c.value[i] in {'0', '1', '2', '3', '4', '5', '6', '7', '8', '9', 'a', 'b', 'c', 'd', 'e', 'f'})
            && (rules.hexLength[c.algorithm].Some? ==> |c.value| == rules.hexLength[c.algorithm].value)
  {
    forall i | 0 <= i < |c.value|
      ensures '0' <= c.value[i] <= '9' || 'a' <= c.value[i] <= 'f' <==>
              c.value[i] in {'0', '1', '2', '3', '4', '5', '6', '7', '8', '9', 'a', 'b', 'c', 'd', 'e', 'f'} {
    }
  }

  predicate IsSha1(rules: Rules, c: Checksum) {
    c.algorithm == "SHA1" && ChecksumOk(rules, c)
  }

  /** The validator goes by the last sound SHA1 checksum. */
  lemma {:induction false} LastSha1(rules: Rules, before: seq<Checksum>, c: Checksum, after: seq<Checksum>)
    requires IsSha1(rules, c) && forall i :: 0 <= i < |after| ==> !IsSha1(rules, after[i])
    ensures Sha1Of(rules, before + [c] + after) == Some(c.value)
  {
    hide ChecksumOk;
    var all := before + [c] + after;
    if after == [] {
      assert all[|all| - 1] == c;
    } else {
      assert all[|all| - 1] == after[|after| - 1] && all[..|all| - 1] == before + [c] + after[..|after| - 1];
      LastSha1(rules, before, c, after[..|after| - 1]);
    }
  }

  lemma {:induction false} Sha1IsListed(rules: Rules, checksums: seq<Checksum>)
    ensures Sha1Of(rules, checksums).Some? <==> exists c :: c in checksums && IsSha1(rules, c)
    ensures Sha1Of(rules, checksums).Some? ==> Checksum("SHA1", Sha1Of(rules, checksums).value) in checksums
  {
    hide ChecksumOk;
    if checksums != [] {
      var front, last := checksums[..|checksums| - 1], checksums[|checksums| - 1];
      Sha1IsListed(rules, front);
      assert checksums == front + [last];
      if IsSha1(rules, last) {
        assert last == Checksum("SHA1", last.value);
      }
    }
  }

  // ------------------------------------------------------------- what a package contains

  /** The files of a package are the known files it is said to contain. */
  lemma {:induction false} ContainedIff(relations: seq<Relation>, fileIds: set<string>, id: string, x: string)
    ensures x in Contained(relations, fileIds, id) <==> x in fileIds && Relation(id, "CONTAINS", x) in relations
  {
    if relations != [] {
      var front, last := relations[..|relations| - 1], relations[|relations| - 1];
      ContainedIff(front, fileIds, id, x);
      assert forall r :: r in relations <==> r in front || r == last;
    }
  }

  lemma {:induction false} HashOfEach(sha1s: map<string, Option<string>>, ids: seq<string>)
    requires Hashes(sha1s, ids).Some?
    ensures var hashes := Hashes(sha1s, ids).value;
            |hashes| == |ids| && forall k :: 0 <= k < |ids| ==> ids[k] in sha1s && sha1s[ids[k]] == Some(hashes[k])
  {
    if ids != [] {
      HashOfEach(sha1s, ids[1..]);
    }
  }

  lemma HasId(files: seq<FileEntry>, x: string)
    ensures x in Elements(FileIds(files)) <==> exists f :: f in files && f.id == x
  {
    if f :| f in files && f.id == x {
      var k :| 0 <= k < |files| && files[k] == f;
      assert FileIds(files)[k] == x;
    }
    if x in Elements(FileIds(files)) {
      var k :| 0 <= k < |files| && FileIds(files)[k] == x;
      assert files[k] in files;
    }
  }

  /** In an accepted document the verification code of an analysed package is the hash of the SHA1
      digests, in ascending order, of exactly the files that the package contains. */
  lemma CodeBindsFiles(rules: Rules, doc: Document, i: nat) returns (mine: seq<string>, hashes: seq<string>, sorted: seq<string>)
    requires ValidDocument(rules, doc) && i < |doc.packages| && doc.packages[i].filesAnalyzed
    ensures var p := doc.packages[i];
            && |mine| == |hashes| > 0
            && (forall x :: x in mine <==>
                  Relation(p.id, "CONTAINS", x) in doc.relations && exists f :: f in doc.files && f.id == x)
            && (forall k, f :: 0 <= k < |mine| && f in doc.files && f.id == mine[k] ==>
                  Checksum("SHA1", hashes[k]) in f.checksums)
            && multiset(sorted) == multiset(hashes) && Text.Ordered(sorted, Text.Same)
            && p.code == Some(rules.sha1(Join(sorted, "")))
  {
    hide Fresh, PackageOk, ContentOk, FileOk, RelationOk, RefsOk, Contained, Sha1s, Hashes, VerificationCode, Join;
    var p, fileIds, table := doc.packages[i], Elements(FileIds(doc.files)), Sha1s(rules, doc.files);
    mine := Contained(doc.relations, fileIds, p.id);
    AnalysedContent(rules, NamesIn(rules, doc), table, p, mine);
    hashes := Hashes(table, mine).value;
    HashOfEach(table, mine);
    sorted := Text.Sorted(hashes, Text.Same);
    CodeIgnoresOrder(rules, hashes, sorted);
    CodeOfAscending(rules, sorted);
    forall x ensures x in mine <==>
        Relation(p.id, "CONTAINS", x) in doc.relations && exists f :: f in doc.files && f.id == x {
      ContainedIff(doc.relations, fileIds, p.id, x);
      HasId(doc.files, x);
    }
    forall k, f | 0 <= k < |mine| && f in doc.files && f.id == mine[k] ensures Checksum("SHA1", hashes[k]) in f.checksums {
      Sha1sHold(rules, {DOCUMENT_ID} + Elements(PackageIds(doc.packages)), doc.files, f);
      Sha1IsListed(rules, f.checksums);
    }
  }

  lemma AnalysedContent(rules: Rules, names: E.Names, sha1s: map<string, Option<string>>, p: PackageEntry, mine: seq<string>)
    requires PackageOk(names, p) && ContentOk(rules, sha1s, p, mine) && p.filesAnalyzed
    ensures mine != [] && Hashes(sha1s, mine).Some? && p.code == Some(VerificationCode(rules, Hashes(sha1s, mine).value))
  {
  }

  /** A relation is sound when its type is known and both its ends are: the document, a package, a
      file, or one of the two words for none. */
  lemma RelationOkIff(rules: Rules, doc: Document, r: Relation)
    ensures RelationOk(rules, KnownIds(doc), r) <==> r.kind in rules.relationTypes && IsEnd(doc, r.from) && IsEnd(doc, r.to)
  {
    EndIff(doc, r.from);
    EndIff(doc, r.to);
  }

  ghost predicate IsEnd(doc: Document, e: string) {
    || e == "SPDXRef-DOCUMENT" || e == "NONE" || e == "NOASSERTION"
    || (exists p :: p in doc.packages && p.id == e) || (exists f :: f in doc.files && f.id == e)
  }

  lemma EndIff(doc: Document, e: string)
    ensures EndOk(KnownIds(doc), e) <==> IsEnd(doc, e)
  {
    HasId(doc.files, e);
    if p :| p in doc.packages && p.id == e {
      var k :| 0 <= k < |doc.packages| && doc.packages[k] == p;
      assert PackageIds(doc.packages)[k] == e;
    }
    if e in Elements(PackageIds(doc.packages)) {
      var k :| 0 <= k < |doc.packages| && PackageIds(doc.packages)[k] == e;
      assert doc.packages[k] in doc.packages;
    }
  }

  /** An accepted document says what it describes. */
  lemma DescribesSomething(rules: Rules, doc: Document) returns (described: string)
    requires ValidDocument(rules, doc)
    ensures Relation("SPDXRef-DOCUMENT", "DESCRIBES", described) in doc.relations && IsEnd(doc, described)
  {
    hide Fresh, RefsOk, PackageOk, FileOk, ContentOk, KnownIds, Sha1s, Contained, IsEnd;
    var i :| 0 <= i < |doc.relations| && Describes(doc.relations[i]);
    described := doc.relations[i].to;
    assert RelationOk(rules, KnownIds(doc), doc.relations[i]);
    RelationOkIff(rules, doc, doc.relations[i]);
    assert doc.relations[i] in doc.relations;
  }

  // ------------------------------------------------------------- the laid-out document

  /** The relations of a laid-out document: what it describes, what the root holds, the files of
      each package, and the ones added. */
  ghost predicate IsLaidOut(all: seq<Placed>, extra: seq<Relation>, r: Relation)
    requires all != []
  {
    || r == Relation("SPDXRef-DOCUMENT", "DESCRIBES", all[0].id)
    || (exists k :: 0 <= k < |all| && all[k].held && r == Relation(all[0].id, all[k].info.relation, all[k].id))
    || (exists k, j :: 0 <= k < |all| && 0 <= j < |all[k].fileIds| && r == Relation(all[k].id, "CONTAINS", all[k].fileIds[j]))
    || r in extra
  }

  lemma RelationIff(rules: Rules, all: seq<Placed>, extra: seq<Relation>, extracted: seq<string>, r: Relation)
    requires all != []
    ensures r in DocumentOf(rules, all, extra, extracted).relations <==> IsLaidOut(all, extra, r)
  {
    var root, built := all[0].id, AllRelations(all[0].id, all);
    var head := Relation("SPDXRef-DOCUMENT", "DESCRIBES", root);
    assert r in [head] + built + extra <==> r == head || r in built || r in extra;
    if r in built {
      var k := RelationComesFrom(root, all, r);
      InRelationsOf(root, all[k], r);
    }
    if k :| 0 <= k < |all| && all[k].held && r == Relation(root, all[k].info.relation, all[k].id) {
      OwnRelations(root, all, k);
      InRelationsOf(root, all[k], r);
    }
    if k, j :| 0 <= k < |all| && 0 <= j < |all[k].fileIds| && r == Relation(all[k].id, "CONTAINS", all[k].fileIds[j]) {
      OwnRelations(root, all, k);
      InRelationsOf(root, all[k], r);
    }
  }

  lemma InRelationsOf(root: string, p: Placed, r: Relation)
    ensures r in RelationsOf(root, p) <==>
            || (p.held && r == Relation(root, p.info.relation, p.id))
            || exists j :: 0 <= j < |p.fileIds| && r == Relation(p.id, "CONTAINS", p.fileIds[j])
  {
    var head := if p.held then [Relation(root, p.info.relation, p.id)] else [];
    assert r in head + ContainsOf(p) <==> r in head || r in ContainsOf(p);
    if j :| 0 <= j < |p.fileIds| && r == Relation(p.id, "CONTAINS", p.fileIds[j]) {
      assert ContainsOf(p)[j] == r;
    }
  }

  ghost predicate IsFileOf(p: Placed, j: int, f: FileEntry) {
    && 0 <= j < |p.fileIds| && j < |p.info.files|
    && f == FileEntry(p.fileIds[j], p.info.files[j].display, p.info.files[j].digests)
  }

  /** The files of a laid-out document: those of its packages, under the path they are shown with
      and with all their digests. */
  lemma FileIff(rules: Rules, all: seq<Placed>, extra: seq<Relation>, extracted: seq<string>, f: FileEntry)
    requires all != [] && forall k :: 0 <= k < |all| ==> Matched(all[k])
    ensures f in DocumentOf(rules, all, extra, extracted).files <==>
            exists k, j :: 0 <= k < |all| && IsFileOf(all[k], j, f)
  {
    if f in AllFiles(all) {
      var k := FileComesFrom(all, f);
      assert Matched(all[k]);
      var j :| 0 <= j < |FilesOf(all[k])| && FilesOf(all[k])[j] == f;
      assert IsFileOf(all[k], j, f);
    }
    if k, j :| 0 <= k < |all| && IsFileOf(all[k], j, f) {
      OwnFiles(all, k);
      assert FilesOf(all[k])[j] == f;
    }
  }

  /** A package's entry. It is analysed when it has files, and its code is then the hash of their
      SHA1 digests in ascending order. */
  lemma PackageIs(rules: Rules, all: seq<Placed>, extra: seq<Relation>, extracted: seq<string>, k: nat, hashes: seq<string>,
                  sorted: seq<string>)
    requires k < |all| && Matched(all[k]) && |hashes| == |all[k].info.files|
    requires forall j :: 0 <= j < |hashes| ==> Checksum("SHA1", hashes[j]) in all[k].info.files[j].digests
    requires multiset(sorted) == multiset(hashes) && Text.Ordered(sorted, Text.Same)
    ensures var p, entry := all[k], DocumentOf(rules, all, extra, extracted).packages[k];
            && entry.id == p.id && entry.name == p.info.name && entry.declared == p.declared
            && (p.info.files == [] ==> !entry.filesAnalyzed && entry.code == None)
            && (p.info.files != [] ==> entry.filesAnalyzed && entry.code == Some(rules.sha1(Join(sorted, ""))))
  {
    hide VerificationCode, Join, OneOfEach;
    var files := all[k].info.files;
    assert RawSha1s(files) == hashes by {
      forall j | 0 <= j < |hashes| ensures RawSha1(files[j].digests) == hashes[j] {
        OwnSha1(files[j].digests, hashes[j]);
      }
    }
    CodeIgnoresOrder(rules, hashes, sorted);
    CodeOfAscending(rules, sorted);
  }

  lemma OwnSha1(digests: seq<Checksum>, value: string)
    requires OneOfEach(digests) && Checksum("SHA1", value) in digests
    ensures RawSha1(digests) == value
  {
    var i :| 0 <= i < |digests| && digests[i] == Checksum("SHA1", value);
    RawSha1At(digests, i);
  }
}
