/** Building the document: packages and files get identifiers, licences are converted, and what
    comes out is checked against what the validator asks. */
module SpdxBuilder {
  import opened Options
  import opened Finite
  import Text
  import E = SpdxExpression
  import opened SpdxNaming
  import opened SpdxLicenses
  import opened SpdxAcceptance
  import opened SpdxIds
  import opened SpdxDocument
  import opened SpdxLayout
  import opened SpdxContents

  class Package {
    const info: Info
    var spdxId: string

    constructor (info: Info)
      ensures this.info == info
    {
      this.info := info;
      spdxId := "";
    }
  }

  /** What has to hold of one package for its entry to be accepted. */
  predicate SoundInfo(rules: Rules, st: Setting, info: Info, held: bool) {
    && info.name != "" && !Spoiled(st, info.licenseRaw)
    && (held ==> info.relation in rules.relationTypes)
    && forall i :: 0 <= i < |info.files| ==>
         "./" <= info.files[i].display && ChecksumsOk(rules, info.files[i].digests)
  }

  ghost predicate FilesMatched(info: Info) {
    forall i :: 0 <= i < |info.files| ==> OneOfEach(info.files[i].digests)
  }

  /** The identifiers of different packages differ, are well formed and are in use. */
  ghost predicate Identified(ids: map<Package, string>, used: set<string>) {
    && (forall p :: p in ids ==> ids[p] in used && IsSpdxId(ids[p]) && ids[p] != DOCUMENT_ID)
    && (forall p, q :: p in ids && q in ids && p != q ==> ids[p] != ids[q])
  }

  ghost function IdsOf(pkgs: set<Package>): map<Package, string>
    reads pkgs
  {
    map p | p in pkgs :: p.spdxId
  }

  lemma OneMoreIdentified(ids: map<Package, string>, used: set<string>, pkg: Package, id: string)
    requires Identified(ids, used) && id !in used && IsSpdxId(id) && id != DOCUMENT_ID
    ensures Identified(ids[pkg := id], used + {id})
  {
  }

  /** The name a package gets its identifier from. */
  function NameOf(root: Package, pkg: Package): string {
    if pkg == root then pkg.info.name else pkg.info.key
  }

  ghost function IdsBefore(pkgs: seq<Package>, k: nat): set<string>
    requires k <= |pkgs|
    reads pkgs
  {
    set j | 0 <= j < k :: pkgs[j].spdxId
  }

  /** Each package has the first identifier made from its name that no package before it has. */
  ghost predicate Named(root: Package, pkgs: seq<Package>, used: set<string>)
    reads pkgs
  {
    && used == IdsBefore(pkgs, |pkgs|)
    && forall k :: 0 <= k < |pkgs| ==>
         IsFirstFree(IdsBefore(pkgs, k),
                     Stem("Package", if pkgs[k] == root then pkgs[k].info.name else pkgs[k].info.key), pkgs[k].spdxId)
  }

  /** Giving another package its identifier leaves the packages before it as they are. */
  lemma StillNamed(root: Package, pkgs: seq<Package>, used: set<string>, pkg: Package, nowUsed: set<string>)
    requires Named(root, pkgs, used) && pkg !in pkgs
    requires IsFirstFree(used, Stem("Package", NameOf(root, pkg)), pkg.spdxId) && nowUsed == used + {pkg.spdxId}
    ensures Named(root, pkgs + [pkg], nowUsed)
  {
    hide IsFirstFree, Stem;
    var more := pkgs + [pkg];
    assert more[|pkgs|] == pkg && forall j :: 0 <= j < |pkgs| ==> more[j] == pkgs[j];
    assert forall k :: 0 <= k <= |pkgs| ==> IdsBefore(more, k) == IdsBefore(pkgs, k);
    assert IdsBefore(more, |more|) == IdsBefore(more, |pkgs|) + {pkg.spdxId};
  }

  /** The packages up to component i, and that one. */
  lemma UpTo(root: Package, components: seq<Package>, i: nat)
    requires i < |components|
    ensures var pkgs := [root] + components;
            && pkgs[..i + 2] == pkgs[..i + 1] + [components[i]] && root in pkgs[..i + 1]
            && (Distinct(pkgs) ==> components[i] !in pkgs[..i + 1])
  {
    var pkgs := [root] + components;
    assert pkgs[i + 1] == components[i] && pkgs[..i + 1][0] == root;
  }

  method AssignId(root: Package, pkg: Package, key: string, used: set<string>, ghost placed: seq<Package>)
    returns (nowUsed: set<string>)
    requires Identified(IdsOf(Elements(placed)), used) && DOCUMENT_ID !in used
    requires key == NameOf(root, pkg) || pkg in placed
    modifies pkg
    ensures Identified(IdsOf(Elements(placed + [pkg])), nowUsed) && DOCUMENT_ID !in nowUsed
    ensures old(Named(root, placed, used)) && pkg !in placed ==> Named(root, placed + [pkg], nowUsed)
  {
    hide IsSpdxId, Identified, Stem, Named, IsFirstFree;
    ghost var ids := IdsOf(Elements(placed));
    var id;
    id, nowUsed := SpdxId("Package", key, used);
    FirstFreeIsSpdxId(used, "Package", key, id);
    OneMoreIdentified(ids, used, pkg, id);
    pkg.spdxId := id;
    assert Elements(placed + [pkg]) == Elements(placed) + {pkg};
    assert IdsOf(Elements(placed + [pkg])) == ids[pkg := id];
    if old(Named(root, placed, used)) && pkg !in placed {
      StillNamed(root, placed, used, pkg, nowUsed);
    }
  }

  method AssignIds(root: Package, components: seq<Package>) returns (used: set<string>)
    modifies root, components
    ensures Identified(IdsOf(Elements([root] + components)), used) && DOCUMENT_ID !in used
    ensures Distinct([root] + components) ==> Named(root, [root] + components, used)
  {
    NothingNamed(root);
    hide Identified, Named, Distinct, Elements, IdsOf;
    ghost var pkgs := [root] + components;
    used := AssignId(root, root, root.info.name, {}, []);
    assert [] + [root] == pkgs[..1];
    for i := 0 to |components|
      invariant Identified(IdsOf(Elements(pkgs[..i + 1])), used) && DOCUMENT_ID !in used
      invariant Distinct(pkgs) ==> Named(root, pkgs[..i + 1], used)
    {
      UpTo(root, components, i);
      used := AssignId(root, components[i], components[i].info.key, used, pkgs[..i + 1]);
    }
    assert pkgs[..|pkgs|] == pkgs;
  }

  lemma NothingNamed(root: Package)
    ensures Named(root, [], {}) && Identified(IdsOf(Elements([])), {})
  {
  }

  /** A file has the first identifier made from its path below "./" that is not taken. */
  ghost predicate FileNamed(used: set<string>, display: string, id: string) {
    IsFirstFree(used, Stem("File", if |display| < 2 then "" else display[2..]), id)
  }

  /** The identifiers of the first files are new, well formed and made from their paths. */
  ghost predicate FilesNamed(used: set<string>, files: seq<Shown>, fids: seq<string>) {
    && |fids| <= |files| && Fresh(used, fids)
    && (forall x :: x in fids ==> IsSpdxId(x) && x != DOCUMENT_ID)
    && forall k :: 0 <= k < |fids| ==> FileNamed(used + Elements(fids[..k]), files[k].display, fids[k])
  }

  lemma OneMoreFile(used: set<string>, files: seq<Shown>, fids: seq<string>, fid: string)
    requires FilesNamed(used, files, fids) && |fids| < |files|
    requires FileNamed(used + Elements(fids), files[|fids|].display, fid)
    ensures FilesNamed(used, files, fids + [fid])
  {
    hide IsSpdxId, Stem, Fresh, Elements, FileNamed;
    var d := files[|fids|].display;
    NamedIsNew(used + Elements(fids), d, fid);
    OneMoreFresh(used, fids, fid);
    forall k | 0 <= k < |fids + [fid]| ensures FileNamed(used + Elements((fids + [fid])[..k]), files[k].display, (fids + [fid])[k]) {
      if k < |fids| {
        assert (fids + [fid])[..k] == fids[..k];
      } else {
        assert (fids + [fid])[..k] == fids;
      }
    }
  }

  lemma NamedIsNew(used: set<string>, display: string, id: string)
    requires FileNamed(used, display, id)
    ensures IsSpdxId(id) && id != DOCUMENT_ID && id !in used
  {
    FirstFreeIsSpdxId(used, "File", if |display| < 2 then "" else display[2..], id);
  }

  lemma OneMoreFresh(used: set<string>, ids: seq<string>, id: string)
    requires Fresh(used, ids) && id !in used + Elements(ids)
    ensures Fresh(used, ids + [id])
  {
    FreshExtend(used, ids + [id], |ids|);
    assert (ids + [id])[..|ids|] == ids && (ids + [id])[..|ids| + 1] == ids + [id];
  }

  lemma NoFiles(used: set<string>, files: seq<Shown>)
    ensures FilesNamed(used, files, [])
  {
  }

  /** The entries of a package's files, and the relations that it contains them. */
  method PlaceFiles(pkg: Package, used: set<string>)
    returns (fids: seq<string>, files: seq<FileEntry>, contains: seq<Relation>, nowUsed: set<string>)
    ensures |fids| == |pkg.info.files| && FilesNamed(used, pkg.info.files, fids) && nowUsed == used + Elements(fids)
    ensures forall declared, held ::
              var p := Placed(pkg.info, pkg.spdxId, fids, declared, held);
              files == FilesOf(p) && contains == ContainsOf(p)
  {
    hide FilesNamed, IsFirstFree, Stem;
    fids, files, contains, nowUsed := [], [], [], used;
    NoFiles(used, pkg.info.files);
    for i := 0 to |pkg.info.files|
      invariant |fids| == |files| == |contains| == i
      invariant FilesNamed(used, pkg.info.files, fids) && nowUsed == used + Elements(fids)
      invariant forall k :: 0 <= k < i ==>
                  && files[k] == FileEntry(fids[k], pkg.info.files[k].display, pkg.info.files[k].digests)
                  && contains[k] == Relation(pkg.spdxId, "CONTAINS", fids[k])
    {
      var f := pkg.info.files[i];
      var fid;
      fid, nowUsed := SpdxId("File", if |f.display| < 2 then "" else f.display[2..], nowUsed);
      OneMoreFile(used, pkg.info.files, fids, fid);
      assert Elements(fids + [fid]) == Elements(fids) + {fid};
      fids := fids + [fid];
      files := files + [FileEntry(fid, f.display, f.digests)];
      contains := contains + [Relation(pkg.spdxId, "CONTAINS", fid)];
    }
  }

  /** Where a package's licence was converted: from these references, which only grew since. */
  ghost predicate Licensed(st: Setting, from: Refs, now: Refs, p: Placed) {
    var o := Convert(st, from, p.info.licenseRaw, p.info.licenseOrigin);
    ValidRefs(from) && p.declared == o.value && Grows(o.refs, now)
  }

  lemma LicensedStays(st: Setting, from: Refs, now: Refs, later: Refs, p: Placed)
    requires Licensed(st, from, now, p) && Grows(now, later)
    ensures Licensed(st, from, later, p)
  {
  }

  lemma LicenseOkIff(st: Setting, from: Refs, now: Refs, p: Placed)
    requires ValidSetting(st) && Licensed(st, from, now, p)
    ensures E.ProblemsOf(NamesOf(st, now), p.declared) == [] <==> !Spoiled(st, p.info.licenseRaw)
  {
    AcceptedIff(st, from, p.info.licenseRaw, p.info.licenseOrigin, now);
  }

  lemma LeavesIff(rules: Rules, st: Setting, from: Refs, now: Refs, p: Placed)
    requires ValidSetting(st) && Licensed(st, from, now, p)
    ensures LeavesOk(rules, NamesOf(st, now), p) <==> SoundInfo(rules, st, p.info, p.held)
  {
    LicenseOkIff(st, from, now, p);
  }

  // ------------------------------------------------------------- the whole document

  /** The placed packages so far, and where each licence was converted from. */
  ghost predicate LaidOut(st: Setting, base: set<string>, all: seq<Placed>, froms: seq<Refs>,
                          refs: Refs)
  {
    && |froms| == |all|
    && (forall k :: 0 <= k < |all| ==> Matched(all[k]))
    && (forall k :: 0 <= k < |all| ==> Licensed(st, froms[k], refs, all[k]))
    && Fresh(base, AllFileIds(all))
    && (forall x :: x in AllFileIds(all) ==> IsSpdxId(x))
  }

  lemma FreshJoins(base: set<string>, a: seq<string>, b: seq<string>)
    requires Fresh(base, a) && Fresh(base + Elements(a), b)
    ensures Fresh(base, a + b)
  {
    var all := a + b;
    forall j | 0 <= j < |all| ensures all[j] !in base && all[j] !in all[..j] {
      if j < |a| {
        assert all[..j] == a[..j];
      } else {
        assert all[..j] == a + b[..j - |a|] && all[j] == b[j - |a|];
      }
    }
  }

  lemma FilesGrow(all: seq<Placed>, p: Placed)
    ensures AllFileIds(all + [p]) == AllFileIds(all) + p.fileIds
    ensures AllFiles(all + [p]) == AllFiles(all) + FilesOf(p)
    ensures forall root :: AllRelations(root, all + [p]) == AllRelations(root, all) + RelationsOf(root, p)
  {
    assert (all + [p])[..|all|] == all;
  }

  lemma LaysOut(st: Setting, base: set<string>, all: seq<Placed>, froms: seq<Refs>,
                refs: Refs, p: Placed, now: Refs)
    requires LaidOut(st, base, all, froms, refs) && Grows(refs, now)
    requires Matched(p) && Licensed(st, refs, now, p)
    requires Fresh(base + Elements(AllFileIds(all)), p.fileIds) && forall x :: x in p.fileIds ==> IsSpdxId(x)
    ensures LaidOut(st, base, all + [p], froms + [refs], now)
  {
    hide Matched, Licensed, Fresh, IsSpdxId;
    FilesGrow(all, p);
    FreshJoins(base, AllFileIds(all), p.fileIds);
    forall k | 0 <= k < |all| ensures Licensed(st, froms[k], now, all[k]) {
      LicensedStays(st, froms[k], refs, now, all[k]);
    }
  }

  /** Licences are converted one after the other, each from the references the ones before left,
      and files are named one after the other. */
  ghost predicate Traced(st: Setting, first: Refs, used: set<string>, all: seq<Placed>, froms: seq<Refs>, refs: Refs) {
    && |froms| == |all| && (froms + [refs])[0] == first
    && forall k :: 0 <= k < |all| ==> TracedAt(st, used, all, froms + [refs], k)
  }

  ghost predicate TracedAt(st: Setting, used: set<string>, all: seq<Placed>, froms: seq<Refs>, k: int)
    requires 0 <= k < |all| && |froms| == |all| + 1
  {
    var p := all[k];
    && Outcome(p.declared, froms[k + 1]) == Convert(st, froms[k], p.info.licenseRaw, p.info.licenseOrigin)
    && FilesNamed(used + Elements(AllFileIds(all[..k])), p.info.files, p.fileIds)
  }

  lemma NothingTraced(st: Setting, first: Refs, used: set<string>)
    ensures Traced(st, first, used, [], [], first)
  {
  }

  lemma OneMoreTraced(st: Setting, first: Refs, used: set<string>, all: seq<Placed>, froms: seq<Refs>, refs: Refs, p: Placed,
                      now: Refs)
    requires Traced(st, first, used, all, froms, refs)
    requires Outcome(p.declared, now) == Convert(st, refs, p.info.licenseRaw, p.info.licenseOrigin)
    requires FilesNamed(used + Elements(AllFileIds(all)), p.info.files, p.fileIds)
    ensures Traced(st, first, used, all + [p], froms + [refs], now)
  {
    hide Convert, FilesNamed, AllFileIds;
    var more, refsThen := all + [p], froms + [refs] + [now];
    forall k | 0 <= k < |more| ensures TracedAt(st, used, more, refsThen, k) {
      assert more[..k] == all[..k];
      if k < |all| {
        assert TracedAt(st, used, all, froms + [refs], k);
      } else {
        assert all[..k] == all;
      }
    }
  }

  function ExtraOf(extra: seq<(Package, string, Package)>): seq<Relation>
    reads set r | r in extra :: r.0, set r | r in extra :: r.2
  {
    seq(|extra|, i requires 0 <= i < |extra|
      reads set r | r in extra :: r.0, set r | r in extra :: r.2
      => Relation(extra[i].0.spdxId, extra[i].1, extra[i].2.spdxId))
  }

  predicate IsHeld(root: Package, notContained: seq<Package>, pkg: Package) {
    pkg != root && pkg !in notContained
  }

  /** Identifiers repeat exactly when a package is listed twice. */
  lemma RepeatedIffListedTwice(pkgs: seq<Package>, all: seq<Placed>, ids: map<Package, string>, used: set<string>)
    requires Identified(ids, used) && |all| == |pkgs|
    requires forall k :: 0 <= k < |pkgs| ==> pkgs[k] in ids && all[k].id == ids[pkgs[k]]
    ensures DifferentIds(all) <==> Distinct(pkgs)
  {
    if Distinct(pkgs) {
      forall k, l | 0 <= k < l < |all| ensures all[k].id != all[l].id {
        assert pkgs[k] != pkgs[l];
      }
    } else {
      var k, l :| 0 <= k < l < |pkgs| && pkgs[k] == pkgs[l];
      assert all[k].id == all[l].id;
    }
  }

  /** all describes the packages listed. */
  ghost predicate Places(all: seq<Placed>, pkgs: seq<Package>, root: Package, notContained: seq<Package>)
    reads pkgs
  {
    && |all| <= |pkgs|
    && forall k :: 0 <= k < |all| ==>
         && all[k].info == pkgs[k].info && all[k].id == pkgs[k].spdxId
         && (all[k].held <==> pkgs[k] != root && pkgs[k] !in notContained)
  }

  /** A package placed from these references and identifiers: its licence is converted, which may
      declare more references, and each file has its identifier. */
  ghost predicate PlacedFrom(st: Setting, refs: Refs, now: Refs, used: set<string>, p: Placed) {
    && ValidRefs(now) && Grows(refs, now) && Licensed(st, refs, now, p) && Matched(p)
    && Outcome(p.declared, now) == Convert(st, refs, p.info.licenseRaw, p.info.licenseOrigin)
    && FilesNamed(used, p.info.files, p.fileIds)
  }

  /** One package: its entry, its files and its relations. */
  method PlaceOne(rules: Rules, root: Package, pkg: Package, licenses: Licenses, held: bool, used: set<string>)
    returns (entry: PackageEntry, files: seq<FileEntry>, rels: seq<Relation>, nowUsed: set<string>, ghost p: Placed)
    requires ValidSetting(licenses.st) && ValidRefs(licenses.refs) && FilesMatched(pkg.info)
    modifies licenses
    ensures p.info == pkg.info && p.id == pkg.spdxId && p.held == held && nowUsed == used + Elements(p.fileIds)
    ensures PlacedFrom(licenses.st, old(licenses.refs), licenses.refs, used, p)
    ensures entry == Entry(rules, p) && files == FilesOf(p) && rels == RelationsOf(root.spdxId, p)
  {
    hide Convert, ValidSetting, IsSpdxId, OneOfEach, VerificationCode;
    ConvertGrows(licenses.st, licenses.refs, pkg.info.licenseRaw, pkg.info.licenseOrigin);
    var declared := licenses.Expression(pkg.info.licenseRaw, pkg.info.licenseOrigin);
    var code := if pkg.info.files != [] then Some(VerificationCode(rules, RawSha1s(pkg.info.files))) else None;
    entry := PackageEntry(pkg.spdxId, pkg.info.name, declared, pkg.info.files != [], code);
    rels := if held then [Relation(root.spdxId, pkg.info.relation, pkg.spdxId)] else [];
    var fids, contains;
    fids, files, contains, nowUsed := PlaceFiles(pkg, used);
    rels := rels + contains;
    p := Placed(pkg.info, pkg.spdxId, fids, declared, held);
    assert files == FilesOf(p) && contains == ContainsOf(p);
  }

  datatype Layout = Layout(packages: seq<PackageEntry>, files: seq<FileEntry>, relations: seq<Relation>)

  function LayoutOf(rules: Rules, root: string, all: seq<Placed>): Layout {
    Layout(Entries(rules, all), AllFiles(all), AllRelations(root, all))
  }

  lemma NothingUsed()
    ensures AllFileIds([]) == [] && Elements<string>([]) == {}
  {
  }

  lemma OneMoreUsed(used: set<string>, all: seq<Placed>, p: Placed)
    ensures used + Elements(AllFileIds(all)) + Elements(p.fileIds) == used + Elements(AllFileIds(all + [p]))
  {
    FilesGrow(all, p);
    assert Elements(AllFileIds(all) + p.fileIds) == Elements(AllFileIds(all)) + Elements(p.fileIds);
  }

  lemma LayoutGrows(rules: Rules, root: string, all: seq<Placed>, p: Placed)
    ensures var before, after := LayoutOf(rules, root, all), LayoutOf(rules, root, all + [p]);
            after == Layout(before.packages + [Entry(rules, p)], before.files + FilesOf(p),
                            before.relations + RelationsOf(root, p))
  {
    FilesGrow(all, p);
    assert Entries(rules, all + [p]) == Entries(rules, all) + [Entry(rules, p)];
  }

  /** The loop over the packages. */
  method LayOut(rules: Rules, root: Package, pkgs: seq<Package>, licenses: Licenses, notContained: seq<Package>,
                firstUsed: set<string>)
    returns (r: Layout, ghost all: seq<Placed>, ghost froms: seq<Refs>)
    requires ValidSetting(licenses.st) && ValidRefs(licenses.refs)
    requires forall p :: p in pkgs ==> FilesMatched(p.info)
    modifies licenses
    ensures |all| == |pkgs| && Places(all, pkgs, root, notContained)
    ensures ValidRefs(licenses.refs) && Grows(old(licenses.refs), licenses.refs)
    ensures LaidOut(licenses.st, firstUsed + {DOCUMENT_ID}, all, froms, licenses.refs)
    ensures Traced(licenses.st, old(licenses.refs), firstUsed, all, froms, licenses.refs)
    ensures r == LayoutOf(rules, root.spdxId, all)
  {
    assert Places([], pkgs, root, notContained);
    hide ValidSetting, FilesMatched, Matched, Licensed, Fresh, Entry, FilesOf, RelationsOf, Places, IsHeld, AllFileIds,
      LayoutOf, Kept, PlacedFrom, ValidRefs, Grows, LaidOut, Traced, Elements;
    var used := firstUsed;
    r, all, froms := Layout([], [], []), [], [];
    NothingKept(licenses.st, licenses.refs, used);
    assert AllFileIds([]) == [] && Elements<string>([]) == {} by { NothingUsed(); }
    NoLayout(rules, root.spdxId);
    for i := 0 to |pkgs|
      invariant |all| == i && Places(all, pkgs, root, notContained)
      invariant Kept(licenses.st, old(licenses.refs), firstUsed, all, froms, licenses.refs)
      invariant used == firstUsed + Elements(AllFileIds(all))
      invariant r == LayoutOf(rules, root.spdxId, all)
    {
      ghost var from := licenses.refs;
      KeptIs(licenses.st, old(licenses.refs), firstUsed, all, froms, from);
      var entry, files, rels, nowUsed;
      ghost var p;
      entry, files, rels, nowUsed, p := PlaceOne(rules, root, pkgs[i], licenses, IsHeld(root, notContained, pkgs[i]), used);
      LayoutGrows(rules, root.spdxId, all, p);
      OneMoreUsed(firstUsed, all, p);
      OneMorePlaced(all, pkgs, root, notContained, p);
      OneMoreKept(licenses.st, old(licenses.refs), firstUsed, all, froms, from, p, licenses.refs);
      r := Layout(r.packages + [entry], r.files + files, r.relations + rels);
      all, froms, used := all + [p], froms + [from], nowUsed;
    }
    KeptIs(licenses.st, old(licenses.refs), firstUsed, all, froms, licenses.refs);
  }

  /** What the loop over the packages keeps of references and identifiers. */
  ghost predicate Kept(st: Setting, first: Refs, used: set<string>, all: seq<Placed>, froms: seq<Refs>, refs: Refs) {
    && ValidRefs(refs) && Grows(first, refs) && LaidOut(st, used + {DOCUMENT_ID}, all, froms, refs)
    && Traced(st, first, used, all, froms, refs)
  }

  lemma KeptIs(st: Setting, first: Refs, used: set<string>, all: seq<Placed>, froms: seq<Refs>, refs: Refs)
    requires Kept(st, first, used, all, froms, refs)
    ensures ValidRefs(refs) && Grows(first, refs) && LaidOut(st, used + {DOCUMENT_ID}, all, froms, refs)
    ensures Traced(st, first, used, all, froms, refs)
  {
  }

  lemma NothingKept(st: Setting, first: Refs, used: set<string>)
    requires ValidRefs(first)
    ensures Kept(st, first, used, [], [], first)
  {
    NothingLaidOut(st, used + {DOCUMENT_ID}, first);
    NothingTraced(st, first, used);
  }

  lemma OneMoreKept(st: Setting, first: Refs, used: set<string>, all: seq<Placed>, froms: seq<Refs>, refs: Refs, p: Placed,
                    now: Refs)
    requires Kept(st, first, used, all, froms, refs)
    requires PlacedFrom(st, refs, now, used + Elements(AllFileIds(all)), p)
    ensures Kept(st, first, used, all + [p], froms + [refs], now)
  {
    hide Matched, Licensed, Convert, AllFileIds, LaidOut, Traced, IsSpdxId, FileNamed, ValidRefs, Grows;
    KeptIs(st, first, used, all, froms, refs);
    OneMoreTraced(st, first, used, all, froms, refs, p, now);
    GrowsTrans(first, refs, now);
    FreshWithDocument(used + Elements(AllFileIds(all)), p.fileIds);
    assert used + {DOCUMENT_ID} + Elements(AllFileIds(all)) == used + Elements(AllFileIds(all)) + {DOCUMENT_ID};
    LaysOut(st, used + {DOCUMENT_ID}, all, froms, refs, p, now);
  }

  lemma NothingLaidOut(st: Setting, base: set<string>, refs: Refs)
    ensures LaidOut(st, base, [], [], refs) && Grows(refs, refs)
  {
  }

  lemma NoLayout(rules: Rules, root: string)
    ensures LayoutOf(rules, root, []) == Layout([], [], []) && AllFileIds([]) == []
  {
  }

  lemma OneMorePlaced(all: seq<Placed>, pkgs: seq<Package>, root: Package, notContained: seq<Package>, p: Placed)
    requires Places(all, pkgs, root, notContained) && |all| < |pkgs|
    requires var pkg := pkgs[|all|];
             p.info == pkg.info && p.id == pkg.spdxId && p.held == IsHeld(root, notContained, pkg)
    ensures Places(all + [p], pkgs, root, notContained)
  {
  }

  lemma FreshWithDocument(used: set<string>, ids: seq<string>)
    requires Fresh(used, ids) && DOCUMENT_ID !in ids
    ensures Fresh(used + {DOCUMENT_ID}, ids)
  {
  }

  lemma LeavesAllIff(rules: Rules, st: Setting, froms: seq<Refs>, now: Refs, base: set<string>, all: seq<Placed>)
    requires ValidSetting(st) && LaidOut(st, base, all, froms, now)
    ensures forall k :: 0 <= k < |all| ==>
              (LeavesOk(rules, NamesOf(st, now), all[k]) <==> SoundInfo(rules, st, all[k].info, all[k].held))
  {
    forall k | 0 <= k < |all|
      ensures LeavesOk(rules, NamesOf(st, now), all[k]) <==> SoundInfo(rules, st, all[k].info, all[k].held) {
      LeavesIff(rules, st, froms[k], now, all[k]);
    }
  }

  /** What the validator asks of the packages: none is listed twice, the added relations have known
      types, and each package is sound. */
  ghost predicate Acceptable(rules: Rules, st: Setting, root: Package, components: seq<Package>,
                             extra: seq<(Package, string, Package)>, notContained: seq<Package>) {
    && Distinct([root] + components)
    && (forall e :: e in extra ==> e.1 in rules.relationTypes)
    && forall p :: p in [root] + components ==> SoundInfo(rules, st, p.info, p != root && p !in notContained)
  }

  lemma AcceptableIff(rules: Rules, st: Setting, root: Package, components: seq<Package>,
                      extra: seq<(Package, string, Package)>, notContained: seq<Package>)
    ensures Acceptable(rules, st, root, components, extra, notContained) <==>
            && Distinct([root] + components)
            && (forall k :: 0 <= k < |extra| ==> ExtraOf(extra)[k].kind in rules.relationTypes)
            && forall p :: p in [root] + components ==> SoundInfo(rules, st, p.info, IsHeld(root, notContained, p))
  {
    hide SoundInfo, Distinct;
    if forall k :: 0 <= k < |extra| ==> ExtraOf(extra)[k].kind in rules.relationTypes {
      forall e | e in extra ensures e.1 in rules.relationTypes {
        var k :| 0 <= k < |extra| && extra[k] == e;
        assert ExtraOf(extra)[k].kind == e.1;
      }
    }
    forall k | 0 <= k < |extra| ensures ExtraOf(extra)[k].kind == extra[k].1 && extra[k] in extra {
    }
  }

  /** The relations of the document: it describes the root, the root relates to every component
      but itself and those not contained, each package contains its files, and the added ones. */
  ghost predicate Related(root: Package, components: seq<Package>, extra: seq<(Package, string, Package)>,
                          notContained: seq<Package>, all: seq<Placed>, r: Relation)
    reads root, components, set e | e in extra :: e.0, set e | e in extra :: e.2
  {
    || r == Relation("SPDXRef-DOCUMENT", "DESCRIBES", root.spdxId)
    || (exists p :: p in components && p != root && p !in notContained && r == Relation(root.spdxId, p.info.relation, p.spdxId))
    || (exists k, j :: 0 <= k < |all| && 0 <= j < |all[k].fileIds| && r == Relation(all[k].id, "CONTAINS", all[k].fileIds[j]))
    || (exists e :: e in extra && r == Relation(e.0.spdxId, e.1, e.2.spdxId))
  }

  lemma RelatedIff(rules: Rules, root: Package, components: seq<Package>, extra: seq<(Package, string, Package)>,
                   notContained: seq<Package>, all: seq<Placed>, extracted: seq<string>, r: Relation)
    requires |all| == 1 + |components| && Places(all, [root] + components, root, notContained)
    ensures r in DocumentOf(rules, all, ExtraOf(extra), extracted).relations <==>
            Related(root, components, extra, notContained, all, r)
  {
    var pkgs := [root] + components;
    RelationIff(rules, all, ExtraOf(extra), extracted, r);
    AddedIff(extra, r);
    assert all[0].id == root.spdxId;
    if k :| 0 <= k < |all| && all[k].held && r == Relation(all[0].id, all[k].info.relation, all[k].id) {
      assert pkgs[k] == components[k - 1];
    }
    if p :| p in components && p != root && p !in notContained && r == Relation(root.spdxId, p.info.relation, p.spdxId) {
      var k :| 0 <= k < |components| && components[k] == p;
      assert pkgs[k + 1] == p && all[k + 1].held;
    }
  }

  lemma AddedIff(extra: seq<(Package, string, Package)>, r: Relation)
    ensures r in ExtraOf(extra) <==> exists e :: e in extra && r == Relation(e.0.spdxId, e.1, e.2.spdxId)
  {
    if e :| e in extra && r == Relation(e.0.spdxId, e.1, e.2.spdxId) {
      var k :| 0 <= k < |extra| && extra[k] == e;
      assert ExtraOf(extra)[k] == r;
    }
    if r in ExtraOf(extra) {
      var k :| 0 <= k < |ExtraOf(extra)| && ExtraOf(extra)[k] == r;
      assert extra[k] in extra;
    }
  }

  lemma PlacedAsIdentified(all: seq<Placed>, pkgs: seq<Package>, root: Package, notContained: seq<Package>, ids: map<Package, string>)
    requires |all| == |pkgs| && Places(all, pkgs, root, notContained) && ids == IdsOf(Elements(pkgs))
    ensures forall k :: 0 <= k < |pkgs| ==> pkgs[k] in ids && all[k].id == ids[pkgs[k]]
  {
  }

  lemma DocumentIs(rules: Rules, root: Package, all: seq<Placed>, pkgs: seq<Package>, notContained: seq<Package>, r: Layout,
                   extra: seq<Relation>, extracted: seq<string>)
    requires |all| == |pkgs| > 0 && Places(all, pkgs, root, notContained) && pkgs[0] == root
    requires r == LayoutOf(rules, root.spdxId, all)
    ensures Document(extracted, r.packages, r.files, [Relation(DOCUMENT_ID, "DESCRIBES", root.spdxId)] + r.relations + extra)
         == DocumentOf(rules, all, extra, extracted)
  {
  }

  /** The document, and exactly when the validator accepts it. */
  method BuildDocument(rules: Rules, root: Package, components: seq<Package>, licenses: Licenses,
                       extra: seq<(Package, string, Package)>, notContained: seq<Package>)
    returns (doc: Document, ghost all: seq<Placed>, ghost used: set<string>, ghost froms: seq<Refs>)
    requires ValidRules(rules) && ValidSetting(licenses.st) && ValidRefs(licenses.refs)
    requires rules.licenses == licenses.st.licenses && rules.exceptions == licenses.st.exceptions
    requires forall p :: p in [root] + components ==> FilesMatched(p.info)
    requires forall r :: r in extra ==> r.0 in [root] + components && r.2 in [root] + components
    modifies root, components, licenses
    ensures |all| == 1 + |components| && Places(all, [root] + components, root, notContained)
    ensures WellPlaced(all, ExtraOf(extra), doc.extracted)
    ensures doc == DocumentOf(rules, all, ExtraOf(extra), doc.extracted)
    ensures Elements(doc.extracted) == licenses.refs.Keys && Grows(old(licenses.refs), licenses.refs)
    ensures Distinct([root] + components) ==> Named(root, [root] + components, used)
    ensures Traced(licenses.st, old(licenses.refs), used, all, froms, licenses.refs)
    ensures forall r :: r in doc.relations <==> Related(root, components, extra, notContained, all, r)
    ensures ValidDocument(rules, doc) <==> Acceptable(rules, licenses.st, root, components, extra, notContained)
  {
    hide ValidDocument, WellPlaced, SoundInfo, LaidOut, Identified, ValidSetting, ValidRules, ValidRefs, AllRelations, AllFiles,
      Named, Traced, Related, Acceptable, IsHeld, Places, IdsOf, DocumentOf, LayoutOf, Ids, Grows, FilesMatched;
    var nowUsed := AssignIds(root, components);
    used := nowUsed;
    var pkgs := [root] + components;
    ghost var ids := IdsOf(Elements(pkgs));
    var r;
    r, all, froms := LayOut(rules, root, pkgs, licenses, notContained, nowUsed);
    var extracted := Text.SortedSet(licenses.refs.Keys);
    doc := Document(extracted, r.packages, r.files,
                    [Relation(DOCUMENT_ID, "DESCRIBES", root.spdxId)] + r.relations + ExtraOf(extra));
    assert ids == IdsOf(Elements(pkgs));
    DocumentIs(rules, root, all, pkgs, notContained, r, ExtraOf(extra), extracted);
    PlacedAsIdentified(all, pkgs, root, notContained, ids);
    ExtraPlaced(all, pkgs, root, notContained, extra);
    Concludes(rules, licenses.st, pkgs, all, ids, used, froms, licenses.refs, ExtraOf(extra), extracted);
    SoundEverywhere(rules, licenses.st, all, pkgs, root, notContained);
    AcceptableIff(rules, licenses.st, root, components, extra, notContained);
    forall r ensures r in doc.relations <==> Related(root, components, extra, notContained, all, r) {
      RelatedIff(rules, root, components, extra, notContained, all, extracted, r);
    }
  }

  lemma ExtraPlaced(all: seq<Placed>, pkgs: seq<Package>, root: Package, notContained: seq<Package>,
                    extra: seq<(Package, string, Package)>)
    requires |all| == |pkgs| && Places(all, pkgs, root, notContained)
    requires forall r :: r in extra ==> r.0 in pkgs && r.2 in pkgs
    ensures forall k :: 0 <= k < |extra| ==> ExtraOf(extra)[k].from in Ids(all) && ExtraOf(extra)[k].to in Ids(all)
  {
    forall k | 0 <= k < |extra| ensures ExtraOf(extra)[k].from in Ids(all) && ExtraOf(extra)[k].to in Ids(all) {
      var r := extra[k];
      assert r in extra;
      var a :| 0 <= a < |pkgs| && pkgs[a] == r.0;
      var b :| 0 <= b < |pkgs| && pkgs[b] == r.2;
      assert Ids(all)[a] == r.0.spdxId && Ids(all)[b] == r.2.spdxId;
    }
  }

  lemma SoundEverywhere(rules: Rules, st: Setting, all: seq<Placed>, pkgs: seq<Package>, root: Package, notContained: seq<Package>)
    requires |all| == |pkgs| && Places(all, pkgs, root, notContained)
    ensures (forall k :: 0 <= k < |all| ==> SoundInfo(rules, st, all[k].info, all[k].held)) <==>
            (forall p :: p in pkgs ==> SoundInfo(rules, st, p.info, IsHeld(root, notContained, p)))
  {
    hide SoundInfo;
    if forall p :: p in pkgs ==> SoundInfo(rules, st, p.info, IsHeld(root, notContained, p)) {
      forall k | 0 <= k < |all| ensures SoundInfo(rules, st, all[k].info, all[k].held) {
        assert pkgs[k] in pkgs;
      }
    }
  }

  /** What the loop leaves, judged. */
  lemma Concludes(rules: Rules, st: Setting, pkgs: seq<Package>, all: seq<Placed>, ids: map<Package, string>, used: set<string>,
                  froms: seq<Refs>, refs: Refs, extra: seq<Relation>, extracted: seq<string>)
    requires ValidRules(rules) && ValidSetting(st) && ValidRefs(refs)
    requires rules.licenses == st.licenses && rules.exceptions == st.exceptions
    requires Identified(ids, used) && |all| == |pkgs| > 0
    requires forall k :: 0 <= k < |pkgs| ==> pkgs[k] in ids && all[k].id == ids[pkgs[k]]
    requires LaidOut(st, used + {DOCUMENT_ID}, all, froms, refs)
    requires forall k :: 0 <= k < |extra| ==> extra[k].from in Ids(all) && extra[k].to in Ids(all)
    requires Distinct(extracted) && Elements(extracted) == refs.Keys
    ensures WellPlaced(all, extra, extracted)
    ensures ValidDocument(rules, DocumentOf(rules, all, extra, extracted)) <==>
            && Distinct(pkgs)
            && (forall k :: 0 <= k < |extra| ==> extra[k].kind in rules.relationTypes)
            && (forall k :: 0 <= k < |all| ==> SoundInfo(rules, st, all[k].info, all[k].held))
  {
    hide SoundInfo, LeavesOk, ValidDocument;
    PlacedWell(st, pkgs, all, ids, used, froms, refs, extra, extracted);
    ValidIff(rules, all, extra, extracted);
    RepeatedIffListedTwice(pkgs, all, ids, used);
    LeavesAllIff(rules, st, froms, refs, used + {DOCUMENT_ID}, all);
    assert NamesIn(rules, DocumentOf(rules, all, extra, extracted)) == NamesOf(st, refs);
  }

  lemma PlacedWell(st: Setting, pkgs: seq<Package>, all: seq<Placed>, ids: map<Package, string>, used: set<string>,
                   froms: seq<Refs>, refs: Refs, extra: seq<Relation>, extracted: seq<string>)
    requires ValidRefs(refs) && Identified(ids, used) && |all| == |pkgs| > 0
    requires forall k :: 0 <= k < |pkgs| ==> pkgs[k] in ids && all[k].id == ids[pkgs[k]]
    requires LaidOut(st, used + {DOCUMENT_ID}, all, froms, refs)
    requires forall k :: 0 <= k < |extra| ==> extra[k].from in Ids(all) && extra[k].to in Ids(all)
    requires Distinct(extracted) && Elements(extracted) == refs.Keys
    ensures WellPlaced(all, extra, extracted)
  {
    hide Licensed, Matched, IsSpdxId;
    forall x | x in Ids(all) ensures x in used {
      var k :| 0 <= k < |all| && Ids(all)[k] == x;
    }
    FreshFewer({DOCUMENT_ID} + Elements(Ids(all)), used + {DOCUMENT_ID}, AllFileIds(all));
    forall i | 0 <= i < |extracted| ensures IsRef(extracted[i]) {
      assert extracted[i] in Elements(extracted);
    }
  }

  lemma FreshFewer(few: set<string>, base: set<string>, ids: seq<string>)
    requires few <= base && Fresh(base, ids)
    ensures Fresh(few, ids)
  {
  }
}
