/** Whole files: overlay copies of files that live in a DEPS subproject, the
    subproject commit each was last merged with, and how rebases move it. */
module WholeFiles {
  import opened Octets
  import opened Options

  /** A gitlink: the subproject a path lies in, and the commit DEPS pins there. */
  datatype Link = Link(subproject: string, commit: string)

  /** One line of whole_files.txt; an old line may lack the commit, and a recorded
      commit may come without a release that pins it. */
  datatype Entry = Unrecorded | Recorded(link: Link, release: Option<string>)

  /** The Chromium pin. */
  datatype Pin = Pin(version: string, revision: string)

  /** What asking for a file of a subproject at a commit gives. */
  datatype Fetched = Unavailable | Absent | Content(bytes: Bytes)

  /** Upstream content within reach during one run of the tool. */
  datatype Sources = Sources(fetch: (Link, string) -> Fetched, mirrored: Link -> bool)

  /** What never changes: Chromium's history, git merge-file, and how files are told apart. */
  datatype Env = Env(
    gitlink: (string, string) -> Option<Link>,
    merge: (Bytes, Bytes, Bytes) -> (Bytes, nat),
    isBinary: Bytes -> bool,
    ownName: string -> bool)

  datatype Status =
    | DepsDeleted | DepsUnchanged | DepsUnavailable | DepsOwn | DepsCollision
    | DepsKept | DepsBinary | DepsConflict | DepsEmpty | DepsClean

  /** Needs a person before --apply. */
  predicate Blocking(s: Status) {
    s.DepsConflict? || s.DepsDeleted? || s.DepsCollision? || s.DepsUnavailable?
  }

  /** The file now matches the new subproject commit. */
  predicate Merged(s: Status) {
    s.DepsClean? || s.DepsEmpty? || s.DepsConflict? || s.DepsKept? || s.DepsOwn? || s.DepsBinary?
  }

  /** The result for one whole file; merged is what goes to src/. */
  datatype Item = Item(status: Status, merged: Option<Bytes>)

  // ----- the functions of the source

  /** The entry a whole file inside `link` has: the recorded one, or for a new file
      the pin's. */
  function KeptEntry(rec: Entry, link: Link, pinVersion: string): Entry {
    if rec.Recorded? && rec.link.subproject == link.subproject then
      Recorded(rec.link,
        if rec.release.Some? then rec.release
        else if rec.link.commit == link.commit then Some(pinVersion) else None)
    else Recorded(link, Some(pinVersion))
  }

  function RecordOf(recorded: map<string, Entry>, path: string): Entry {
    if path in recorded then recorded[path] else Unrecorded
  }

  /** merge_deps as a function of what it looks up. */
  function ItemOf(env: Env, sources: Sources, path: string, from: Link, link: Option<Link>, ours: Bytes): Item {
    if link.None? then Item(DepsDeleted, None)
    else if from == link.value then Item(DepsUnchanged, None)
    else
      var base, theirs := sources.fetch(from, path), sources.fetch(link.value, path);
      if base.Unavailable? || theirs.Unavailable? then Item(DepsUnavailable, None)
      else if base.Absent? && theirs.Absent? then
        Item(if (sources.mirrored(from) && sources.mirrored(link.value)) || env.ownName(path) then DepsOwn else DepsUnavailable, None)
      else if base.Absent? then Item(DepsCollision, None)
      else if theirs.Absent? then Item(DepsDeleted, None)
      else if base == theirs then Item(DepsKept, None)
      else if env.isBinary(base.bytes) || env.isBinary(ours) || env.isBinary(theirs.bytes) then Item(DepsBinary, None)
      else
        var (merged, conflicts) := env.merge(base.bytes, ours, theirs.bytes);
        Item(if conflicts > 0 then DepsConflict else if merged == theirs.bytes then DepsEmpty else DepsClean, Some(merged))
  }

  /** The overlay: the pin, whole_files.txt, and the contents of src/. */
  datatype Overlay = Overlay(pin: Pin, recorded: map<string, Entry>, contents: map<string, Bytes>)

  /** The overlay paths inside a DEPS subproject at the pin. */
  function DepsPaths(env: Env, o: Overlay): set<string> {
    set p | p in o.contents && env.gitlink(o.pin.revision, p).Some?
  }

  /** overlay_to_patches.py rewrites whole_files.txt. */
  function Generate(env: Env, o: Overlay): Overlay {
    o.(recorded := map p | p in DepsPaths(env, o) ::
      KeptEntry(RecordOf(o.recorded, p), env.gitlink(o.pin.revision, p).value, o.pin.version))
  }

  /** The old side of the merge of a whole file. */
  function OldEntry(env: Env, o: Overlay, p: string): Entry
    requires p in DepsPaths(env, o)
  {
    KeptEntry(RecordOf(o.recorded, p), env.gitlink(o.pin.revision, p).value, o.pin.version)
  }

  function PlannedItem(env: Env, o: Overlay, to: Pin, sources: Sources, p: string): Item
    requires p in DepsPaths(env, o)
  {
    ItemOf(env, sources, p, OldEntry(env, o, p).link, env.gitlink(to.revision, p), o.contents[p])
  }

  /** Some file needs a person: a whole file, or one of the `others` patched files. */
  predicate IsBlocked(env: Env, o: Overlay, to: Pin, sources: Sources, others: nat) {
    others > 0 || exists p :: p in DepsPaths(env, o) && Blocking(PlannedItem(env, o, to, sources, p).status)
  }

  function NewEntry(env: Env, o: Overlay, to: Pin, sources: Sources, p: string): Entry
    requires p in DepsPaths(env, o)
  {
    if Merged(PlannedItem(env, o, to, sources, p).status) && env.gitlink(to.revision, p).Some?
    then Recorded(env.gitlink(to.revision, p).value, Some(to.version))
    else OldEntry(env, o, p)
  }

  function NewEntries(env: Env, o: Overlay, to: Pin, sources: Sources): map<string, Entry> {
    map p | p in DepsPaths(env, o) :: NewEntry(env, o, to, sources, p)
  }

  function NewContent(env: Env, o: Overlay, to: Pin, sources: Sources, writes: map<string, Bytes>, p: string): Bytes
    requires p in o.contents
  {
    if p in DepsPaths(env, o) then
      (if PlannedItem(env, o, to, sources, p).merged.Some? then PlannedItem(env, o, to, sources, p).merged.value else o.contents[p])
    else if p in writes then writes[p] else o.contents[p]
  }

  /** rebase.py --apply; writes: the merges of patched files. */
  function Rebase(env: Env, o: Overlay, to: Pin, allow: bool, sources: Sources, others: nat, writes: map<string, Bytes>): Overlay {
    if IsBlocked(env, o, to, sources, others) && !allow then o
    else
      Overlay(to, NewEntries(env, o, to, sources),
              map p | p in o.contents :: NewContent(env, o, to, sources, writes, p))
  }

  /** The whole files whose recorded commit is not the pin's gitlink. */
  function Behind(env: Env, pin: Pin, recorded: map<string, Entry>): set<string> {
    set p | p in recorded && !(recorded[p].Recorded? && env.gitlink(pin.revision, p) == Some(recorded[p].link))
  }

  // ----- what a merge guarantees

  /** The old and the new upstream content are both known, and either both exist or
      neither does and that is sure. */
  predicate Comparable(env: Env, sources: Sources, path: string, from: Link, to: Link) {
    var base, theirs := sources.fetch(from, path), sources.fetch(to, path);
    || (base.Content? && theirs.Content?)
    || (base.Absent? && theirs.Absent? && ((sources.mirrored(from) && sources.mirrored(to)) || env.ownName(path)))
  }

  /** A file counts as merged exactly when its subproject moved and both sides compare; its
      content changes only by merging two upstream texts that differ, and without a change
      upstream gave it nothing, or something that cannot be merged as text. */
  lemma MergeGuarantees(env: Env, sources: Sources, path: string, from: Link, link: Option<Link>, ours: Bytes)
    ensures var item := ItemOf(env, sources, path, from, link, ours);
            && (Merged(item.status) <==> link.Some? && link.value != from && Comparable(env, sources, path, from, link.value))
            && (item.merged.Some? ==>
                  && Merged(item.status)
                  && var base, theirs := sources.fetch(from, path), sources.fetch(link.value, path);
                     base.Content? && theirs.Content? && base != theirs
                     && item.merged.value == env.merge(base.bytes, ours, theirs.bytes).0)
            && (Merged(item.status) && item.merged.None? ==>
                  var base, theirs := sources.fetch(from, path), sources.fetch(link.value, path);
                  base == theirs || env.isBinary(base.bytes) || env.isBinary(ours) || env.isBinary(theirs.bytes))
  {
  }

  /** Two upstream texts that differ, and nothing binary. */
  predicate NeedsMerge(env: Env, base: Fetched, ours: Bytes, theirs: Fetched) {
    && base.Content? && theirs.Content? && base.bytes != theirs.bytes
    && !env.isBinary(base.bytes) && !env.isBinary(ours) && !env.isBinary(theirs.bytes)
  }

  /** What a whole file needs a person for: its subproject is gone, or it moved and the sides cannot
      be compared, or merging three different texts leaves conflicts. */
  ghost predicate NeedsPerson(env: Env, sources: Sources, path: string, from: Link, link: Option<Link>, ours: Bytes) {
    || link == None
    || (link != Some(from)
        && (|| !Comparable(env, sources, path, from, link.value)
            || (&& NeedsMerge(env, sources.fetch(from, path), ours, sources.fetch(link.value, path))
                && env.merge(sources.fetch(from, path).bytes, ours, sources.fetch(link.value, path).bytes).1 > 0)))
  }

  lemma BlockingIff(env: Env, sources: Sources, path: string, from: Link, link: Option<Link>, ours: Bytes)
    ensures Blocking(ItemOf(env, sources, path, from, link, ours).status) <==> NeedsPerson(env, sources, path, from, link, ours)
  {
  }

  /** An apply is held up by any patched file that needs a person, and by any whole file that does. */
  lemma BlockedIff(env: Env, o: Overlay, to: Pin, sources: Sources, others: nat)
    ensures IsBlocked(env, o, to, sources, others) <==>
            || others >= 1
            || exists p :: p in DepsPaths(env, o)
                 && NeedsPerson(env, sources, p, OldEntry(env, o, p).link, env.gitlink(to.revision, p), o.contents[p])
  {
    hide NeedsPerson, Blocking, ItemOf;
    forall p | p in DepsPaths(env, o)
      ensures Blocking(PlannedItem(env, o, to, sources, p).status) <==>
              NeedsPerson(env, sources, p, OldEntry(env, o, p).link, env.gitlink(to.revision, p), o.contents[p]) {
      BlockingIff(env, sources, p, OldEntry(env, o, p).link, env.gitlink(to.revision, p), o.contents[p]);
    }
  }

  /** An --apply that goes through without --allow-conflicts writes, of every whole file, its
      own text or a merge without conflicts. */
  lemma NoConflictUnasked(env: Env, o: Overlay, to: Pin, sources: Sources, others: nat, writes: map<string, Bytes>, p: string)
    requires !IsBlocked(env, o, to, sources, others) && p in DepsPaths(env, o)
    ensures env.gitlink(to.revision, p).Some?
    ensures var base, theirs := sources.fetch(OldEntry(env, o, p).link, p), sources.fetch(env.gitlink(to.revision, p).value, p);
            var new' := Rebase(env, o, to, false, sources, others, writes).contents[p];
            || new' == o.contents[p]
            || (NeedsMerge(env, base, o.contents[p], theirs) && env.merge(base.bytes, o.contents[p], theirs.bytes) == (new', 0))
  {
    hide ItemOf;
    var from, link := OldEntry(env, o, p).link, env.gitlink(to.revision, p);
    assert !Blocking(PlannedItem(env, o, to, sources, p).status);
    BlockingIff(env, sources, p, from, link, o.contents[p]);
    MergedText(env, sources, p, from, link, o.contents[p]);
  }

  /** The text an item carries is the merge, and only of texts that need one. */
  lemma MergedText(env: Env, sources: Sources, path: string, from: Link, link: Option<Link>, ours: Bytes)
    ensures var item := ItemOf(env, sources, path, from, link, ours);
            item.merged.Some? <==> && link.Some? && link.value != from
                                   && NeedsMerge(env, sources.fetch(from, path), ours, sources.fetch(link.value, path))
    ensures var item := ItemOf(env, sources, path, from, link, ours);
            item.merged.Some? ==>
              var theirs := sources.fetch(link.value, path).bytes;
              var result := env.merge(sources.fetch(from, path).bytes, ours, theirs);
              && item.merged.value == result.0
              && (item.status == DepsConflict <==> result.1 > 0)
              && (item.status == DepsEmpty <==> result.1 == 0 && result.0 == theirs)
  {
  }

  /** What git merge-file does when only upstream changed the file. */
  ghost predicate TakesTheirs(env: Env) {
    forall base, theirs :: env.merge(base, base, theirs) == (theirs, 0)
  }

  /** A whole file nobody changed here follows upstream, text by text, and needs no person. */
  lemma UnchangedFollows(env: Env, o: Overlay, to: Pin, sources: Sources, writes: map<string, Bytes>, p: string)
    requires TakesTheirs(env) && p in DepsPaths(env, o) && env.gitlink(to.revision, p).Some?
    requires var base, theirs := sources.fetch(OldEntry(env, o, p).link, p), sources.fetch(env.gitlink(to.revision, p).value, p);
             base == Content(o.contents[p]) && theirs.Content? && !env.isBinary(o.contents[p]) && !env.isBinary(theirs.bytes)
    ensures sources.fetch(env.gitlink(to.revision, p).value, p) == Content(NewContent(env, o, to, sources, writes, p))
    ensures !Blocking(PlannedItem(env, o, to, sources, p).status)
  {
    var link := env.gitlink(to.revision, p);
    if OldEntry(env, o, p).link != link.value {
      var theirs := sources.fetch(link.value, p).bytes;
      assert env.merge(o.contents[p], o.contents[p], theirs) == (theirs, 0);
    }
  }

  // ----- the tools, as they run

  /** merge_deps: fills in the item of one whole file. */
  method MergeDeps(env: Env, sources: Sources, path: string, from: Link, link: Option<Link>, ours: Bytes) returns (item: Item)
    ensures item == ItemOf(env, sources, path, from, link, ours)
  {
    item := Item(DepsUnchanged, None);
    if link == None {
      item := item.(status := DepsDeleted);
      return;
    }
    if from == link.value { return; }
    var base, theirs := sources.fetch(from, path), sources.fetch(link.value, path);
    if base.Unavailable? || theirs.Unavailable? {
      item := item.(status := DepsUnavailable);
      return;
    }
    if base.Absent? && theirs.Absent? {
      if (sources.mirrored(from) && sources.mirrored(link.value)) || env.ownName(path) {
        item := item.(status := DepsOwn);
      } else {
        item := item.(status := DepsUnavailable);
      }
    } else if base.Absent? {
      item := item.(status := DepsCollision);
    } else if theirs.Absent? {
      item := item.(status := DepsDeleted);
    } else if base == theirs {
      item := item.(status := DepsKept);
    } else if env.isBinary(base.bytes) || env.isBinary(ours) || env.isBinary(theirs.bytes) {
      item := item.(status := DepsBinary);
    } else {
      var (merged, conflicts) := env.merge(base.bytes, ours, theirs.bytes);
      item := Item(if conflicts > 0 then DepsConflict else if merged == theirs.bytes then DepsEmpty else DepsClean, Some(merged));
    }
  }

  class Workspace {
    const env: Env
    var pin: Pin
    var recorded: map<string, Entry>
    var contents: map<string, Bytes>

    ghost function State(): Overlay
      reads this
    {
      Overlay(pin, recorded, contents)
    }

    constructor (env: Env, pin: Pin, contents: map<string, Bytes>)
      ensures this.env == env && State() == Overlay(pin, map[], contents)
    {
      this.env, this.pin, this.recorded, this.contents := env, pin, map[], contents;
    }

    method RegenerateWholeFiles()
      modifies this`recorded
      ensures State() == Generate(env, old(State()))
    {
      var entries: map<string, Entry> := map[];
      var deps := set p | p in contents && env.gitlink(pin.revision, p).Some?;
      var todo := deps;
      while todo != {}
        invariant todo <= deps && entries.Keys == deps - todo
        invariant forall p :: p in entries ==> entries[p] == OldEntry(env, State(), p)
        decreases todo
      {
        var p :| p in todo;
        entries := entries[p := KeptEntry(RecordOf(recorded, p), env.gitlink(pin.revision, p).value, pin.version)];
        todo := todo - {p};
      }
      recorded := entries;
    }

    /** The item and the new entry of one whole file. */
    method PlanOne(to: Pin, sources: Sources, p: string) returns (item: Item, entry: Entry)
      requires p in DepsPaths(env, State())
      ensures item == PlannedItem(env, State(), to, sources, p)
      ensures entry == NewEntry(env, State(), to, sources, p)
    {
      var e := KeptEntry(RecordOf(recorded, p), env.gitlink(pin.revision, p).value, pin.version);
      var link := env.gitlink(to.revision, p);
      item := MergeDeps(env, sources, p, e.link, link, contents[p]);
      entry := if Merged(item.status) && link.Some? then Recorded(link.value, Some(to.version)) else e;
    }

    /** The items and new entries of all whole files, the merges, and how many files
        need a person. */
    method Plan(to: Pin, sources: Sources, others: nat) returns (entries: map<string, Entry>, merged: map<string, Bytes>, blocking: nat)
      ensures entries.Keys == DepsPaths(env, State())
      ensures forall p :: p in entries ==> entries[p] == NewEntry(env, State(), to, sources, p)
      ensures forall p :: p in merged ==> p in DepsPaths(env, State())
      ensures forall p :: p in DepsPaths(env, State()) ==>
                PlannedItem(env, State(), to, sources, p).merged == if p in merged then Some(merged[p]) else None
      ensures blocking > 0 <==> IsBlocked(env, State(), to, sources, others)
    {
      hide PlannedItem, NewEntry;
      entries, merged, blocking := map[], map[], others;
      var deps := set p | p in contents && env.gitlink(pin.revision, p).Some?;
      var todo := deps;
      while todo != {}
        invariant todo <= deps && entries.Keys == deps - todo
        invariant forall p :: p in entries ==> entries[p] == NewEntry(env, State(), to, sources, p)
        invariant merged.Keys <= deps - todo
        invariant forall p :: p in deps - todo ==>
                    PlannedItem(env, State(), to, sources, p).merged == if p in merged then Some(merged[p]) else None
        invariant blocking > 0 <==> others > 0 || exists p :: p in deps - todo && Blocking(PlannedItem(env, State(), to, sources, p).status)
        decreases todo
      {
        var p :| p in todo;
        var item, entry := PlanOne(to, sources, p);
        entries := entries[p := entry];
        if Blocking(item.status) { blocking := blocking + 1; }
        if item.merged.Some? { merged := merged[p := item.merged.value]; }
        todo := todo - {p};
        assert p in deps - todo;
      }
    }

    /** The --apply part of main; `others` patched files need a person and `writes`
        are the merges of patched files. */
    method Apply(to: Pin, allow: bool, sources: Sources, others: nat, writes: map<string, Bytes>) returns (blocked: bool)
      modifies this
      ensures State() == Rebase(env, old(State()), to, allow, sources, others, writes)
      ensures blocked <==> IsBlocked(env, old(State()), to, sources, others) && !allow
      ensures blocked ==> State() == old(State())
    {
      hide PlannedItem, NewEntry, DepsPaths, IsBlocked;
      ghost var o := State();
      var entries, merged, blocking := Plan(to, sources, others);
      if blocking > 0 && !allow { return true; }
      var next := map p | p in contents ::
        if p in entries then (if p in merged then merged[p] else contents[p]) else if p in writes then writes[p] else contents[p];
      forall p | p in contents ensures next[p] == NewContent(env, o, to, sources, writes, p) {
      }
      assert next == map p | p in o.contents :: NewContent(env, o, to, sources, writes, p);
      contents := next;
      assert entries == NewEntries(env, o, to, sources);
      recorded := entries;
      pin := to;
      return false;
    }
  }
}
