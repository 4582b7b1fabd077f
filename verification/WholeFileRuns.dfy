/** What every run of generate, edit and rebase steps keeps. */
module WholeFileRuns {
  import opened Octets
  import opened Options
  import opened WholeFiles

  datatype Step =
    | GenerateStep
    | EditStep(path: string, bytes: Bytes)
    | RemoveStep(path: string)
    | RebaseStep(to: Pin, allow: bool, sources: Sources, others: nat, writes: map<string, Bytes>)

  function Next(env: Env, o: Overlay, s: Step): Overlay {
    match s
    case GenerateStep => Generate(env, o)
    case EditStep(path, bytes) => o.(contents := o.contents[path := bytes])
    case RemoveStep(path) => o.(contents := o.contents - {path})
    case RebaseStep(to, allow, sources, others, writes) => Rebase(env, o, to, allow, sources, others, writes)
  }

  function Run(env: Env, o: Overlay, steps: seq<Step>): Overlay
    decreases |steps|
  {
    if steps == [] then o else Run(env, Next(env, o, steps[0]), steps[1..])
  }

  /** The step is a rebase that goes through. */
  ghost predicate Applies(env: Env, o: Overlay, s: Step) {
    s.RebaseStep? && (s.allow || !IsBlocked(env, o, s.to, s.sources, s.others))
  }

  ghost predicate HasLink(o: Overlay, p: string, l: Link) {
    p in o.recorded && o.recorded[p].Recorded? && o.recorded[p].link == l
  }

  /** Step s merges whole file p. */
  ghost predicate Merges(env: Env, o: Overlay, s: Step, p: string) {
    Applies(env, o, s) && p in DepsPaths(env, o) && Merged(PlannedItem(env, o, s.to, s.sources, p).status)
  }

  /** The step writes whole_files.txt. */
  ghost predicate Rewrites(env: Env, o: Overlay, s: Step) {
    s.GenerateStep? || Applies(env, o, s)
  }

  /** The file is in the overlay, and the pin has it in the subproject of link l. */
  ghost predicate Anchored(env: Env, o: Overlay, p: string, l: Link) {
    p in o.contents && env.gitlink(o.pin.revision, p).Some? && env.gitlink(o.pin.revision, p).value.subproject == l.subproject
  }

  // ----- one step

  /** A merge needs the file to be in a subproject at the new tag. */
  lemma MergedHasLink(env: Env, sources: Sources, p: string, l: Link, link: Option<Link>, ours: Bytes)
    ensures Merged(ItemOf(env, sources, p, l, link, ours).status) ==> link.Some? && link.value != l
  {
  }

  /** Regenerating keeps the recorded commit just when the file is still there and the
      pin has it in the same subproject. */
  lemma GenerateKeepsIff(env: Env, o: Overlay, p: string, l: Link)
    requires HasLink(o, p, l)
    ensures HasLink(Generate(env, o), p, l) <==> Anchored(env, o, p, l)
  {
  }

  /** What one step of any kind does to a recorded commit: a merge replaces it by the new
      tag's gitlink; without one it stays just when whole_files.txt is not rewritten or the
      file is where it was recorded. */
  lemma LinkAfterStep(env: Env, o: Overlay, s: Step, p: string, l: Link)
    requires HasLink(o, p, l)
    ensures Merges(env, o, s, p) ==> env.gitlink(s.to.revision, p).Some? && HasLink(Next(env, o, s), p, env.gitlink(s.to.revision, p).value)
    ensures !Merges(env, o, s, p) ==> (HasLink(Next(env, o, s), p, l) <==> (Rewrites(env, o, s) ==> Anchored(env, o, p, l)))
  {
    if Applies(env, o, s) {
      assert Next(env, o, s).recorded == NewEntries(env, o, s.to, s.sources);
      if p in DepsPaths(env, o) {
        MergedHasLink(env, s.sources, p, OldEntry(env, o, p).link, env.gitlink(s.to.revision, p), o.contents[p]);
      }
    }
  }

  /** After a rebase, the files that verify_patches.py still names are exactly the
      deleted, colliding and unavailable ones. */
  lemma BehindAfterApply(env: Env, o: Overlay, s: Step)
    requires Applies(env, o, s)
    ensures Behind(env, s.to, Next(env, o, s).recorded)
         == set p | p in DepsPaths(env, o)
                  && var st := PlannedItem(env, o, s.to, s.sources, p).status;
                     st.DepsDeleted? || st.DepsCollision? || st.DepsUnavailable?
  {
    var recorded := NewEntries(env, o, s.to, s.sources);
    forall p | p in DepsPaths(env, o)
      ensures p in Behind(env, s.to, recorded)
         <==> var st := PlannedItem(env, o, s.to, s.sources, p).status; st.DepsDeleted? || st.DepsCollision? || st.DepsUnavailable?
    {
      MergedHasLink(env, s.sources, p, OldEntry(env, o, p).link, env.gitlink(s.to.revision, p), o.contents[p]);
    }
  }

  /** Rebasing onto the pin again changes only files that are behind it. */
  lemma RerunLeavesOthers(env: Env, o: Overlay, s: Step, p: string)
    requires s.RebaseStep? && s.to == o.pin && p in DepsPaths(env, o) && p in o.recorded
    requires p !in Behind(env, o.pin, o.recorded)
    ensures PlannedItem(env, o, s.to, s.sources, p).status == DepsUnchanged
    ensures HasLink(Next(env, o, s), p, o.recorded[p].link) && Next(env, o, s).contents[p] == o.contents[p]
  {
  }

  // ----- the releases that are recorded with the commits

  /** rev is the revision of every version. */
  ghost predicate Versioned(rev: string -> string, o: Overlay, steps: seq<Step>) {
    && o.pin.revision == rev(o.pin.version)
    && forall i :: 0 <= i < |steps| && steps[i].RebaseStep? ==> steps[i].to.revision == rev(steps[i].to.version)
  }

  /** A recorded release is one whose DEPS pins the recorded commit, so that its tarball has the
      base of the next merge. */
  ghost predicate ReleasesPin(env: Env, rev: string -> string, o: Overlay) {
    forall p :: p in o.recorded && o.recorded[p].Recorded? && o.recorded[p].release.Some? ==>
      env.gitlink(rev(o.recorded[p].release.value), p) == Some(o.recorded[p].link)
  }

  lemma StepReleases(env: Env, rev: string -> string, o: Overlay, s: Step)
    requires Versioned(rev, o, [s]) && ReleasesPin(env, rev, o)
    ensures ReleasesPin(env, rev, Next(env, o, s)) && Next(env, o, s).pin.revision == rev(Next(env, o, s).pin.version)
  {
    assert [s][0] == s;
    forall p | p in DepsPaths(env, o)
      ensures var e := OldEntry(env, o, p); e.release.Some? ==> env.gitlink(rev(e.release.value), p) == Some(e.link)
    {
    }
  }

  /** No run makes a recorded release wrong. */
  lemma {:induction false} ReleasesStay(env: Env, rev: string -> string, o: Overlay, steps: seq<Step>)
    requires Versioned(rev, o, steps) && ReleasesPin(env, rev, o)
    ensures ReleasesPin(env, rev, Run(env, o, steps))
    decreases |steps|
  {
    hide ReleasesPin, Next;
    if steps != [] {
      assert [steps[0]][0] == steps[0];
      StepReleases(env, rev, o, steps[0]);
      assert forall i :: 0 <= i < |steps[1..]| ==> steps[1..][i] == steps[i + 1];
      ReleasesStay(env, rev, Next(env, o, steps[0]), steps[1..]);
    }
  }

  /** Regenerating gives every file at the pin's commit a release, and loses none. */
  lemma GenerateNamesRelease(env: Env, o: Overlay, p: string, l: Link)
    requires HasLink(Generate(env, o), p, l)
    ensures env.gitlink(o.pin.revision, p) == Some(l) ==> Generate(env, o).recorded[p].release.Some?
    ensures HasLink(o, p, l) && o.recorded[p].release.Some? ==> Generate(env, o).recorded[p].release.Some?
  {
  }

  // ----- whole runs

  /** One merge of a whole file: from the commit it started at to the one it brought in. */
  datatype Move = Move(base: Link, theirs: Link)

  ghost function MovesOf(env: Env, o: Overlay, s: Step, p: string): seq<Move> {
    if Merges(env, o, s, p) && env.gitlink(s.to.revision, p).Some?
    then [Move(OldEntry(env, o, p).link, env.gitlink(s.to.revision, p).value)] else []
  }

  /** The merges of p over a run. */
  ghost function Moves(env: Env, o: Overlay, steps: seq<Step>, p: string): seq<Move>
    decreases |steps|
  {
    if steps == [] then [] else MovesOf(env, o, steps[0], p) + Moves(env, Next(env, o, steps[0]), steps[1..], p)
  }

  /** Every merge starts where the one before it ended. */
  ghost predicate Chain(from: Link, moves: seq<Move>, to: Link)
    decreases |moves|
  {
    if moves == [] then from == to else moves[0].base == from && Chain(moves[0].theirs, moves[1..], to)
  }

  /** The merges so far lead from l, each from where the one before it ended, to the
      commit that is recorded now. */
  ghost predicate LedHere(env: Env, o: Overlay, steps: seq<Step>, p: string, l: Link) {
    exists now :: HasLink(Run(env, o, steps), p, now) && Chain(l, Moves(env, o, steps, p), now)
  }

  /** At every point of the run the record is what the merges brought in. */
  ghost predicate Unbroken(env: Env, o: Overlay, steps: seq<Step>, p: string, l: Link) {
    forall n :: 0 <= n <= |steps| ==> LedHere(env, o, steps[..n], p, l)
  }

  /** The commit a step leaves the file at. */
  ghost function After(env: Env, o: Overlay, s: Step, p: string, l: Link): Link {
    if Merges(env, o, s, p) && env.gitlink(s.to.revision, p).Some? then env.gitlink(s.to.revision, p).value else l
  }

  /** Whenever whole_files.txt is rewritten, the file is there, and in the subproject it
      was last merged with. */
  ghost predicate Safe(env: Env, o: Overlay, steps: seq<Step>, p: string, l: Link)
    decreases |steps|
  {
    steps != [] ==>
      && (Rewrites(env, o, steps[0]) ==> Anchored(env, o, p, l))
      && Safe(env, Next(env, o, steps[0]), steps[1..], p, After(env, o, steps[0], p, l))
  }

  /** If the step merges the file, it merges it from l. */
  ghost predicate StartsAt(env: Env, o: Overlay, s: Step, p: string, l: Link) {
    forall m :: m in MovesOf(env, o, s, p) ==> m.base == l
  }

  /** A step continues the chain just when it finds the file where it was recorded, or
      rewrites nothing. */
  lemma StepIff(env: Env, o: Overlay, s: Step, p: string, l: Link)
    requires HasLink(o, p, l)
    ensures (Rewrites(env, o, s) ==> Anchored(env, o, p, l))
       <==> HasLink(Next(env, o, s), p, After(env, o, s, p, l)) && StartsAt(env, o, s, p, l)
  {
    LinkAfterStep(env, o, s, p, l);
    if Merges(env, o, s, p) {
      var m := Move(OldEntry(env, o, p).link, env.gitlink(s.to.revision, p).value);
      assert MovesOf(env, o, s, p) == [m] && m in MovesOf(env, o, s, p);
    }
  }

  lemma RunOne(env: Env, o: Overlay, s: Step, steps: seq<Step>, p: string)
    ensures Run(env, o, [s] + steps) == Run(env, Next(env, o, s), steps)
    ensures Moves(env, o, [s] + steps, p) == MovesOf(env, o, s, p) + Moves(env, Next(env, o, s), steps, p)
  {
    assert ([s] + steps)[1..] == steps;
  }

  lemma RunNone(env: Env, o: Overlay, p: string)
    ensures Run(env, o, []) == o && Moves(env, o, [], p) == []
  {
  }

  /** The chain over a step and what follows it. */
  lemma ChainOne(env: Env, o: Overlay, s: Step, p: string, l: Link, rest: seq<Move>, to: Link)
    ensures Chain(l, MovesOf(env, o, s, p) + rest, to)
       <==> StartsAt(env, o, s, p, l) && Chain(After(env, o, s, p, l), rest, to)
  {
    var first := MovesOf(env, o, s, p);
    if first == [] {
      assert first + rest == rest;
    } else {
      assert (first + rest)[1..] == rest && first[0] in first;
    }
  }

  lemma LedHereOne(env: Env, o: Overlay, s: Step, steps: seq<Step>, p: string, l: Link)
    ensures LedHere(env, o, [s] + steps, p, l)
       <==> StartsAt(env, o, s, p, l) && LedHere(env, Next(env, o, s), steps, p, After(env, o, s, p, l))
  {
    hide Run, Moves, StartsAt, After, Chain, HasLink;
    RunOne(env, o, s, steps, p);
    forall now {
      ChainOne(env, o, s, p, l, Moves(env, Next(env, o, s), steps, p), now);
    }
  }

  lemma LedHereNone(env: Env, o: Overlay, p: string, l: Link)
    ensures LedHere(env, o, [], p, l) <==> HasLink(o, p, l)
  {
    RunNone(env, o, p);
    assert HasLink(o, p, l) ==> HasLink(Run(env, o, []), p, l) && Chain(l, Moves(env, o, [], p), l);
  }

  lemma LedHereAt(env: Env, o: Overlay, steps: seq<Step>, n: nat, p: string, l: Link)
    requires n < |steps|
    ensures LedHere(env, o, steps[..n + 1], p, l)
       <==> StartsAt(env, o, steps[0], p, l) && LedHere(env, Next(env, o, steps[0]), steps[1..][..n], p, After(env, o, steps[0], p, l))
  {
    assert steps[..n + 1] == [steps[0]] + steps[1..][..n];
    LedHereOne(env, o, steps[0], steps[1..][..n], p, l);
  }

  lemma UnbrokenOne(env: Env, o: Overlay, steps: seq<Step>, p: string, l: Link)
    requires HasLink(o, p, l) && steps != []
    ensures Unbroken(env, o, steps, p, l)
       <==> StartsAt(env, o, steps[0], p, l) && Unbroken(env, Next(env, o, steps[0]), steps[1..], p, After(env, o, steps[0], p, l))
  {
    hide LedHere, StartsAt, After, Next;
    var rest, o', l' := steps[1..], Next(env, o, steps[0]), After(env, o, steps[0], p, l);
    if Unbroken(env, o, steps, p, l) {
      LedHereAt(env, o, steps, 0, p, l);
      forall n | 0 <= n <= |rest| ensures LedHere(env, o', rest[..n], p, l') {
        LedHereAt(env, o, steps, n, p, l);
      }
    }
    if StartsAt(env, o, steps[0], p, l) && Unbroken(env, o', rest, p, l') {
      forall n | 0 <= n <= |steps| ensures LedHere(env, o, steps[..n], p, l) {
        if n == 0 {
          LedHereNone(env, o, p, l);
        } else {
          LedHereAt(env, o, steps, n - 1, p, l);
          assert LedHere(env, o', rest[..n - 1], p, l');
        }
      }
    }
  }

  /** Over every run, each merge of a whole file starts from the commit that the merge
      before it brought in, and the record is always the last one merged, if and only if
      every rewrite of whole_files.txt finds the file in the subproject it was recorded in. */
  lemma {:induction false} UnbrokenIffSafe(env: Env, o: Overlay, steps: seq<Step>, p: string, l: Link)
    requires HasLink(o, p, l)
    ensures Unbroken(env, o, steps, p, l) <==> Safe(env, o, steps, p, l)
    decreases |steps|
  {
    hide LedHere, StartsAt, After, Next, Rewrites, Anchored;
    LedHereNone(env, o, p, l);
    if steps == [] {
      assert steps[..0] == [];
    } else {
      var s, rest := steps[0], steps[1..];
      var o', l' := Next(env, o, s), After(env, o, s, p, l);
      UnbrokenOne(env, o, steps, p, l);
      StepIff(env, o, s, p, l);
      if HasLink(o', p, l') {
        UnbrokenIffSafe(env, o', rest, p, l');
      } else {
        assert rest[..0] == [];
        LedHereNone(env, o', p, l');
        assert !Unbroken(env, o', rest, p, l') by { assert !LedHere(env, o', rest[..0], p, l'); }
      }
    }
  }

  /** So the merges of a safe run chain, whatever tags were skipped, blocked or regenerated
      between them. */
  lemma MergesChain(env: Env, o: Overlay, steps: seq<Step>, p: string, l: Link)
    requires HasLink(o, p, l) && Safe(env, o, steps, p, l)
    ensures exists now :: HasLink(Run(env, o, steps), p, now) && Chain(l, Moves(env, o, steps, p), now)
  {
    UnbrokenIffSafe(env, o, steps, p, l);
    assert steps[..|steps|] == steps;
    assert LedHere(env, o, steps[..|steps|], p, l);
  }

  /** A file that is no subproject file at the new tag stays as it is, with its record. */
  lemma GoneAway(env: Env, o: Overlay, s: Step, p: string, l: Link)
    requires HasLink(o, p, l) && Anchored(env, o, p, l) && Applies(env, o, s) && env.gitlink(s.to.revision, p) == None
    ensures MovesOf(env, o, s, p) == [] && p in Next(env, o, s).contents && Next(env, o, s).contents[p] == o.contents[p]
    ensures Next(env, o, s).pin == s.to
  {
  }

  /** Regenerating drops the record of a file that is no subproject file at the pin. */
  lemma RecordDropped(env: Env, o: Overlay, p: string)
    requires env.gitlink(o.pin.revision, p) == None
    ensures p !in Generate(env, o).recorded
  {
  }

  /** Without the same subproject throughout, the chain breaks: a file that one pin has
      as no subproject file loses its record when whole_files.txt is regenerated, and is
      recorded as merged, unmerged, at the pin that brings the subproject back. */
  lemma RecordLost(env: Env, o: Overlay, p: string, l: Link, away: Pin, back: Pin, sources: Sources, m: Link)
    requires HasLink(o, p, l) && Anchored(env, o, p, l)
    requires env.gitlink(away.revision, p) == None && env.gitlink(back.revision, p) == Some(m)
    ensures var steps := [RebaseStep(away, true, sources, 0, map[]), GenerateStep, RebaseStep(back, true, sources, 0, map[]), GenerateStep];
            HasLink(Run(env, o, steps), p, m) && Moves(env, o, steps, p) == []
            && p in Run(env, o, steps).contents && Run(env, o, steps).contents[p] == o.contents[p]
  {
    hide Run, Moves;
    var s1, s2, s3 := RebaseStep(away, true, sources, 0, map[]), GenerateStep, RebaseStep(back, true, sources, 0, map[]);
    var o1 := Next(env, o, s1);
    var o2 := Next(env, o1, s2);
    var o3 := Next(env, o2, s3);
    RunOne(env, o, s1, [s2, s3, s2], p);
    RunOne(env, o1, s2, [s3, s2], p);
    RunOne(env, o2, s3, [s2], p);
    RunOne(env, o3, s2, [], p);
    assert [s2] + [] == [s2] && [s3] + [s2] == [s3, s2] && [s2] + [s3, s2] == [s2, s3, s2];
    assert [s1] + [s2, s3, s2] == [s1, s2, s3, s2];
    GoneAway(env, o, s1, p, l);
    RecordDropped(env, o1, p);
    LastSteps(env, o2, s3, p, m);
    RunNone(env, Next(env, o3, s2), p);
  }

  lemma LastSteps(env: Env, o: Overlay, s: Step, p: string, m: Link)
    requires s.RebaseStep? && s.allow && env.gitlink(s.to.revision, p) == Some(m) && s.writes == map[]
    requires p in o.contents && env.gitlink(o.pin.revision, p) == None
    ensures MovesOf(env, o, s, p) == [] && p !in Next(env, o, s).recorded
    ensures var last := Generate(env, Next(env, o, s));
            HasLink(last, p, m) && p in last.contents && last.contents[p] == o.contents[p]
  {
  }
}
