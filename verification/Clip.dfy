/** Clipping a long test log to windows around what matters. */
module Clip {
  import opened Sorting

  /** A stretch of the log: from start up to end, which may lie past the log's last character. */
  datatype Window = Window(start: int, end: int)

  predicate Before(a: Window, b: Window) {
    a.start < b.start || (a.start == b.start && a.end <= b.end)
  }

  ghost predicate IsSorted(ws: seq<Window>) {
    forall i, j :: 0 <= i < j < |ws| ==> Before(ws[i], ws[j])
  }

  predicate Covers(ws: seq<Window>, k: int) {
    exists i :: 0 <= i < |ws| && ws[i].start <= k < ws[i].end
  }

  ghost predicate Proper(ws: seq<Window>) {
    forall i :: 0 <= i < |ws| ==> 0 <= ws[i].start <= ws[i].end
  }

  function InOrder(): (Window, Window) -> bool {
    (a, b) => Before(a, b)
  }

  lemma WindowsOrder()
    ensures TotalOrder(InOrder())
  {
  }

  function SortWindows(ws: seq<Window>): (r: seq<Window>)
    ensures IsSorted(r) && multiset(r) == multiset(ws)
  {
    WindowsOrder();
    var r := Sorted(ws, InOrder());
    assert IsSorted(r) by {
      forall i, j | 0 <= i < j < |r| ensures Before(r[i], r[j]) {
        assert InOrder()(r[i], r[j]);
      }
    }
    r
  }

  lemma SortedIn(ws: seq<Window>, w: Window)
    ensures w in SortWindows(ws) <==> w in ws
  {
    WindowsOrder();
    SortedHas(ws, InOrder());
  }

  lemma SortedCovers(ws: seq<Window>, k: int)
    ensures Covers(SortWindows(ws), k) <==> Covers(ws, k)
  {
    hide SortWindows, IsSorted;
    var r := SortWindows(ws);
    if Covers(ws, k) {
      var i :| 0 <= i < |ws| && ws[i].start <= k < ws[i].end;
      SortedIn(ws, ws[i]);
      var j :| 0 <= j < |r| && r[j] == ws[i];
    }
    if Covers(r, k) {
      var i :| 0 <= i < |r| && r[i].start <= k < r[i].end;
      SortedIn(ws, r[i]);
      var j :| 0 <= j < |ws| && ws[j] == r[i];
    }
  }

  // ------------------------------------------------------------- merging

  /** In order, with a gap between one window and the next. */
  ghost predicate Separated(ws: seq<Window>) {
    forall i, j :: 0 <= i < j < |ws| ==> ws[i].end < ws[j].start
  }

  predicate StartsAt(ws: seq<Window>, start: int) {
    exists k :: 0 <= k < |ws| && ws[k].start == start
  }

  /** Merging so far: the windows read, and what they became. */
  ghost predicate Merging(ws: seq<Window>, merged: seq<Window>) {
    && Proper(merged) && Separated(merged) && (merged == [] <==> ws == [])
    && (forall k {:trigger Covers(merged, k)} {:trigger Covers(ws, k)} :: Covers(merged, k) <==> Covers(ws, k))
    && (forall x :: x in ws ==> Within(merged, x))
    && (forall j {:trigger StartsAt(ws, merged[j].start)} :: 0 <= j < |merged| ==> StartsAt(ws, merged[j].start))
  }

  /** The merged windows are in order with gaps between them, and cover just what was covered. */
  method Merge(ws: seq<Window>) returns (merged: seq<Window>)
    requires IsSorted(ws) && Proper(ws)
    ensures Merging(ws, merged)
  {
    merged := [];
    assert Merging(ws[..0], merged);
    for i := 0 to |ws|
      invariant Merging(ws[..i], merged)
    {
      hide Merging;
      var w := ws[i];
      if merged != [] && w.start <= merged[|merged| - 1].end {
        Joined(ws, i, merged);
        var last := merged[|merged| - 1];
        merged := merged[..|merged| - 1] + [Window(last.start, if last.end < w.end then w.end else last.end)];
      } else {
        Appended(ws, i, merged);
        merged := merged + [w];
      }
    }
    assert ws[..|ws|] == ws;
  }

  lemma Joined(ws: seq<Window>, i: nat, merged: seq<Window>)
    requires IsSorted(ws) && Proper(ws) && i < |ws| && Merging(ws[..i], merged)
    requires merged != [] && ws[i].start <= merged[|merged| - 1].end
    ensures var last := merged[|merged| - 1];
            Merging(ws[..i + 1], merged[..|merged| - 1] + [Window(last.start, if last.end < ws[i].end then ws[i].end else last.end)])
  {
    hide Covers, Within, StartsAt, Separated;
    var w, last := ws[i], merged[|merged| - 1];
    var now := merged[..|merged| - 1] + [Window(last.start, if last.end < w.end then w.end else last.end)];
    assert StartsAt(ws[..i], last.start);
    LastStart(ws, i, last.start);
    ShapeJoined(merged, w);
    Widened(merged, now, w);
    Extended(ws, i, merged, now);
    StartsKept(ws, i, merged, now);
  }

  lemma ShapeJoined(merged: seq<Window>, w: Window)
    requires Proper(merged) && Separated(merged) && merged != []
    ensures var last := merged[|merged| - 1];
            var now := merged[..|merged| - 1] + [Window(last.start, if last.end < w.end then w.end else last.end)];
            Proper(now) && Separated(now)
  {
  }

  lemma ShapeAppended(merged: seq<Window>, w: Window)
    requires Proper(merged) && Separated(merged) && 0 <= w.start <= w.end
    requires merged == [] || merged[|merged| - 1].end < w.start
    ensures Proper(merged + [w]) && Separated(merged + [w])
  {
    forall i | 0 <= i < |merged| ensures merged[i].end < w.start {
      if i < |merged| - 1 { assert merged[i].end < merged[|merged| - 1].start; }
    }
  }

  lemma Appended(ws: seq<Window>, i: nat, merged: seq<Window>)
    requires IsSorted(ws) && Proper(ws) && i < |ws| && Merging(ws[..i], merged)
    requires merged == [] || merged[|merged| - 1].end < ws[i].start
    ensures Merging(ws[..i + 1], merged + [ws[i]])
  {
    hide Covers, Within, StartsAt;
    var now := merged + [ws[i]];
    ShapeAppended(merged, ws[i]);
    hide Separated, Proper;
    Added(merged, now, ws[i]);
    Extended(ws, i, merged, now);
    StartsKept(ws, i, merged, now);
  }

  lemma StartsKept(ws: seq<Window>, i: nat, merged: seq<Window>, now: seq<Window>)
    requires i < |ws| && Merging(ws[..i], merged)
    requires forall j :: 0 <= j < |now| ==> now[j].start == ws[i].start || (j < |merged| && now[j].start == merged[j].start)
    ensures forall j :: 0 <= j < |now| ==> StartsAt(ws[..i + 1], now[j].start)
  {
    forall j | 0 <= j < |now| ensures StartsAt(ws[..i + 1], now[j].start) {
      if now[j].start == ws[i].start {
        assert ws[..i + 1][i] == ws[i];
      } else {
        assert StartsAt(ws[..i], merged[j].start);
        var k :| 0 <= k < i && ws[..i][k].start == merged[j].start;
        assert ws[..i + 1][k] == ws[..i][k];
      }
    }
  }

  lemma Extended(ws: seq<Window>, i: nat, was: seq<Window>, merged: seq<Window>)
    requires i < |ws| && Merging(ws[..i], was)
    requires forall k :: Covers(merged, k) <==> Covers(was, k) || ws[i].start <= k < ws[i].end
    requires forall x :: Within(was, x) ==> Within(merged, x)
    requires Within(merged, ws[i])
    ensures forall k :: Covers(merged, k) <==> Covers(ws[..i + 1], k)
    ensures forall x :: x in ws[..i + 1] ==> Within(merged, x)
  {
    forall k ensures Covers(merged, k) <==> Covers(ws[..i + 1], k) {
      CoversOneMore(ws, i, k);
    }
    assert ws[..i + 1] == ws[..i] + [ws[i]];
  }

  predicate Within(merged: seq<Window>, w: Window) {
    exists j :: 0 <= j < |merged| && merged[j].start <= w.start && w.end <= merged[j].end
  }

  lemma LastStart(ws: seq<Window>, i: nat, start: int)
    requires IsSorted(ws) && i < |ws| && StartsAt(ws[..i], start)
    ensures start <= ws[i].start
  {
    var k :| 0 <= k < i && ws[..i][k].start == start;
    assert Before(ws[k], ws[i]);
  }

  lemma CoversOneMore(ws: seq<Window>, i: nat, k: int)
    requires i < |ws|
    ensures Covers(ws[..i + 1], k) <==> Covers(ws[..i], k) || ws[i].start <= k < ws[i].end
  {
    var a, b := ws[..i], ws[..i + 1];
    assert b == a + [ws[i]];
    assert forall j :: 0 <= j < i ==> b[j] == a[j];
    assert b[i] == ws[i];
  }

  lemma Added(was: seq<Window>, merged: seq<Window>, w: Window)
    requires merged == was + [w]
    ensures forall k :: Covers(merged, k) <==> Covers(was, k) || w.start <= k < w.end
    ensures forall x :: Within(was, x) ==> Within(merged, x)
    ensures Within(merged, w)
  {
    assert forall j :: 0 <= j < |was| ==> merged[j] == was[j];
    assert merged[|was|] == w;
  }

  lemma Widened(was: seq<Window>, merged: seq<Window>, w: Window)
    requires was != [] && was[|was| - 1].start <= w.start <= was[|was| - 1].end
    requires var last := was[|was| - 1];
             merged == was[..|was| - 1] + [Window(last.start, if last.end < w.end then w.end else last.end)]
    ensures forall k :: Covers(merged, k) <==> Covers(was, k) || w.start <= k < w.end
    ensures forall x :: Within(was, x) ==> Within(merged, x)
    ensures Within(merged, w)
  {
    var n := |was| - 1;
    assert |merged| == n + 1 && forall j :: 0 <= j < n ==> merged[j] == was[j];
    var wide := merged[n];
    assert wide.start <= w.start && w.end <= wide.end;
    forall k ensures Covers(merged, k) <==> Covers(was, k) || w.start <= k < w.end {
      if wide.start <= k < wide.end {
        assert was[n].start <= k < was[n].end || w.start <= k < w.end;
      }
      if was[n].start <= k < was[n].end {
        assert merged[n].start <= k < merged[n].end;
      }
      if w.start <= k < w.end {
        assert merged[n].start <= k < merged[n].end;
      }
    }
  }

  // ------------------------------------------------------------- what is shown

  /** A piece of the clipped log: text of it, or how many characters are left out. */
  datatype Piece = Text(text: string) | Gap(count: int)

  function Size(p: Piece): int {
    if p.Text? then |p.text| else p.count
  }

  /** Shown characters and counted ones together. */
  function Total(pieces: seq<Piece>): int {
    if pieces == [] then 0 else Total(pieces[..|pieces| - 1]) + Size(pieces[|pieces| - 1])
  }

  function ShownTotal(pieces: seq<Piece>): int {
    if pieces == [] then 0
    else
      var p := pieces[|pieces| - 1];
      ShownTotal(pieces[..|pieces| - 1]) + if p.Text? then |p.text| else 0
  }

  /** Position k of the log is in a piece of text. */
  predicate Shows(pieces: seq<Piece>, k: int) {
    pieces != [] &&
    var front, p := pieces[..|pieces| - 1], pieces[|pieces| - 1];
    Shows(front, k) || (p.Text? && Total(front) <= k < Total(front) + |p.text|)
  }

  /** Laid end to end, the pieces are the beginning of the log: the texts are its own, in order. */
  ghost predicate Tells(log: string, pieces: seq<Piece>) {
    pieces == [] ||
    (var front, p := pieces[..|pieces| - 1], pieces[|pieces| - 1];
     && Tells(log, front) && 0 <= Total(front) && Total(front) + Size(p) <= |log|
     && (p.Text? ==> p.text == log[Total(front)..Total(front) + |p.text|])
     && (p.Gap? ==> p.count > 0))
  }

  lemma PutPiece(log: string, pieces: seq<Piece>, p: Piece)
    requires Tells(log, pieces) && 0 <= Total(pieces) && Total(pieces) + Size(p) <= |log|
    requires p.Text? ==> p.text == log[Total(pieces)..Total(pieces) + |p.text|]
    requires p.Gap? ==> p.count > 0
    ensures Tells(log, pieces + [p]) && Total(pieces + [p]) == Total(pieces) + Size(p)
    ensures ShownTotal(pieces + [p]) == ShownTotal(pieces) + if p.Text? then |p.text| else 0
    ensures forall k :: Shows(pieces + [p], k) <==>
              Shows(pieces, k) || (p.Text? && Total(pieces) <= k < Total(pieces) + |p.text|)
  {
    assert (pieces + [p])[..|pieces|] == pieces;
  }

  function Min(a: int, b: int): int {
    if a < b then a else b
  }

  /** The variables of the printing loop. */
  datatype Print = Print(pieces: seq<Piece>, shown: int, last: int)

  /** Printing so far: up to position last, exactly the covered characters are shown. */
  ghost predicate Printed(log: string, ws: seq<Window>, pr: Print, limit: int) {
    && Tells(log, pr.pieces) && 0 <= pr.last && Total(pr.pieces) == Min(pr.last, |log|)
    && ShownTotal(pr.pieces) <= pr.shown <= limit && (pr.last <= |log| ==> pr.shown == ShownTotal(pr.pieces))
    && (forall k :: Shows(pr.pieces, k) <==> Covers(ws, k) && k < Min(pr.last, |log|))
  }

  ghost predicate AllBelow(ws: seq<Window>, last: int) {
    forall k :: Covers(ws, k) ==> k < last
  }

  function Gapped(pr: Print, start: int): seq<Piece> {
    if start > pr.last then pr.pieces + [Gap(start - pr.last)] else pr.pieces
  }

  /** One window printed, as far as the limit allows. */
  function PrintOne(log: string, w: Window, pr: Print, limit: int): Print
    requires 0 <= w.start <= w.end && w.start <= |log| && pr.shown <= limit
  {
    var end := Min(w.end, w.start + limit - pr.shown);
    Print(Gapped(pr, w.start) + [Text(log[w.start..Min(end, |log|)])], pr.shown + (end - w.start), end)
  }

  lemma GapKeeps(log: string, ws: seq<Window>, pr: Print, start: int, limit: int)
    requires Printed(log, ws, pr, limit) && pr.last <= start <= |log|
    ensures var g := Gapped(pr, start);
            && Tells(log, g) && Total(g) == start && ShownTotal(g) == pr.shown
            && forall k :: Shows(g, k) <==> Covers(ws, k) && k < pr.last
  {
    if start > pr.last {
      PutPiece(log, pr.pieces, Gap(start - pr.last));
    }
  }

  lemma CoversMore(ws: seq<Window>, w: Window)
    ensures forall k :: Covers(ws + [w], k) <==> Covers(ws, k) || w.start <= k < w.end
  {
    Added(ws, ws + [w], w);
  }

  lemma PrintOneKeeps(log: string, ws: seq<Window>, w: Window, pr: Print, limit: int)
    requires Printed(log, ws, pr, limit) && pr.shown < limit && AllBelow(ws, pr.last)
    requires 0 <= w.start <= w.end && pr.last <= w.start <= |log|
    ensures Printed(log, ws + [w], PrintOne(log, w, pr, limit), limit)
  {
    hide Tells, Total, ShownTotal, Shows, Covers;
    var g := Gapped(pr, w.start);
    GapKeeps(log, ws, pr, w.start, limit);
    hide Gapped;
    var end := Min(w.end, w.start + limit - pr.shown);
    PutPiece(log, g, Text(log[w.start..Min(end, |log|)]));
    CoversMore(ws, w);
  }

  lemma CoveredBelow(ws: seq<Window>, last: int)
    requires Proper(ws) && Separated(ws) && ws != [] && ws[|ws| - 1].end <= last
    ensures AllBelow(ws, last)
  {
    forall k | Covers(ws, k) ensures k < last {
      var j :| 0 <= j < |ws| && ws[j].start <= k < ws[j].end;
      if j < |ws| - 1 { assert ws[j].end < ws[|ws| - 1].start; }
    }
  }

  /** Where printing stands after i windows: at the last one's end, or at the limit. */
  ghost predicate Reached(merged: seq<Window>, i: int, pr: Print, limit: int) {
    && 0 <= i <= |merged| && (i == 0 ==> pr.last == 0)
    && (i > 0 ==> pr.last <= merged[i - 1].end && (pr.last == merged[i - 1].end || pr.shown == limit))
  }

  lemma NextWindow(log: string, merged: seq<Window>, i: nat, pr: Print, limit: int)
    requires Proper(merged) && Separated(merged) && i < |merged| && merged[i].start <= |log|
    requires Reached(merged, i, pr, limit) && Printed(log, merged[..i], pr, limit) && pr.shown < limit
    ensures pr.last <= merged[i].start && 0 <= merged[i].start <= merged[i].end
    ensures Printed(log, merged[..i + 1], PrintOne(log, merged[i], pr, limit), limit)
    ensures Reached(merged, i + 1, PrintOne(log, merged[i], pr, limit), limit)
  {
    hide Printed, Covers;
    var front := merged[..i];
    if i > 0 {
      assert merged[i - 1].end < merged[i].start;
      assert Separated(front) && Proper(front) && front[|front| - 1] == merged[i - 1];
      CoveredBelow(front, pr.last);
    } else {
      assert AllBelow([], pr.last) by { NothingBelow(pr.last); }
    }
    PrintOneKeeps(log, front, merged[i], pr, limit);
    assert front + [merged[i]] == merged[..i + 1];
  }

  lemma NothingBelow(last: int)
    ensures AllBelow([], last)
  {
  }

  lemma NothingPrinted(log: string, limit: nat)
    ensures Printed(log, [], Print([], 0, 0), limit)
  {
    forall k ensures !Covers([], k) && !Shows([], k) {
    }
  }

  /** The pieces for the merged windows, cut off at limit shown characters. cut is where showing
      ends: it is the end of the log unless the limit was used up. */
  method Show(log: string, merged: seq<Window>, limit: nat) returns (pieces: seq<Piece>, ghost cut: int)
    requires Proper(merged) && Separated(merged) && merged != []
    requires forall i :: 0 <= i < |merged| ==> merged[i].start <= |log|
    requires |log| <= merged[|merged| - 1].end
    ensures Tells(log, pieces) && Total(pieces) == |log| && ShownTotal(pieces) <= limit
    ensures 0 <= cut <= |log| && (cut == |log| || ShownTotal(pieces) == limit)
    ensures forall k :: Shows(pieces, k) <==> Covers(merged, k) && k < cut
  {
    pieces := [];
    var shown, last, i := 0, 0, 0;
    NothingPrinted(log, limit);
    hide Printed, Separated, Proper;
    while i < |merged|
      invariant Reached(merged, i, Print(pieces, shown, last), limit)
      invariant Printed(log, merged[..i], Print(pieces, shown, last), limit)
    {
      if shown >= limit {
        break;
      }
      var w := merged[i];
      ghost var pr := Print(pieces, shown, last);
      ShownBelow(log, merged[..i], pr, limit);
      NextWindow(log, merged, i, pr, limit);
      var end := Min(w.end, w.start + limit - shown);
      if w.start > last {
        pieces := pieces + [Gap(w.start - last)];
      }
      pieces := pieces + [Text(log[w.start..Min(end, |log|)])];
      shown := shown + (end - w.start);
      last := end;
      i := i + 1;
      assert Print(pieces, shown, last) == PrintOne(log, w, pr, limit);
    }
    cut := Min(last, |log|);
    ghost var pr := Print(pieces, shown, last);
    if last < |log| {
      pieces := pieces + [Gap(|log| - last)];
    }
    Finished(log, merged, i, pr, limit, pieces, cut);
  }

  lemma ShownBelow(log: string, ws: seq<Window>, pr: Print, limit: int)
    requires Printed(log, ws, pr, limit)
    ensures pr.shown <= limit
  {
  }

  /** The last count completes the log. */
  lemma Finished(log: string, merged: seq<Window>, i: nat, pr: Print, limit: nat, pieces: seq<Piece>, cut: int)
    requires Proper(merged) && Separated(merged) && merged != [] && |log| <= merged[|merged| - 1].end
    requires Reached(merged, i, pr, limit) && Printed(log, merged[..i], pr, limit)
    requires i == |merged| || pr.shown >= limit
    requires pieces == if pr.last < |log| then pr.pieces + [Gap(|log| - pr.last)] else pr.pieces
    requires cut == Min(pr.last, |log|)
    ensures Tells(log, pieces) && Total(pieces) == |log| && ShownTotal(pieces) <= limit
    ensures 0 <= cut <= |log| && (cut == |log| || ShownTotal(pieces) == limit)
    ensures forall k :: Shows(pieces, k) <==> Covers(merged, k) && k < cut
  {
    RestNotCovered(merged, merged[..i], i, Min(pr.last, |log|));
    hide Covers;
    if pr.last < |log| {
      PutPiece(log, pr.pieces, Gap(|log| - pr.last));
    }
  }

  /** The windows not reached begin after the cut. */
  lemma RestNotCovered(merged: seq<Window>, front: seq<Window>, i: nat, cut: int)
    requires Proper(merged) && Separated(merged) && i <= |merged| && front == merged[..i]
    requires if i > 0 then cut <= merged[i - 1].end else cut == 0
    ensures forall k :: k < cut ==> (Covers(merged, k) <==> Covers(front, k))
  {
    forall k | k < cut ensures Covers(merged, k) <==> Covers(front, k) {
      if Covers(merged, k) {
        var j :| 0 <= j < |merged| && merged[j].start <= k < merged[j].end;
        EarlierIndex(merged, i, j, k, cut);
        assert front[j] == merged[j];
      }
      if Covers(front, k) {
        var j :| 0 <= j < i && front[j].start <= k < front[j].end;
        assert merged[j] == front[j];
      }
    }
  }

  lemma EarlierIndex(merged: seq<Window>, i: nat, j: nat, k: int, cut: int)
    requires Proper(merged) && Separated(merged) && i <= |merged| && j < |merged|
    requires if i > 0 then cut <= merged[i - 1].end else cut == 0
    requires merged[j].start <= k < cut
    ensures j < i
  {
  }

  // ------------------------------------------------------------- the whole

  /** The window around an anchor. */
  function Around(a: int, before: nat, after: nat): Window {
    Window(if a < before then 0 else a - before, a + after)
  }

  function Windows(anchors: seq<int>, before: nat, after: nat): seq<Window> {
    if anchors == [] then []
    else Windows(anchors[..|anchors| - 1], before, after)
         + if anchors[|anchors| - 1] >= 0 then [Around(anchors[|anchors| - 1], before, after)] else []
  }

  /** All that was asked for: the windows around the anchors found, and the end of the log. */
  function Requested(log: string, anchors: seq<int>, before: nat, after: nat, tail: nat): seq<Window> {
    Windows(anchors, before, after) + [Window(if |log| < tail then 0 else |log| - tail, |log|)]
  }

  /** Position k of the log is asked for: it is near an anchor that was found, or at the end. */
  ghost predicate IsRequested(log: string, anchors: seq<int>, before: nat, after: nat, tail: nat, k: int) {
    || (exists i :: 0 <= i < |anchors| && anchors[i] >= 0 && 0 <= k && anchors[i] - before <= k < anchors[i] + after)
    || (0 <= k && |log| - tail <= k < |log|)
  }

  lemma {:induction false} WindowsCover(anchors: seq<int>, before: nat, after: nat, k: int)
    ensures Covers(Windows(anchors, before, after), k)
       <==> exists i :: 0 <= i < |anchors| && anchors[i] >= 0 && 0 <= k && anchors[i] - before <= k < anchors[i] + after
  {
    if anchors != [] {
      var n := |anchors| - 1;
      var front, last := Windows(anchors[..n], before, after), anchors[n];
      WindowsCover(anchors[..n], before, after, k);
      var one := if last >= 0 then [Around(last, before, after)] else [];
      CoversJoin(front, one, k);
      forall i | 0 <= i < n ensures anchors[..n][i] == anchors[i] {
      }
      if last >= 0 { assert one[0] == Around(last, before, after); }
    }
  }

  lemma CoversJoin(a: seq<Window>, b: seq<Window>, k: int)
    ensures Covers(a + b, k) <==> Covers(a, k) || Covers(b, k)
  {
    var all := a + b;
    if Covers(a, k) {
      var i :| 0 <= i < |a| && a[i].start <= k < a[i].end;
      assert all[i] == a[i];
    }
    if Covers(b, k) {
      var i :| 0 <= i < |b| && b[i].start <= k < b[i].end;
      assert all[|a| + i] == b[i];
    }
  }

  lemma RequestedIff(log: string, anchors: seq<int>, before: nat, after: nat, tail: nat, k: int)
    ensures Covers(Requested(log, anchors, before, after, tail), k) <==> IsRequested(log, anchors, before, after, tail, k)
  {
    var last := [Window(if |log| < tail then 0 else |log| - tail, |log|)];
    WindowsCover(anchors, before, after, k);
    CoversJoin(Windows(anchors, before, after), last, k);
    assert last[0].end == |log|;
  }

  lemma {:induction false} WindowsAre(anchors: seq<int>, before: nat, after: nat, length: int)
    requires forall i :: 0 <= i < |anchors| ==> anchors[i] < length
    ensures forall w :: w in Windows(anchors, before, after) ==> 0 <= w.start <= w.end && w.start < length
  {
    if anchors != [] {
      WindowsAre(anchors[..|anchors| - 1], before, after, length);
    }
  }

  lemma SortedProper(ws: seq<Window>, length: int)
    requires forall w :: w in ws ==> 0 <= w.start <= w.end && w.start <= length
    ensures Proper(SortWindows(ws))
    ensures forall i :: 0 <= i < |SortWindows(ws)| ==> SortWindows(ws)[i].start <= length
  {
    var r := SortWindows(ws);
    forall i | 0 <= i < |r| ensures 0 <= r[i].start <= r[i].end && r[i].start <= length {
      SortedIn(ws, r[i]);
    }
  }

  /** A log that is too long, in pieces that add up to it: exactly the requested characters are
      shown, up to cut, and cut is the end unless limit characters are shown before it. anchors are
      the places found, -1 for none. */
  method Clip(log: string, anchors: seq<int>, before: nat, after: nat, tail: nat, limit: nat)
    returns (pieces: seq<Piece>, ghost cut: int)
    requires forall i :: 0 <= i < |anchors| ==> anchors[i] < |log|
    ensures Tells(log, pieces) && Total(pieces) == |log| && ShownTotal(pieces) <= limit
    ensures |log| <= limit ==> pieces == [Text(log)]
    ensures |log| > limit ==>
              && 0 <= cut <= |log| && (cut == |log| || ShownTotal(pieces) == limit)
              && forall k :: Shows(pieces, k) <==> IsRequested(log, anchors, before, after, tail, k) && k < cut
  {
    cut := |log|;
    if |log| <= limit {
      PutPiece(log, [], Text(log));
      assert [] + [Text(log)] == [Text(log)];
      return [Text(log)], cut;
    }
    hide SortWindows, IsSorted, Covers, Separated, IsRequested;
    var all := Requested(log, anchors, before, after, tail);
    var windows := SortWindows(all);
    WindowsAre(anchors, before, after, |log|);
    SortedProper(all, |log|);
    SortedOrder(all);
    var merged := Merge(windows);
    ReachesEnd(log, all, windows, merged);
    pieces, cut := Show(log, merged, limit);
    forall k ensures Covers(merged, k) <==> IsRequested(log, anchors, before, after, tail, k) {
      SortedCovers(all, k);
      RequestedIff(log, anchors, before, after, tail, k);
    }
  }

  lemma SortedOrder(ws: seq<Window>)
    ensures IsSorted(SortWindows(ws))
  {
  }

  lemma ReachesEnd(log: string, all: seq<Window>, windows: seq<Window>, merged: seq<Window>)
    requires windows == SortWindows(all) && Merging(windows, merged)
    requires all != [] && all[|all| - 1].end == |log|
    requires forall i :: 0 <= i < |windows| ==> windows[i].start <= |log|
    ensures merged != [] && |log| <= merged[|merged| - 1].end
    ensures forall i :: 0 <= i < |merged| ==> merged[i].start <= |log|
  {
    hide Covers, SortWindows, Proper;
    var last := all[|all| - 1];
    SortedIn(all, last);
    assert Within(merged, last);
    LastReaches(merged, last);
    forall i | 0 <= i < |merged| ensures merged[i].start <= |log| {
      assert StartsAt(windows, merged[i].start);
    }
  }

  lemma LastReaches(merged: seq<Window>, w: Window)
    requires Proper(merged) && Separated(merged) && Within(merged, w)
    ensures merged != [] && w.end <= merged[|merged| - 1].end
  {
    var j :| 0 <= j < |merged| && merged[j].start <= w.start && w.end <= merged[j].end;
    if j < |merged| - 1 { assert merged[j].end < merged[|merged| - 1].start; }
  }
}
