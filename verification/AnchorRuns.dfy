/**
 Anchoring in the life of a log: runs of appends, retention and anchorings. Retention's
 cutoffs lie in the past, so no event is created before an earlier cutoff.
 */
module AnchorRuns {
  import opened Wrappers
  import opened AuditHash
  import opened Audit
  import Sequences

  datatype Step = Append(id: int, seqNo: int, event: Event) | Retain(cutoff: Instant) | TakeAnchor

  /**
   The tables, and what the run remembers: the last event's creation time, the latest
   cutoff, the row last anchored, and whether retention has deleted rows since.
   */
  datatype Tables = Tables(
    log: Log, anchors: seq<Anchor>,
    latest: Option<Instant>, floor: Option<Instant>, head: Option<Row>, stale: bool)

  const INITIAL := Tables(EMPTY, [], None, None, None, false)

  predicate NotAfter(t: Option<Instant>, u: Instant) {
    t.Some? ==> t.value <= u
  }

  /** Events are created in order, and not before an earlier cutoff. */
  predicate Enabled(t: Tables, s: Step) {
    s.Append? ==> NotAfter(t.latest, s.event.createdAt) && NotAfter(t.floor, s.event.createdAt)
  }

  /** When AnchorSigned stores an anchor. */
  predicate CanAnchor(t: Tables) {
    t.log.rows != [] && Intact(t.log.rows, t.log.watermark) && MatchesLast(t.log.rows, t.anchors)
  }

  function Next(t: Tables, s: Step): Tables {
    match s
    case Append(id, seqNo, e) => t.(log := AppendRow(t.log, id, seqNo, e), latest := Some(e.createdAt))
    case Retain(cutoff) =>
      var pruned := PruneRows(t.log, cutoff);
      t.(log := pruned,
         floor := if NotAfter(t.floor, cutoff) then Some(cutoff) else t.floor,
         stale := t.stale || (t.anchors != [] && |pruned.rows| < |t.log.rows|))
    case TakeAnchor =>
      if CanAnchor(t) then
        t.(anchors := t.anchors + [HeadAnchor(t.log.rows)],
           head := Some(t.log.rows[|t.log.rows| - 1]),
           stale := false)
      else t
  }

  function Run(steps: seq<Step>): Option<Tables> {
    if steps == [] then Some(INITIAL)
    else
      var n := |steps| - 1;
      var t := Run(steps[..n]);
      if t.Some? && Enabled(t.value, steps[n]) then Some(Next(t.value, steps[n])) else None
  }

  // ---- where the anchored row is -------------------------------------------

  /** The anchored row is where it was. */
  predicate InPlace(rows: seq<Row>, count: int, head: Row) {
    1 <= count <= |rows| && rows[count - 1] == head
  }

  /** It has moved down. */
  predicate Lower(rows: seq<Row>, count: int, head: Row) {
    exists p: nat :: p < count - 1 && p < |rows| && rows[p] == head
  }

  /** It is gone, and every row left or still to come was created after it. */
  predicate Outlived(t: Tables, head: Row) {
    t.floor.Some? && head.event.createdAt < t.floor.value
    && forall r <- t.log.rows :: head.event.createdAt < r.event.createdAt
  }

  predicate AnchorsSound(t: Tables) {
    if t.anchors == [] then !t.stale
    else
      var last := t.anchors[|t.anchors| - 1];
      && t.head.Some? && last.headHash == t.head.value.hash
      && t.head.value.hash == RowHash(t.head.value.prev, t.head.value.event)
      && if t.stale then last.count >= 1 && (Lower(t.log.rows, last.count, t.head.value) || Outlived(t, t.head.value))
         else InPlace(t.log.rows, last.count, t.head.value)
  }

  predicate Invariant(t: Tables) {
    Healthy(t.log, t.latest) && AnchorsSound(t)
  }

  /** In an ordered log that loses rows, a row that stays moves down. */
  lemma RowMovesDown(rows: seq<Row>, cutoff: Instant, p: nat) returns (q: nat)
    requires TimesFollowSeq(rows) && |Kept(rows, cutoff)| < |rows| && Keeps(rows, cutoff, p)
    ensures q < p && q < |Kept(rows, cutoff)| && Kept(rows, cutoff)[q] == rows[p]
  {
    var at := KeptAt(rows, cutoff);
    assert p in at;
    KeptAreAt(rows, cutoff);
    OrderedRowsAreContiguous(rows, cutoff);
    ContiguousIsConsecutive(rows, cutoff);
    FirstKeptIsLater(rows, cutoff);
    ConsecutiveRange(at, p);
    q := p - at[0];
    ConsecutiveFrom(at, q);
  }

  /** Retention that deletes rows moves an anchored row down or outlives it. */
  lemma RetentionMoves(t: Tables, cutoff: Instant, count: int, head: Row, p: nat)
    requires TimesFollowSeq(t.log.rows) && |Kept(t.log.rows, cutoff)| < |t.log.rows|
    requires p < |t.log.rows| && t.log.rows[p] == head && p < count
    ensures var u := Next(t, Retain(cutoff)); Lower(u.log.rows, count, head) || Outlived(u, head)
  {
    if head.event.createdAt >= cutoff {
      var q := RowMovesDown(t.log.rows, cutoff, p);
    }
  }

  lemma OutlivedStays(t: Tables, cutoff: Instant, head: Row)
    requires Outlived(t, head)
    ensures Outlived(Next(t, Retain(cutoff)), head)
  {
  }

  lemma LossKeepsAnchors(t: Tables, cutoff: Instant)
    requires Invariant(t) && t.anchors != [] && |Kept(t.log.rows, cutoff)| < |t.log.rows|
    ensures var u := Next(t, Retain(cutoff));
            Lower(u.log.rows, t.anchors[|t.anchors| - 1].count, t.head.value) || Outlived(u, t.head.value)
  {
    var last, head := t.anchors[|t.anchors| - 1], t.head.value;
    if !t.stale {
      RetentionMoves(t, cutoff, last.count, head, last.count - 1);
    } else if Lower(t.log.rows, last.count, head) {
      var p: nat :| p < last.count - 1 && p < |t.log.rows| && t.log.rows[p] == head;
      RetentionMoves(t, cutoff, last.count, head, p);
    } else {
      OutlivedStays(t, cutoff, head);
    }
  }

  lemma NoLossKeepsAnchors(t: Tables, cutoff: Instant)
    requires AnchorsSound(t) && |Kept(t.log.rows, cutoff)| == |t.log.rows|
    ensures AnchorsSound(Next(t, Retain(cutoff)))
  {
    assert Next(t, Retain(cutoff)).log == t.log;
    if t.anchors != [] && Outlived(t, t.head.value) {
      OutlivedStays(t, cutoff, t.head.value);
    }
  }

  lemma RetainKeepsAnchors(t: Tables, cutoff: Instant)
    requires Invariant(t)
    ensures AnchorsSound(Next(t, Retain(cutoff)))
  {
    Sequences.FilterSameLength(t.log.rows, NotBefore(cutoff));
    if |Kept(t.log.rows, cutoff)| == |t.log.rows| {
      NoLossKeepsAnchors(t, cutoff);
    } else if t.anchors != [] {
      LossKeepsAnchors(t, cutoff);
    }
  }

  lemma AppendKeepsAnchors(t: Tables, s: Step)
    requires Invariant(t) && s.Append? && Enabled(t, s)
    ensures AnchorsSound(Next(t, s))
  {
    var rows := t.log.rows;
    if t.anchors != [] && t.stale {
      var last, head := t.anchors[|t.anchors| - 1], t.head.value;
      if Lower(rows, last.count, head) {
        var p: nat :| p < last.count - 1 && p < |rows| && rows[p] == head;
        assert Next(t, s).log.rows[p] == head;
      }
    }
  }

  lemma AnchorKeepsAnchors(t: Tables)
    requires Invariant(t)
    ensures AnchorsSound(Next(t, TakeAnchor))
  {
    if CanAnchor(t) {
      assert !Broken(t.log.rows, t.log.watermark, |t.log.rows| - 1);
    }
  }

  lemma StepKeepsInvariant(t: Tables, s: Step)
    requires Invariant(t) && Enabled(t, s)
    ensures Invariant(Next(t, s))
  {
    match s
    case Append(id, seqNo, e) =>
      AppendKeepsHealth(t.log, t.latest, id, seqNo, e);
      AppendKeepsAnchors(t, s);
    case Retain(cutoff) =>
      PruneKeepsHealth(t.log, t.latest, cutoff);
      RetainKeepsAnchors(t, cutoff);
    case TakeAnchor =>
      AnchorKeepsAnchors(t);
  }

  lemma {:induction false} RunKeepsInvariant(steps: seq<Step>)
    requires Run(steps).Some?
    ensures Invariant(Run(steps).value)
  {
    if steps != [] {
      var n := |steps| - 1;
      RunKeepsInvariant(steps[..n]);
      StepKeepsInvariant(Run(steps[..n]).value, steps[n]);
    }
  }

  // ---- when the stored anchor matches --------------------------------------

  /** A row that has moved down leaves a deeper hash in its place. */
  lemma LowerMismatches(l: Log, count: int, head: Row)
    requires Intact(l.rows, l.watermark) && Lower(l.rows, count, head)
    ensures !MatchesAnchor(l.rows, count, head.hash)
  {
    var p: nat :| p < count - 1 && p < |l.rows| && l.rows[p] == head;
    if count <= |l.rows| {
      HashesDeepen(l.rows, l.watermark, p, count - 1);
    }
  }

  /** A later row, even of a log begun anew, has another creation time under its hash. */
  lemma OutlivedMismatches(t: Tables, count: int, head: Row)
    requires Intact(t.log.rows, t.log.watermark) && Outlived(t, head) && count >= 1
    requires head.hash == RowHash(head.prev, head.event)
    ensures !MatchesAnchor(t.log.rows, count, head.hash)
  {
    var rows := t.log.rows;
    if count <= |rows| && rows[count - 1].hash == head.hash {
      assert !Broken(rows, t.log.watermark, count - 1);
      HashCoversTime(head.prev, head.event, rows[count - 1].prev, rows[count - 1].event);
    }
  }

  lemma MatchesUnlessStale(t: Tables)
    requires Invariant(t)
    ensures MatchesLast(t.log.rows, t.anchors) <==> !t.stale
  {
    if t.anchors != [] && t.stale {
      var last, head := t.anchors[|t.anchors| - 1], t.head.value;
      if Lower(t.log.rows, last.count, head) {
        LowerMismatches(t.log, last.count, head);
      } else {
        OutlivedMismatches(t, last.count, head);
      }
    }
  }

  /**
   In every run the chain verifies against the stored anchors exactly when retention
   has deleted no row since the last anchor was stored.
   */
  lemma AnchorMatchesIff(steps: seq<Step>)
    requires Run(steps).Some?
    ensures var t := Run(steps).value;
            Intact(t.log.rows, t.log.watermark) && (MatchesLast(t.log.rows, t.anchors) <==> !t.stale)
  {
    RunKeepsInvariant(steps);
    MatchesUnlessStale(Run(steps).value);
  }

  /** Once it has, verification fails for good: every later anchoring is refused, so none can put it right. */
  lemma {:induction false} StaleForever(steps: seq<Step>, k: nat)
    requires k <= |steps| && Run(steps).Some? && Run(steps[..k]).Some? && Run(steps[..k]).value.stale
    ensures var t, u := Run(steps[..k]).value, Run(steps).value;
            u.stale && u.anchors == t.anchors && !MatchesLast(u.log.rows, u.anchors)
  {
    AnchorMatchesIff(steps);
    if k == |steps| {
      assert steps[..k] == steps;
    } else {
      var n := |steps| - 1;
      assert steps[..n][..k] == steps[..k];
      StaleForever(steps[..n], k);
    }
  }
}
