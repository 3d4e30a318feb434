/**
 The hash-chained audit log: appends, retention, verification and anchors.
 */
module Audit {
  import opened Wrappers
  import opened Text
  import opened Sequences
  import opened AuditHash

  datatype Row = Row(id: int, seqNo: int, prev: Value, hash: Value, event: Event)

  const GENESIS: Value := []

  // ---- the chain -----------------------------------------------------------

  predicate LinkBroken(rows: seq<Row>, watermark: Value, i: nat)
    requires i < |rows|
  {
    rows[i].prev != if i == 0 then watermark else rows[i - 1].hash
  }

  predicate ContentBroken(rows: seq<Row>, i: nat)
    requires i < |rows|
  {
    rows[i].hash != RowHash(rows[i].prev, rows[i].event)
  }

  predicate Broken(rows: seq<Row>, watermark: Value, i: nat)
    requires i < |rows|
  {
    LinkBroken(rows, watermark, i) || ContentBroken(rows, i)
  }

  predicate Intact(rows: seq<Row>, watermark: Value) {
    forall i: nat | i < |rows| :: !Broken(rows, watermark, i)
  }

  datatype Kind = NoBreak | Link | Content | Truncation | Prefix

  datatype VerifyResult = VerifyResult(
    events: nat, ok: bool, headHash: Value, headSeq: int, breakId: int, breakKind: Kind)

  datatype Anchor = Anchor(count: int, headHash: Value, headSeq: int)

  /** The last stored anchor, if any, against the rows: enough of them, and the anchored one unchanged. */
  predicate MatchesAnchor(rows: seq<Row>, count: int, headHash: Value) {
    count <= |rows| && (count >= 1 ==> rows[count - 1].hash == headHash)
  }

  predicate MatchesLast(rows: seq<Row>, anchors: seq<Anchor>) {
    anchors == [] || MatchesAnchor(rows, anchors[|anchors| - 1].count, anchors[|anchors| - 1].headHash)
  }

  /** The chain pass reports its first broken row, a bad link before bad content, and still counts every row. */
  ghost predicate Reports(res: VerifyResult, rows: seq<Row>, watermark: Value) {
    && res.events == |rows|
    && (rows != [] ==> res.headHash == rows[|rows| - 1].hash && res.headSeq == rows[|rows| - 1].seqNo)
    && (res.ok <==> Intact(rows, watermark))
    && (res.ok ==> res.breakKind == NoBreak)
    && (!res.ok ==> exists i: nat ::
          && i < |rows| && Broken(rows, watermark, i)
          && (forall j: nat | j < i :: !Broken(rows, watermark, j))
          && res.breakId == rows[i].id
          && res.breakKind == if LinkBroken(rows, watermark, i) then Link else Content)
  }

  /** `rows` are the table's rows in sequence order. */
  method ScanChain(rows: seq<Row>, watermark: Value) returns (res: VerifyResult)
    ensures Reports(res, rows, watermark)
  {
    res := VerifyResult(0, true, GENESIS, 0, 0, NoBreak);
    ghost var first: nat := 0;
    for i := 0 to |rows|
      invariant res.events == i
      invariant i > 0 ==> res.headHash == rows[i - 1].hash && res.headSeq == rows[i - 1].seqNo
      invariant res.ok ==> res.breakKind == NoBreak && forall j: nat | j < i :: !Broken(rows, watermark, j)
      invariant !res.ok ==>
                  && first < i && Broken(rows, watermark, first)
                  && (forall j: nat | j < first :: !Broken(rows, watermark, j))
                  && res.breakId == rows[first].id
                  && res.breakKind == if LinkBroken(rows, watermark, first) then Link else Content
    {
      res := res.(events := res.events + 1, headHash := rows[i].hash, headSeq := rows[i].seqNo);
      if res.ok {
        var expected := if i == 0 then watermark else rows[i - 1].hash;
        if rows[i].prev != expected {
          res := res.(ok := false, breakId := rows[i].id, breakKind := Link);
          first := i;
        } else if rows[i].hash != RowHash(rows[i].prev, rows[i].event) {
          res := res.(ok := false, breakId := rows[i].id, breakKind := Content);
          first := i;
        }
      }
    }
  }

  // ---- retention -----------------------------------------------------------

  predicate Keeps(rows: seq<Row>, cutoff: Instant, i: nat) {
    i < |rows| && rows[i].event.createdAt >= cutoff
  }

  /** The positions of the rows retention keeps. */
  function KeptAt(rows: seq<Row>, cutoff: Instant): (r: seq<nat>)
    ensures forall i: nat :: i in r <==> Keeps(rows, cutoff, i)
    ensures forall m, n | 0 <= m < n < |r| :: r[m] < r[n]
  {
    if rows == [] then []
    else
      var n := |rows| - 1;
      var r := KeptAt(rows[..n], cutoff);
      assert forall i: nat | i < n :: Keeps(rows[..n], cutoff, i) <==> Keeps(rows, cutoff, i);
      assert forall m | 0 <= m < |r| :: r[m] in r && Keeps(rows[..n], cutoff, r[m]);
      if Keeps(rows, cutoff, n) then r + [n] else r
  }

  function NotBefore(cutoff: Instant): Row -> bool {
    (r: Row) => r.event.createdAt >= cutoff
  }

  function Kept(rows: seq<Row>, cutoff: Instant): seq<Row> {
    Filter(rows, NotBefore(cutoff))
  }

  datatype Log = Log(rows: seq<Row>, watermark: Value)

  function AppendRow(l: Log, id: int, seqNo: int, e: Event): Log {
    var prev := if l.rows == [] then GENESIS else l.rows[|l.rows| - 1].hash;
    l.(rows := l.rows + [Row(id, seqNo, prev, RowHash(prev, e), e)])
  }

  function PruneRows(l: Log, cutoff: Instant): Log {
    var kept := Kept(l.rows, cutoff);
    if |kept| == |l.rows| then l
    else Log(kept, if kept == [] then GENESIS else kept[0].prev)
  }

  /** The audit tables and the operations on them. */
  class AuditLog {
    var rows: seq<Row>
    var watermark: Value
    var anchors: seq<Anchor>

    constructor ()
      ensures rows == [] && watermark == GENESIS && anchors == []
    {
      rows, watermark, anchors := [], GENESIS, [];
    }

    function State(): Log
      reads this
    {
      Log(rows, watermark)
    }

    /** The insert trigger. */
    method Append(id: int, seqNo: int, e: Event)
      modifies this
      ensures State() == AppendRow(old(State()), id, seqNo, e) && anchors == old(anchors)
      ensures var prev := if old(rows) == [] then GENESIS else old(rows)[|old(rows)| - 1].hash;
              rows == old(rows) + [Row(id, seqNo, prev, RowHash(prev, e), e)] && watermark == old(watermark)
    {
      var prev := GENESIS;
      if rows != [] {
        prev := rows[|rows| - 1].hash;
      }
      rows := rows + [Row(id, seqNo, prev, RowHash(prev, e), e)];
    }

    /** Deletes aged rows and, if there were any, moves the watermark. */
    method Prune(cutoff: Instant) returns (deleted: int)
      modifies this
      ensures State() == PruneRows(old(State()), cutoff) && anchors == old(anchors)
      ensures rows == Filter(old(rows), (r: Row) => r.event.createdAt >= cutoff)
      ensures watermark == if deleted == 0 then old(watermark) else if rows == [] then GENESIS else rows[0].prev
      ensures deleted == |old(rows)| - |rows|
    {
      var kept := Kept(rows, cutoff);
      var mark := GENESIS;
      if kept != [] {
        mark := kept[0].prev;
      }
      deleted := |rows| - |kept|;
      FilterSameLength(rows, NotBefore(cutoff));
      if deleted > 0 {
        rows, watermark := kept, mark;
      }
    }

    method Verify() returns (res: VerifyResult)
      ensures !Intact(rows, watermark) ==> Reports(res, rows, watermark)
      ensures Intact(rows, watermark) ==>
                && Reports(res.(ok := true, breakKind := NoBreak), rows, watermark)
                && (res.ok <==> MatchesLast(rows, anchors))
                && (!res.ok ==> res.breakKind == if |rows| < anchors[|anchors| - 1].count then Truncation else Prefix)
    {
      res := ScanChain(rows, watermark);
      if !res.ok || anchors == [] {
        return;
      }
      var last := anchors[|anchors| - 1];
      if res.events < last.count {
        res := res.(ok := false, breakKind := Truncation);
      } else if last.count >= 1 && rows[last.count - 1].hash != last.headHash {
        res := res.(ok := false, breakKind := Prefix);
      }
    }

    /** Verifies, signs the head with the process's key and stores it; refuses a broken or empty chain. */
    method AnchorSigned(key: string, now: Instant) returns (r: Result<AnchorRecord>)
      modifies this`anchors
      ensures r.Ok? <==> Intact(rows, watermark) && MatchesLast(rows, old(anchors)) && rows != []
      ensures r.Ok? ==> AnchorsHead(r.value, rows) && r.value.kid == key && r.value.createdAt == now
                        && anchors == old(anchors) + [HeadAnchor(rows)]
      ensures r.Err? ==> anchors == old(anchors)
    {
      var res := Verify();
      if !res.ok {
        return Err("refusing to anchor a broken chain");
      }
      if res.events == 0 {
        return Err("refusing to anchor an empty chain");
      }
      var message := CanonicalAnchor(res.events, res.headHash, res.headSeq, now);
      var rec := AnchorRecord(res.events, res.headHash, res.headSeq, now, key, Signature(key, message));
      anchors := anchors + [Anchor(rec.count, rec.headHash, rec.headSeq)];
      return Ok(rec);
    }

    /** Checks the live chain against a record kept elsewhere. */
    method CheckAgainstAnchor(ext: AnchorRecord, keys: set<string>)
      returns (r: Result<VerifyResult>)
      ensures r.Ok? && r.value.ok <==>
                && ValidSignature(ext, keys) && Intact(rows, watermark) && MatchesLast(rows, anchors)
                && ext.count >= 1 && MatchesAnchor(rows, ext.count, ext.headHash)
      ensures r.Ok? ==> ext.kid in keys && ext.signature.kid == ext.kid
      ensures r.Err? <==> !ValidSignature(ext, keys)
                          || (Intact(rows, watermark) && MatchesLast(rows, anchors) && ext.count < 1)
      ensures r.Ok? && !Intact(rows, watermark) ==> Reports(r.value, rows, watermark)
      ensures r.Ok? && Intact(rows, watermark) && !MatchesLast(rows, anchors) ==>
                r.value.breakKind == if |rows| < anchors[|anchors| - 1].count then Truncation else Prefix
      ensures r.Ok? && !r.value.ok && Intact(rows, watermark) && MatchesLast(rows, anchors) ==>
                r.value.breakKind == if |rows| < ext.count then Truncation else Prefix
    {
      if !ValidSignature(ext, keys) {
        return Err("anchor signature invalid");
      }
      var res := Verify();
      if !res.ok {
        return Ok(res);
      }
      if res.events < ext.count {
        return Ok(res.(ok := false, breakKind := Truncation));
      }
      if ext.count < 1 {
        return Err("OFFSET must not be negative");
      }
      if rows[ext.count - 1].hash != ext.headHash {
        return Ok(res.(ok := false, breakKind := Prefix));
      }
      return Ok(res);
    }
  }

  lemma {:induction false} KeptAreAt(rows: seq<Row>, cutoff: Instant)
    ensures var at, kept := KeptAt(rows, cutoff), Kept(rows, cutoff);
            |at| == |kept| && forall m | 0 <= m < |at| :: at[m] < |rows| && kept[m] == rows[at[m]]
  {
    if rows != [] {
      KeptAreAt(rows[..|rows| - 1], cutoff);
    }
  }

  /** Along an intact chain each hash nests deeper than those before it, so no two rows share one. */
  lemma {:induction false} HashesDeepen(rows: seq<Row>, watermark: Value, i: nat, j: nat)
    requires Intact(rows, watermark) && i < j < |rows|
    ensures Depth(rows[i].hash) < Depth(rows[j].hash)
    decreases j
  {
    assert !Broken(rows, watermark, j);
    HashIsDeeper(rows[j].prev, rows[j].event);
    if i < j - 1 {
      HashesDeepen(rows, watermark, i, j - 1);
    }
  }

  /** No row before the cutoff stands between two that are not. */
  predicate Contiguous(rows: seq<Row>, cutoff: Instant) {
    forall i, j, k | 0 <= i < j < k < |rows| ::
      Keeps(rows, cutoff, i) && Keeps(rows, cutoff, k) ==> Keeps(rows, cutoff, j)
  }

  /** The positions kept follow one another. */
  predicate Consecutive(at: seq<nat>) {
    forall m | 0 <= m < |at| - 1 :: at[m + 1] == at[m] + 1
  }

  lemma NextKept(rows: seq<Row>, cutoff: Instant, m: nat)
    requires m + 1 < |KeptAt(rows, cutoff)| && Keeps(rows, cutoff, KeptAt(rows, cutoff)[m] + 1)
    ensures KeptAt(rows, cutoff)[m + 1] == KeptAt(rows, cutoff)[m] + 1
  {
    var at := KeptAt(rows, cutoff);
    var k :| 0 <= k < |at| && at[k] == at[m] + 1;
    assert k > m && at[m + 1] <= at[k];
  }

  lemma ContiguousHasNoGap(rows: seq<Row>, cutoff: Instant, m: nat)
    requires Contiguous(rows, cutoff) && m + 1 < |KeptAt(rows, cutoff)|
    ensures KeptAt(rows, cutoff)[m + 1] == KeptAt(rows, cutoff)[m] + 1
  {
    var at := KeptAt(rows, cutoff);
    assert at[m] in at && at[m + 1] in at;
    if at[m] + 1 < at[m + 1] {
      NextKept(rows, cutoff, m);
    }
  }

  /** Consecutive positions are just those of a range. */
  lemma ConsecutiveRange(at: seq<nat>, i: nat)
    requires Consecutive(at) && at != []
    ensures i in at <==> at[0] <= i < at[0] + |at|
  {
    if i in at {
      var a: nat :| a < |at| && at[a] == i;
      ConsecutiveFrom(at, a);
    }
    if at[0] <= i < at[0] + |at| {
      ConsecutiveFrom(at, i - at[0]);
    }
  }

  lemma NoGapIsContiguous(rows: seq<Row>, cutoff: Instant, i: nat, j: nat, k: nat)
    requires Consecutive(KeptAt(rows, cutoff)) && i < j < k && Keeps(rows, cutoff, i) && Keeps(rows, cutoff, k)
    ensures Keeps(rows, cutoff, j)
  {
    var at := KeptAt(rows, cutoff);
    assert i in at && k in at;
    ConsecutiveRange(at, i);
    ConsecutiveRange(at, j);
    ConsecutiveRange(at, k);
  }

  lemma ContiguousIsConsecutive(rows: seq<Row>, cutoff: Instant)
    ensures Contiguous(rows, cutoff) <==> Consecutive(KeptAt(rows, cutoff))
  {
    if Contiguous(rows, cutoff) {
      forall m: nat | m + 1 < |KeptAt(rows, cutoff)|
        ensures KeptAt(rows, cutoff)[m + 1] == KeptAt(rows, cutoff)[m] + 1
      {
        ContiguousHasNoGap(rows, cutoff, m);
      }
    }
    if Consecutive(KeptAt(rows, cutoff)) {
      forall i, j, k | 0 <= i < j < k < |rows| && Keeps(rows, cutoff, i) && Keeps(rows, cutoff, k)
        ensures Keeps(rows, cutoff, j)
      {
        NoGapIsContiguous(rows, cutoff, i, j, k);
      }
    }
  }

  lemma KeptRow(l: Log, cutoff: Instant, m: nat)
    requires Intact(l.rows, l.watermark) && m < |KeptAt(l.rows, cutoff)|
    ensures m < |Kept(l.rows, cutoff)|
    ensures var k := KeptAt(l.rows, cutoff)[m];
            k < |l.rows| && Kept(l.rows, cutoff)[m] == l.rows[k] && !Broken(l.rows, l.watermark, k)
  {
    KeptAreAt(l.rows, cutoff);
  }

  /** A kept row after the first is broken exactly if its predecessor was deleted. */
  lemma GapBreaks(l: Log, cutoff: Instant, mark: Value, m: nat)
    requires Intact(l.rows, l.watermark) && m + 1 < |Kept(l.rows, cutoff)| == |KeptAt(l.rows, cutoff)|
    ensures Broken(Kept(l.rows, cutoff), mark, m + 1)
       <==> KeptAt(l.rows, cutoff)[m + 1] != KeptAt(l.rows, cutoff)[m] + 1
  {
    KeptRow(l, cutoff, m);
    KeptRow(l, cutoff, m + 1);
    if KeptAt(l.rows, cutoff)[m] + 1 < KeptAt(l.rows, cutoff)[m + 1] {
      HashesDeepen(l.rows, l.watermark, KeptAt(l.rows, cutoff)[m], KeptAt(l.rows, cutoff)[m + 1] - 1);
    }
  }

  lemma KeptRowFits(l: Log, cutoff: Instant, i: nat)
    requires Intact(l.rows, l.watermark) && Consecutive(KeptAt(l.rows, cutoff)) && i < |Kept(l.rows, cutoff)|
    ensures !Broken(Kept(l.rows, cutoff), Kept(l.rows, cutoff)[0].prev, i)
  {
    KeptAreAt(l.rows, cutoff);
    KeptRow(l, cutoff, i);
    if i > 0 {
      GapBreaks(l, cutoff, Kept(l.rows, cutoff)[0].prev, i - 1);
    }
  }

  lemma NoGapKeepsIntact(l: Log, cutoff: Instant)
    requires Intact(l.rows, l.watermark) && Kept(l.rows, cutoff) != [] && Consecutive(KeptAt(l.rows, cutoff))
    ensures Intact(Kept(l.rows, cutoff), Kept(l.rows, cutoff)[0].prev)
  {
    var kept := Kept(l.rows, cutoff);
    forall i: nat | i < |kept| ensures !Broken(kept, kept[0].prev, i) {
      KeptRowFits(l, cutoff, i);
    }
  }

  lemma GapBreaksChain(l: Log, cutoff: Instant)
    requires Intact(l.rows, l.watermark) && !Consecutive(KeptAt(l.rows, cutoff))
    ensures Kept(l.rows, cutoff) != [] && !Intact(Kept(l.rows, cutoff), Kept(l.rows, cutoff)[0].prev)
  {
    KeptAreAt(l.rows, cutoff);
    var at, kept := KeptAt(l.rows, cutoff), Kept(l.rows, cutoff);
    var m: nat :| m + 1 < |at| && at[m + 1] != at[m] + 1;
    GapBreaks(l, cutoff, kept[0].prev, m);
    assert Broken(kept, kept[0].prev, m + 1);
  }

  lemma KeptIntactIff(l: Log, cutoff: Instant)
    requires Intact(l.rows, l.watermark)
    ensures var kept := Kept(l.rows, cutoff);
            Intact(kept, if kept == [] then GENESIS else kept[0].prev) <==> Contiguous(l.rows, cutoff)
  {
    ContiguousIsConsecutive(l.rows, cutoff);
    if !Consecutive(KeptAt(l.rows, cutoff)) {
      GapBreaksChain(l, cutoff);
    } else if Kept(l.rows, cutoff) != [] {
      NoGapKeepsIntact(l, cutoff);
    }
  }

  /** Retention leaves an intact chain intact exactly when the rows it keeps are contiguous. */
  lemma PruneKeepsIntactIff(l: Log, cutoff: Instant)
    requires Intact(l.rows, l.watermark)
    ensures Intact(PruneRows(l, cutoff).rows, PruneRows(l, cutoff).watermark) <==> Contiguous(l.rows, cutoff)
  {
    KeptIntactIff(l, cutoff);
    FilterSameLength(l.rows, NotBefore(cutoff));
    if |Kept(l.rows, cutoff)| == |l.rows| && l.rows != [] {
      SameChain(l, l.rows[0].prev);
    }
  }

  /** The first row's own predecessor hash is the watermark of an intact chain. */
  lemma SameChain(l: Log, mark: Value)
    requires Intact(l.rows, l.watermark) && (l.rows != [] ==> mark == l.rows[0].prev)
    ensures Intact(l.rows, mark)
  {
    if l.rows != [] {
      assert !Broken(l.rows, l.watermark, 0);
    }
    forall i: nat | i < |l.rows| ensures !Broken(l.rows, mark, i) {
      assert !Broken(l.rows, l.watermark, i);
    }
  }

  predicate TimesFollowSeq(rows: seq<Row>) {
    forall i, j | 0 <= i < j < |rows| :: rows[i].event.createdAt <= rows[j].event.createdAt
  }

  lemma OrderedRowsAreContiguous(rows: seq<Row>, cutoff: Instant)
    requires TimesFollowSeq(rows)
    ensures Contiguous(rows, cutoff)
  {
  }

  // ---- runs ----------------------------------------------------------------

  datatype Op = AppendOp(id: int, seqNo: int, event: Event) | PruneOp(cutoff: Instant)

  function RunLog(ops: seq<Op>): Log {
    if ops == [] then Log([], GENESIS)
    else
      var n := |ops| - 1;
      match ops[n]
      case AppendOp(id, seqNo, event) => AppendRow(RunLog(ops[..n]), id, seqNo, event)
      case PruneOp(cutoff) => PruneRows(RunLog(ops[..n]), cutoff)
  }

  /** The creation time of the last event appended. */
  function Latest(ops: seq<Op>): Option<Instant> {
    if ops == [] then None
    else if ops[|ops| - 1].AppendOp? then Some(ops[|ops| - 1].event.createdAt)
    else Latest(ops[..|ops| - 1])
  }

  /** Each event is created no earlier than the one appended before it. */
  predicate AppendsInOrder(ops: seq<Op>) {
    forall k | 0 <= k < |ops| :: ops[k].AppendOp? && Latest(ops[..k]).Some? ==>
      Latest(ops[..k]).value <= ops[k].event.createdAt
  }

  /**
   The chain is intact from a watermark without separators, its times follow its order,
   and none is later than the last append.
   */
  predicate Healthy(l: Log, latest: Option<Instant>) {
    && Intact(l.rows, l.watermark) && TimesFollowSeq(l.rows)
    && (l.rows == [] ==> l.watermark == GENESIS) && SeparatorFree(l.watermark)
    && (l.rows != [] ==> latest.Some? && l.rows[|l.rows| - 1].event.createdAt <= latest.value)
  }

  lemma AppendKeepsHealth(l: Log, latest: Option<Instant>, id: int, seqNo: int, e: Event)
    requires Healthy(l, latest) && (latest.Some? ==> latest.value <= e.createdAt)
    ensures Healthy(AppendRow(l, id, seqNo, e), Some(e.createdAt))
  {
    var rows := AppendRow(l, id, seqNo, e).rows;
    forall i: nat | i < |rows| ensures !Broken(rows, l.watermark, i) {
      if i < |l.rows| {
        assert !Broken(l.rows, l.watermark, i);
      }
    }
  }

  /** What an ordered log keeps is ordered too. */
  lemma KeptFollowSeq(rows: seq<Row>, cutoff: Instant)
    requires TimesFollowSeq(rows)
    ensures TimesFollowSeq(Kept(rows, cutoff))
    ensures Kept(rows, cutoff) != [] ==>
              rows != [] && Kept(rows, cutoff)[|Kept(rows, cutoff)| - 1].event.createdAt
                            <= rows[|rows| - 1].event.createdAt
  {
    var at, kept := KeptAt(rows, cutoff), Kept(rows, cutoff);
    KeptAreAt(rows, cutoff);
    forall m, n | 0 <= m < n < |kept| ensures kept[m].event.createdAt <= kept[n].event.createdAt {
      assert at[m] < at[n];
    }
    if kept != [] {
      assert at[|kept| - 1] <= |rows| - 1;
    }
  }

  /** Every row's predecessor hash in an intact chain is its watermark or a digest. */
  lemma PrevIsSeparatorFree(l: Log, i: nat)
    requires Intact(l.rows, l.watermark) && SeparatorFree(l.watermark) && i < |l.rows|
    ensures SeparatorFree(l.rows[i].prev)
  {
    assert !Broken(l.rows, l.watermark, i);
    if i > 0 {
      assert !Broken(l.rows, l.watermark, i - 1);
    }
  }

  lemma PruneKeepsHealth(l: Log, latest: Option<Instant>, cutoff: Instant)
    requires Healthy(l, latest)
    ensures Healthy(PruneRows(l, cutoff), latest)
  {
    OrderedRowsAreContiguous(l.rows, cutoff);
    PruneKeepsIntactIff(l, cutoff);
    KeptFollowSeq(l.rows, cutoff);
    if Kept(l.rows, cutoff) != [] {
      KeptAreAt(l.rows, cutoff);
      PrevIsSeparatorFree(l, KeptAt(l.rows, cutoff)[0]);
    }
  }

  /** Verification's chain pass flags nothing on any log that appends and retention produce, in any order. */
  lemma {:induction false} ReachableLogsVerify(ops: seq<Op>)
    requires AppendsInOrder(ops)
    ensures Healthy(RunLog(ops), Latest(ops))
  {
    if ops != [] {
      var n := |ops| - 1;
      forall k | 0 <= k < n ensures ops[..n][..k] == ops[..k] {
      }
      ReachableLogsVerify(ops[..n]);
      match ops[n]
      case AppendOp(id, seqNo, event) => AppendKeepsHealth(RunLog(ops[..n]), Latest(ops[..n]), id, seqNo, event);
      case PruneOp(cutoff) => PruneKeepsHealth(RunLog(ops[..n]), Latest(ops[..n]), cutoff);
    }
  }

  function At(e: Event, t: Instant): Event {
    e.(createdAt := t)
  }

  lemma RunOne(ops: seq<Op>, op: Op)
    requires op.AppendOp?
    ensures RunLog(ops + [op]) == AppendRow(RunLog(ops), op.id, op.seqNo, op.event)
  {
    assert (ops + [op])[..|ops|] == ops;
  }

  const EMPTY := Log([], GENESIS)

  function Late(e: Event): Log {
    AppendRow(AppendRow(AppendRow(EMPTY, 1, 1, At(e, 5)), 2, 2, At(e, 1)), 3, 3, At(e, 5))
  }

  lemma LateIsRun(e: Event)
    ensures Late(e) == RunLog([AppendOp(1, 1, At(e, 5)), AppendOp(2, 2, At(e, 1)), AppendOp(3, 3, At(e, 5))])
  {
    var a, b, c := AppendOp(1, 1, At(e, 5)), AppendOp(2, 2, At(e, 1)), AppendOp(3, 3, At(e, 5));
    assert RunLog([]) == EMPTY;
    RunOne([], a);
    RunOne([a], b);
    RunOne([a, b], c);
    assert [] + [a] == [a] && [a] + [b] == [a, b] && [a, b] + [c] == [a, b, c];
  }

  /**
   Three rows whose second bears an earlier time, as when an insert that began first
   is chained later. Retention takes that row alone, and the chain no longer verifies.
   */
  lemma UnorderedPruneExample(e: Event)
    ensures Late(e) == RunLog([AppendOp(1, 1, At(e, 5)), AppendOp(2, 2, At(e, 1)), AppendOp(3, 3, At(e, 5))])
    ensures Intact(Late(e).rows, Late(e).watermark)
    ensures !Intact(PruneRows(Late(e), 3).rows, PruneRows(Late(e), 3).watermark)
  {
    LateIsRun(e);
    assert Keeps(Late(e).rows, 3, 0) && !Keeps(Late(e).rows, 3, 1) && Keeps(Late(e).rows, 3, 2);
    PruneKeepsIntactIff(Late(e), 3);
  }

  // ---- anchors -------------------------------------------------------------

  /** A signature is the key and the exact message; nothing else produces it. */
  datatype Signature = Signature(kid: string, message: Value)

  datatype AnchorRecord = AnchorRecord(
    count: int, headHash: Value, headSeq: int, createdAt: int, kid: string, signature: Signature)

  const ANCHOR_TAG := Lift("legant-audit-anchor:v1\ncount=")
  const HEAD_HASH := Lift("head_hash=")
  const HEAD_SEQ := Lift("\nhead_seq")
  const CREATED_AT := Lift("\ncreated_at")
  const EQUALS := Ch('=')
  const NEWLINE := Ch('\n')

  function AnchorMiddle(headHash: Value, headSeq: int): Value {
    (HEAD_HASH + headHash + HEAD_SEQ) + [EQUALS] + (Lift(Itoa(headSeq)) + CREATED_AT)
  }

  /** The signed text, line by line. */
  function CanonicalAnchor(count: int, headHash: Value, headSeq: int, createdAt: int): Value {
    ANCHOR_TAG
    + (Lift(Itoa(count)) + [NEWLINE] + (AnchorMiddle(headHash, headSeq) + [EQUALS] + Lift(Itoa(createdAt))))
  }

  predicate ValidSignature(rec: AnchorRecord, keys: set<string>) {
    && rec.kid in keys
    && rec.signature == Signature(rec.kid, CanonicalAnchor(rec.count, rec.headHash, rec.headSeq, rec.createdAt))
  }

  function HeadAnchor(rows: seq<Row>): Anchor
    requires rows != []
  {
    Anchor(|rows|, rows[|rows| - 1].hash, rows[|rows| - 1].seqNo)
  }

  predicate AnchorsHead(rec: AnchorRecord, rows: seq<Row>) {
    && rows != [] && HeadAnchor(rows) == Anchor(rec.count, rec.headHash, rec.headSeq)
    && ValidSignature(rec, {rec.kid})
  }

  lemma DropPrefix(p: Value, a: Value, b: Value)
    requires p + a == p + b
    ensures a == b
  {
    assert a == (p + a)[|p|..] && b == (p + b)[|p|..];
  }

  lemma DropSuffix(a: Value, b: Value, p: Value)
    requires a + p == b + p
    ensures a == b
  {
    assert |a| == |b|;
    assert a == (a + p)[..|a|] && b == (b + p)[..|b|];
  }

  /** A number's digits hold neither of the characters that end a field. */
  lemma NumberText(n: int)
    ensures EQUALS !in Lift(Itoa(n)) && NEWLINE !in Lift(Itoa(n))
  {
    ItoaCharacters(n);
    forall i | 0 <= i < |Itoa(n)| ensures Lift(Itoa(n))[i] != EQUALS && Lift(Itoa(n))[i] != NEWLINE {
      assert Itoa(n)[i] in Itoa(n);
    }
  }

  lemma NumberInjective(m: int, n: int)
    requires Lift(Itoa(m)) == Lift(Itoa(n))
    ensures m == n
  {
    LiftInjective(Itoa(m), Itoa(n));
    ItoaInjective(m, n);
  }

  lemma AnchorMiddleInjective(h: Value, s: int, h': Value, s': int)
    requires AnchorMiddle(h, s) == AnchorMiddle(h', s')
    ensures h == h' && s == s'
  {
    var x, y := Lift(Itoa(s)), Lift(Itoa(s'));
    NumberText(s);
    NumberText(s');
    assert EQUALS !in CREATED_AT;
    SplitLast(HEAD_HASH + h + HEAD_SEQ, x + CREATED_AT, HEAD_HASH + h' + HEAD_SEQ, y + CREATED_AT, EQUALS);
    DropSuffix(x, y, CREATED_AT);
    NumberInjective(s, s');
    DropSuffix(HEAD_HASH + h, HEAD_HASH + h', HEAD_SEQ);
    DropPrefix(HEAD_HASH, h, h');
  }

  /** The signed text pins all four fields, even for a head hash that holds newlines. */
  lemma CanonicalAnchorInjective(c: int, h: Value, s: int, t: int, c': int, h': Value, s': int, t': int)
    requires CanonicalAnchor(c, h, s, t) == CanonicalAnchor(c', h', s', t')
    ensures c == c' && h == h' && s == s' && t == t'
  {
    var m, m' := AnchorMiddle(h, s), AnchorMiddle(h', s');
    var n, n' := Lift(Itoa(c)), Lift(Itoa(c'));
    var u, u' := Lift(Itoa(t)), Lift(Itoa(t'));
    NumberText(c);
    NumberText(c');
    NumberText(t);
    NumberText(t');
    DropPrefix(ANCHOR_TAG, n + [NEWLINE] + (m + [EQUALS] + u), n' + [NEWLINE] + (m' + [EQUALS] + u'));
    SplitFirst(n, m + [EQUALS] + u, n', m' + [EQUALS] + u', NEWLINE);
    SplitLast(m, u, m', u', EQUALS);
    NumberInjective(c, c');
    NumberInjective(t, t');
    AnchorMiddleInjective(h, s, h', s');
  }

  /** The rows from a position up hold no separator, and neither does what they are chained to. */
  predicate ColumnarFrom(rows: seq<Row>, mark: Value, lo: nat) {
    && (forall j: nat | lo <= j < |rows| :: Columnar(rows[j].event))
    && (lo == 0 ==> SeparatorFree(mark))
  }

  predicate ShapedRows(rows: seq<Row>) {
    forall j: nat | j < |rows| :: Shaped(rows[j].event)
  }

  /** What the hash of a row covers: its predecessor's hash and its columns. */
  predicate SameHashed(a: Row, b: Row) {
    a.prev == b.prev && a.hash == b.hash && SameColumns(a.event, b.event)
  }

  /**
   Two intact chains that share a hash at a position share every row below it, as far
   down as the first holds no separator.
   */
  lemma {:induction false} SharedHashSharesRows(
      earlier: seq<Row>, earlierMark: Value, live: seq<Row>, liveMark: Value, lo: nat, i: nat)
    requires Intact(earlier, earlierMark) && Intact(live, liveMark)
    requires ColumnarFrom(earlier, earlierMark, lo) && ShapedRows(live)
    requires lo <= i < |earlier| && i < |live| && earlier[i].hash == live[i].hash
    ensures forall j | lo <= j <= i :: SameHashed(earlier[j], live[j])
    ensures lo == 0 ==> earlierMark == liveMark
  {
    assert !Broken(earlier, earlierMark, i) && !Broken(live, liveMark, i);
    if i > 0 {
      assert !Broken(earlier, earlierMark, i - 1);
    }
    HashCoversColumns(earlier[i].prev, earlier[i].event, live[i].prev, live[i].event);
    if i > lo {
      SharedHashSharesRows(earlier, earlierMark, live, liveMark, lo, i - 1);
    }
  }

  /**
   If the live table, however rewritten, passes the check against a record bearing the
   signature made for a log, then it has at least that log's rows; and from any
   position up from which the log held no separator, its rows carry exactly the log's
   predecessor hashes and columns, in order. From the first row, that is the whole log
   and its watermark.
   */
  lemma AcceptedAnchorPinsPrefix(
      log: seq<Row>, logMark: Value, signed: AnchorRecord, ext: AnchorRecord, keys: set<string>,
      rows: seq<Row>, watermark: Value, lo: nat)
    requires Intact(log, logMark) && AnchorsHead(signed, log) && ext.signature == signed.signature
    requires ValidSignature(ext, keys)
    requires Intact(rows, watermark) && MatchesAnchor(rows, ext.count, ext.headHash)
    requires ColumnarFrom(log, logMark, lo) && ShapedRows(rows)
    ensures |log| <= |rows| && rows[|log| - 1].hash == log[|log| - 1].hash
    ensures forall i | lo <= i < |log| :: SameHashed(log[i], rows[i])
    ensures lo == 0 ==> watermark == logMark
  {
    CanonicalAnchorInjective(
      ext.count, ext.headHash, ext.headSeq, ext.createdAt,
      signed.count, signed.headHash, signed.headSeq, signed.createdAt);
    if lo < |log| {
      SharedHashSharesRows(log, logMark, rows, watermark, lo, |log| - 1);
    }
  }

  /**
   A separator in a column of the first row undoes that: the row can be rewritten, and
   the watermark with it, under the same hash.
   */
  lemma SeparatorHidesRewrite(row: Row, mark: Value, x: Value, y: Value)
    requires Intact([row], mark) && Shaped(row.event) && row.event.head[0] == x + [SEPARATOR] + y
    ensures var forged := row.(prev := mark + [SEPARATOR] + x,
                               event := row.event.(head := [y] + row.event.head[1..]));
            Intact([forged], forged.prev) && forged.hash == row.hash && forged.prev != mark
  {
    assert !Broken([row], mark, 0);
    SeparatorsCanCollide(mark, x, y, row.event);
    assert |mark + [SEPARATOR] + x| > |mark|;
  }

  /** Dropping the newest rows leaves an intact chain; only an anchor above the cut tells. */
  lemma TruncationNeedsAnchor(rows: seq<Row>, watermark: Value, k: nat, count: nat)
    requires Intact(rows, watermark) && k <= |rows| && 1 <= count <= |rows|
    ensures Intact(rows[..k], watermark)
    ensures MatchesAnchor(rows[..k], count, rows[count - 1].hash) <==> count <= k
  {
    forall i: nat | i < k ensures !Broken(rows[..k], watermark, i) {
      assert !Broken(rows, watermark, i);
    }
  }

  /**
   A stored anchor does not survive retention: after a prune of an ordered log, a
   non-empty anchor taken before it matches exactly when the cutoff spares the first row.
   */
  lemma AnchorSurvivesPruneIff(l: Log, cutoff: Instant, count: nat)
    requires Intact(l.rows, l.watermark) && TimesFollowSeq(l.rows) && 1 <= count <= |l.rows|
    ensures MatchesAnchor(PruneRows(l, cutoff).rows, count, l.rows[count - 1].hash)
       <==> l.rows[0].event.createdAt >= cutoff
  {
    if l.rows[0].event.createdAt >= cutoff {
      SparingFirst(l.rows, cutoff);
    } else {
      LosingFirst(l.rows, cutoff);
      if count <= |Kept(l.rows, cutoff)| {
        RowsShift(l, cutoff, count - 1);
      }
    }
  }

  lemma SparingFirst(rows: seq<Row>, cutoff: Instant)
    requires TimesFollowSeq(rows) && rows != [] && rows[0].event.createdAt >= cutoff
    ensures Kept(rows, cutoff) == rows
  {
    forall r | r in rows ensures NotBefore(cutoff)(r) {
      var i :| 0 <= i < |rows| && rows[i] == r;
      assert rows[0].event.createdAt <= rows[i].event.createdAt;
    }
    FilterAll(rows, NotBefore(cutoff));
  }

  lemma LosingFirst(rows: seq<Row>, cutoff: Instant)
    requires rows != [] && rows[0].event.createdAt < cutoff
    ensures |Kept(rows, cutoff)| < |rows|
  {
    FilterSameLength(rows, NotBefore(cutoff));
    assert rows[0] in rows && rows[0] !in Kept(rows, cutoff);
  }

  /** Once rows are gone, each position holds a later row, with another hash. */
  lemma RowsShift(l: Log, cutoff: Instant, m: nat)
    requires Intact(l.rows, l.watermark) && TimesFollowSeq(l.rows)
    requires m < |Kept(l.rows, cutoff)| < |l.rows|
    ensures Kept(l.rows, cutoff)[m].hash != l.rows[m].hash
  {
    var at := KeptAt(l.rows, cutoff);
    KeptAreAt(l.rows, cutoff);
    KeptRow(l, cutoff, m);
    OrderedRowsAreContiguous(l.rows, cutoff);
    ContiguousIsConsecutive(l.rows, cutoff);
    ConsecutiveFrom(at, m);
    FirstKeptIsLater(l.rows, cutoff);
    HashesDeepen(l.rows, l.watermark, m, at[m]);
  }

  function Pair(e: Event): Log {
    AppendRow(AppendRow(EMPTY, 1, 1, At(e, 0)), 2, 2, At(e, 1))
  }

  /** Two rows, anchored at either; once the first is pruned, no anchor matches. */
  lemma OldAnchorExample(e: Event)
    ensures var l := Pair(e);
            && Intact(l.rows, l.watermark)
            && !MatchesAnchor(PruneRows(l, 1).rows, 1, l.rows[0].hash)
            && !MatchesAnchor(PruneRows(l, 1).rows, 2, l.rows[1].hash)
  {
    var l := Pair(e);
    assert l.rows[0].event.createdAt == 0;
    AnchorSurvivesPruneIff(l, 1, 1);
    AnchorSurvivesPruneIff(l, 1, 2);
  }

  lemma {:induction false} ConsecutiveFrom(at: seq<nat>, m: nat)
    requires m < |at| && Consecutive(at)
    ensures at[m] == at[0] + m
  {
    if m > 0 {
      ConsecutiveFrom(at, m - 1);
      assert at[m - 1 + 1] == at[m - 1] + 1;
    }
  }

  /** If an ordered log loses rows, it loses its first. */
  lemma FirstKeptIsLater(rows: seq<Row>, cutoff: Instant)
    requires TimesFollowSeq(rows) && 0 < |Kept(rows, cutoff)| < |rows|
    ensures |KeptAt(rows, cutoff)| == |Kept(rows, cutoff)| && KeptAt(rows, cutoff)[0] > 0
  {
    KeptAreAt(rows, cutoff);
    if rows[0].event.createdAt >= cutoff {
      SparingFirst(rows, cutoff);
    }
    assert KeptAt(rows, cutoff)[0] in KeptAt(rows, cutoff);
  }
}
