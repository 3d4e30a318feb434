/**
 Concurrent observations of one labelled histogram. Each observation is a goroutine that
 looks its cell up, creates it if missing, bumps a bucket, bumps the count, and adds to
 the sum by compare-and-swap. Every step is one atomic action, and steps interleave freely.
 */
module HistogramRuns {
  import opened Wrappers
  import opened Metrics

  /** What an observation has done so far; a loaded sum may have gone stale. */
  datatype Phase = Looking | Creating | Found | Bucketed | Counted | Loaded(sum: real) | Done
  datatype Observation = Observation(labels: seq<string>, value: real, phase: Phase)

  datatype Entry = Entry(id: int, value: real)

  /** `summed` remembers, by labels, the observations added to the sum, in order. */
  datatype World = World(
    series: map<string, Cell>, observations: map<int, Observation>, summed: map<seq<string>, seq<Entry>>)

  const INITIAL := World(map[], map[], map[])

  datatype Event = Start(id: int, labels: seq<string>, value: real) | Act(id: int, bucket: nat)

  /** The observation's cell exists, with a count for every bucket. */
  predicate HasCell(buckets: seq<real>, w: World, o: Observation) {
    JoinKey(o.labels) in w.series && |w.series[JoinKey(o.labels)].counts| == |buckets| + 1
  }

  /** Any unfinished observation may act; which bucket it names matters only when it bumps one. */
  predicate Enabled(buckets: seq<real>, w: World, e: Event) {
    match e
    case Start(id, _, _) => id !in w.observations
    case Act(id, bucket) =>
      && id in w.observations
      && var o := w.observations[id];
         && !o.phase.Done?
         && (o.phase.Found? ==> IsBucketOf(buckets, o.value, bucket))
         && (o.phase.Looking? || o.phase.Creating? || HasCell(buckets, w, o))
  }

  function Enter(w: World, id: int, phase: Phase): World
    requires id in w.observations
  {
    w.(observations := w.observations[id := w.observations[id].(phase := phase)])
  }

  function Summed(w: World, labels: seq<string>): seq<Entry> {
    if labels in w.summed then w.summed[labels] else []
  }

  function Next(buckets: seq<real>, w: World, e: Event): World
    requires Enabled(buckets, w, e)
  {
    match e
    case Start(id, labels, value) =>
      w.(observations := w.observations[id := Observation(labels, value, Looking)])
    case Act(id, bucket) =>
      var o := w.observations[id];
      var key := JoinKey(o.labels);
      match o.phase
      case Looking => Enter(w, id, if key in w.series then Found else Creating)
      case Creating =>
        if key in w.series then Enter(w, id, Found)
        else Enter(w, id, Found).(series := w.series[key := EmptyCell(o.labels, buckets)])
      case Found =>
        var c := w.series[key];
        Enter(w, id, Bucketed).(series := w.series[key := c.(counts := c.counts[bucket := c.counts[bucket] + 1])])
      case Bucketed =>
        Enter(w, id, Counted).(series := w.series[key := w.series[key].(count := w.series[key].count + 1)])
      case Counted => Enter(w, id, Loaded(w.series[key].sum))
      case Loaded(seen) =>
        if w.series[key].sum == seen then
          Enter(w, id, Done).(series := w.series[key := w.series[key].(sum := seen + o.value)],
                              summed := w.summed[o.labels := Summed(w, o.labels) + [Entry(id, o.value)]])
        else Enter(w, id, Counted)
      case Done => w
  }

  function Run(buckets: seq<real>, events: seq<Event>): Option<World> {
    if events == [] then Some(INITIAL)
    else
      var n := |events| - 1;
      var w := Run(buckets, events[..n]);
      if w.Some? && Enabled(buckets, w.value, events[n]) then Some(Next(buckets, w.value, events[n])) else None
  }

  // ---- what a cell counts --------------------------------------------------

  predicate PastBucket(p: Phase) {
    p.Bucketed? || p.Counted? || p.Loaded? || p.Done?
  }

  predicate PastCount(p: Phase) {
    p.Counted? || p.Loaded? || p.Done?
  }

  /** The observations of the labels that have bumped a bucket. */
  function BucketedOf(w: World, labels: seq<string>): set<int> {
    set id | id in w.observations && w.observations[id].labels == labels && PastBucket(w.observations[id].phase)
  }

  function BucketedAtMost(w: World, labels: seq<string>, bound: real): set<int> {
    set id | id in BucketedOf(w, labels) && w.observations[id].value <= bound
  }

  function CountedOf(w: World, labels: seq<string>): set<int> {
    set id | id in w.observations && w.observations[id].labels == labels && PastCount(w.observations[id].phase)
  }

  function Values(entries: seq<Entry>): seq<real> {
    seq(|entries|, i requires 0 <= i < |entries| => entries[i].value)
  }

  /** The entries are the finished observations of the labels, each once. */
  predicate Enumerates(w: World, labels: seq<string>, entries: seq<Entry>) {
    && (forall i, j | 0 <= i < j < |entries| :: entries[i].id != entries[j].id)
    && (forall i | 0 <= i < |entries| ::
          && entries[i].id in w.observations
          && w.observations[entries[i].id] == Observation(labels, entries[i].value, Done))
    && (forall id <- w.observations ::
          w.observations[id].labels == labels && w.observations[id].phase.Done? ==>
            exists i :: 0 <= i < |entries| && entries[i].id == id)
  }

  /** The cell's bucket counts add up, bound by bound, to what has bumped a bucket. */
  predicate BucketsSound(buckets: seq<real>, w: World, c: Cell) {
    && |c.counts| == |buckets| + 1
    && (forall i: nat | i < |buckets| :: Prefix(c.counts, i + 1) == |BucketedAtMost(w, c.values, buckets[i])|)
    && Prefix(c.counts, |buckets| + 1) == |BucketedOf(w, c.values)|
  }

  predicate CellSound(buckets: seq<real>, w: World, key: string)
    requires key in w.series
  {
    var c := w.series[key];
    && JoinKey(c.values) == key && BucketsSound(buckets, w, c)
    && c.count == |CountedOf(w, c.values)|
    && c.sum == Sum(Values(Summed(w, c.values)))
  }

  predicate FoundCells(w: World) {
    forall id <- w.observations ::
      !w.observations[id].phase.Looking? && !w.observations[id].phase.Creating? ==>
        JoinKey(w.observations[id].labels) in w.series
  }

  ghost predicate SumsSound(w: World) {
    forall labels :: Enumerates(w, labels, Summed(w, labels))
  }

  ghost predicate Invariant(buckets: seq<real>, w: World) {
    (forall key <- w.series :: CellSound(buckets, w, key)) && FoundCells(w) && SumsSound(w)
  }

  // ---- every step keeps the invariant --------------------------------------

  /** One observation moved on, or started. */
  predicate Moves(w: World, t: World, id: int, after: Observation) {
    && t.observations == w.observations[id := after]
    && (id in w.observations ==>
          var before := w.observations[id];
          && after.labels == before.labels && after.value == before.value && !before.phase.Done?
          && (PastBucket(before.phase) ==> PastBucket(after.phase))
          && (PastCount(before.phase) ==> PastCount(after.phase)))
  }

  lemma SetsMove(w: World, t: World, id: int, after: Observation, labels: seq<string>)
    requires Moves(w, t, id, after)
    ensures BucketedOf(t, labels)
         == BucketedOf(w, labels) + if after.labels == labels && PastBucket(after.phase) then {id} else {}
    ensures CountedOf(t, labels)
         == CountedOf(w, labels) + if after.labels == labels && PastCount(after.phase) then {id} else {}
  {
  }

  lemma AtMostMoves(w: World, t: World, id: int, after: Observation, labels: seq<string>, bound: real)
    requires Moves(w, t, id, after)
    ensures BucketedAtMost(t, labels, bound)
         == BucketedAtMost(w, labels, bound)
            + if after.labels == labels && PastBucket(after.phase) && after.value <= bound then {id} else {}
  {
    SetsMove(w, t, id, after, labels);
  }

  lemma SameAtMost(w: World, t: World, id: int, after: Observation, labels: seq<string>, bound: real)
    requires Moves(w, t, id, after)
    requires after.labels == labels && PastBucket(after.phase) ==>
               id in w.observations && PastBucket(w.observations[id].phase)
    ensures BucketedAtMost(t, labels, bound) == BucketedAtMost(w, labels, bound)
  {
    AtMostMoves(w, t, id, after, labels, bound);
  }

  /** Bucket counts stay sound while nothing of their labels passes a bucket. */
  lemma SameBuckets(buckets: seq<real>, w: World, t: World, c: Cell, id: int, after: Observation)
    requires BucketsSound(buckets, w, c) && Moves(w, t, id, after)
    requires after.labels == c.values && PastBucket(after.phase) ==>
               id in w.observations && PastBucket(w.observations[id].phase)
    ensures BucketsSound(buckets, t, c)
  {
    SetsMove(w, t, id, after, c.values);
    assert BucketedOf(t, c.values) == BucketedOf(w, c.values);
    forall i: nat | i < |buckets|
      ensures BucketedAtMost(t, c.values, buckets[i]) == BucketedAtMost(w, c.values, buckets[i])
    {
      SameAtMost(w, t, id, after, c.values, buckets[i]);
    }
  }

  lemma SameCount(w: World, t: World, id: int, after: Observation, labels: seq<string>)
    requires Moves(w, t, id, after)
    requires after.labels == labels && PastCount(after.phase) ==>
               id in w.observations && PastCount(w.observations[id].phase)
    ensures CountedOf(t, labels) == CountedOf(w, labels)
  {
    SetsMove(w, t, id, after, labels);
  }

  lemma MoreAtMost(w: World, t: World, id: int, after: Observation, labels: seq<string>, bound: real)
    requires Moves(w, t, id, after) && after.labels == labels && PastBucket(after.phase)
    requires id in w.observations && !PastBucket(w.observations[id].phase)
    ensures |BucketedAtMost(t, labels, bound)|
         == |BucketedAtMost(w, labels, bound)| + if after.value <= bound then 1 else 0
  {
    AtMostMoves(w, t, id, after, labels, bound);
    assert id !in BucketedAtMost(w, labels, bound);
  }

  lemma BumpedPrefix(counts: seq<nat>, buckets: seq<real>, v: real, bucket: nat, i: nat)
    requires Sorted(buckets) && |counts| == |buckets| + 1 && IsBucketOf(buckets, v, bucket) && i < |buckets|
    ensures Prefix(counts[bucket := counts[bucket] + 1], i + 1)
         == Prefix(counts, i + 1) + if v <= buckets[i] then 1 else 0
  {
    PrefixBump(counts, bucket, i + 1);
    assert v <= buckets[i] <==> bucket <= i;
  }

  /** The observation passes the bucket that is bumped for it. */
  predicate Passes(buckets: seq<real>, w: World, t: World, c: Cell, bucket: nat, id: int, after: Observation) {
    && Sorted(buckets) && BucketsSound(buckets, w, c) && Moves(w, t, id, after)
    && IsBucketOf(buckets, after.value, bucket) && after.labels == c.values && PastBucket(after.phase)
    && id in w.observations && !PastBucket(w.observations[id].phase)
  }

  lemma BumpBound(
      buckets: seq<real>, w: World, t: World, c: Cell, bucket: nat, id: int, after: Observation, i: nat)
    requires Passes(buckets, w, t, c, bucket, id, after) && i < |buckets|
    ensures Prefix(c.counts[bucket := c.counts[bucket] + 1], i + 1) == |BucketedAtMost(t, c.values, buckets[i])|
  {
    MoreAtMost(w, t, id, after, c.values, buckets[i]);
    BumpedPrefix(c.counts, buckets, after.value, bucket, i);
  }

  lemma BumpTotal(buckets: seq<real>, w: World, t: World, c: Cell, bucket: nat, id: int, after: Observation)
    requires Passes(buckets, w, t, c, bucket, id, after)
    ensures Prefix(c.counts[bucket := c.counts[bucket] + 1], |buckets| + 1) == |BucketedOf(t, c.values)|
  {
    SetsMove(w, t, id, after, c.values);
    PrefixBump(c.counts, bucket, |buckets| + 1);
    assert id !in BucketedOf(w, c.values);
  }

  /** Passing a bucket and bumping it go together. */
  lemma BumpBuckets(buckets: seq<real>, w: World, t: World, c: Cell, bucket: nat, id: int, after: Observation)
    requires Passes(buckets, w, t, c, bucket, id, after)
    ensures BucketsSound(buckets, t, c.(counts := c.counts[bucket := c.counts[bucket] + 1]))
  {
    BumpTotal(buckets, w, t, c, bucket, id, after);
    forall i: nat | i < |buckets|
      ensures Prefix(c.counts[bucket := c.counts[bucket] + 1], i + 1) == |BucketedAtMost(t, c.values, buckets[i])|
    {
      BumpBound(buckets, w, t, c, bucket, id, after, i);
    }
  }

  /** A cell the step does not write stays sound, unless the observation is of its labels and passes a mark. */
  lemma SameCell(buckets: seq<real>, w: World, t: World, key: string, id: int, after: Observation)
    requires key in w.series && key in t.series && CellSound(buckets, w, key) && Moves(w, t, id, after)
    requires t.series[key] == w.series[key]
    requires Summed(t, w.series[key].values) == Summed(w, w.series[key].values)
    requires after.labels == w.series[key].values ==> PassesNoMark(w, id, after.phase)
    ensures CellSound(buckets, t, key)
  {
    SameBuckets(buckets, w, t, w.series[key], id, after);
    SameCount(w, t, id, after, w.series[key].values);
  }

  predicate PassesNoMark(w: World, id: int, phase: Phase) {
    && (PastBucket(phase) ==> id in w.observations && PastBucket(w.observations[id].phase))
    && (PastCount(phase) ==> id in w.observations && PastCount(w.observations[id].phase))
  }

  /** The cell found under an observation's key is that of its labels. */
  lemma OwnCell(buckets: seq<real>, w: World, labels: seq<string>)
    requires JoinKey(labels) in w.series && CellSound(buckets, w, JoinKey(labels))
    ensures w.series[JoinKey(labels)].values == labels
  {
    JoinKeyInjective(w.series[JoinKey(labels)].values, labels);
  }

  lemma BucketStep(buckets: seq<real>, w: World, id: int, bucket: nat)
    requires Sorted(buckets) && Enabled(buckets, w, Act(id, bucket)) && w.observations[id].phase.Found?
    requires CellSound(buckets, w, JoinKey(w.observations[id].labels))
    ensures CellSound(buckets, Next(buckets, w, Act(id, bucket)), JoinKey(w.observations[id].labels))
  {
    var o, t := w.observations[id], Next(buckets, w, Act(id, bucket));
    OwnCell(buckets, w, o.labels);
    BumpBuckets(buckets, w, t, w.series[JoinKey(o.labels)], bucket, id, o.(phase := Bucketed));
    SameCount(w, t, id, o.(phase := Bucketed), o.labels);
  }

  lemma CountStep(buckets: seq<real>, w: World, id: int, bucket: nat)
    requires Enabled(buckets, w, Act(id, bucket)) && w.observations[id].phase.Bucketed?
    requires CellSound(buckets, w, JoinKey(w.observations[id].labels))
    ensures CellSound(buckets, Next(buckets, w, Act(id, bucket)), JoinKey(w.observations[id].labels))
  {
    var o, t := w.observations[id], Next(buckets, w, Act(id, bucket));
    OwnCell(buckets, w, o.labels);
    SameBuckets(buckets, w, t, w.series[JoinKey(o.labels)], id, o.(phase := Counted));
    SetsMove(w, t, id, o.(phase := Counted), o.labels);
  }

  lemma SumOneMore(entries: seq<Entry>, e: Entry)
    ensures Sum(Values(entries + [e])) == Sum(Values(entries)) + e.value
  {
    assert Values(entries + [e]) == Values(entries) + [e.value];
    assert (Values(entries) + [e.value])[..|entries|] == Values(entries);
  }

  lemma SwapStep(buckets: seq<real>, w: World, id: int, bucket: nat)
    requires Enabled(buckets, w, Act(id, bucket)) && w.observations[id].phase.Loaded?
    requires CellSound(buckets, w, JoinKey(w.observations[id].labels))
    requires w.series[JoinKey(w.observations[id].labels)].sum == w.observations[id].phase.sum
    ensures CellSound(buckets, Next(buckets, w, Act(id, bucket)), JoinKey(w.observations[id].labels))
  {
    var o, t := w.observations[id], Next(buckets, w, Act(id, bucket));
    OwnCell(buckets, w, o.labels);
    SameBuckets(buckets, w, t, w.series[JoinKey(o.labels)], id, o.(phase := Done));
    SameCount(w, t, id, o.(phase := Done), o.labels);
    SumOneMore(Summed(w, o.labels), Entry(id, o.value));
  }

  lemma SummedHasCell(w: World, labels: seq<string>)
    requires FoundCells(w) && SumsSound(w) && Summed(w, labels) != []
    ensures JoinKey(labels) in w.series
  {
    assert Enumerates(w, labels, Summed(w, labels));
    assert w.observations[Summed(w, labels)[0].id].phase.Done?;
  }

  /** A cell is created only for labels that nothing has counted for. */
  lemma CreateStep(buckets: seq<real>, w: World, id: int, bucket: nat)
    requires Enabled(buckets, w, Act(id, bucket)) && w.observations[id].phase.Creating?
    requires JoinKey(w.observations[id].labels) !in w.series && FoundCells(w) && SumsSound(w)
    ensures CellSound(buckets, Next(buckets, w, Act(id, bucket)), JoinKey(w.observations[id].labels))
  {
    var o, t := w.observations[id], Next(buckets, w, Act(id, bucket));
    var c := EmptyCell(o.labels, buckets);
    EmptyCellTallies(o.labels, buckets);
    assert forall i <- w.observations :: w.observations[i].labels == o.labels ==>
        w.observations[i].phase.Looking? || w.observations[i].phase.Creating?;
    forall i ensures i !in BucketedOf(t, o.labels) && i !in CountedOf(t, o.labels) {
    }
    assert BucketedOf(t, o.labels) == {} && CountedOf(t, o.labels) == {};
    assert forall b :: BucketedAtMost(t, o.labels, b) == {};
    if Summed(w, o.labels) != [] {
      SummedHasCell(w, o.labels);
    }
    assert forall b :: CountAtMost([], b) == 0;
  }

  lemma OtherEnumeration(w: World, t: World, id: int, after: Observation, labels: seq<string>, entries: seq<Entry>)
    requires Moves(w, t, id, after) && Enumerates(w, labels, entries)
    requires after.labels == labels ==> !after.phase.Done?
    ensures Enumerates(t, labels, entries)
  {
  }

  lemma FinishedEnumeration(w: World, t: World, id: int, after: Observation, entries: seq<Entry>)
    requires Moves(w, t, id, after) && id in w.observations && after.phase.Done?
    requires Enumerates(w, after.labels, entries)
    ensures Enumerates(t, after.labels, entries + [Entry(id, after.value)])
  {
    var more := entries + [Entry(id, after.value)];
    assert more[|entries|].id == id;
    forall other | other in t.observations && t.observations[other].labels == after.labels
                   && t.observations[other].phase.Done?
      ensures exists i :: 0 <= i < |more| && more[i].id == other
    {
      if other != id {
        var i :| 0 <= i < |entries| && entries[i].id == other;
        assert more[i].id == other;
      }
    }
  }

  /** What the step does to its observation. */
  function After(buckets: seq<real>, w: World, e: Event): Observation
    requires Enabled(buckets, w, e)
  {
    Next(buckets, w, e).observations[e.id]
  }

  lemma StepMoves(buckets: seq<real>, w: World, e: Event)
    requires Enabled(buckets, w, e)
    ensures Moves(w, Next(buckets, w, e), e.id, After(buckets, w, e))
  {
  }

  /** The step adds to the sum. */
  predicate Swaps(w: World, e: Event) {
    && e.Act? && e.id in w.observations && w.observations[e.id].phase.Loaded?
    && JoinKey(w.observations[e.id].labels) in w.series
    && w.series[JoinKey(w.observations[e.id].labels)].sum == w.observations[e.id].phase.sum
  }

  lemma StepKeepsSums(buckets: seq<real>, w: World, e: Event)
    requires SumsSound(w) && Enabled(buckets, w, e)
    ensures SumsSound(Next(buckets, w, e))
  {
    var t, after := Next(buckets, w, e), After(buckets, w, e);
    StepMoves(buckets, w, e);
    forall labels ensures Enumerates(t, labels, Summed(t, labels)) {
      assert Enumerates(w, labels, Summed(w, labels));
      if Swaps(w, e) && labels == after.labels {
        FinishedEnumeration(w, t, e.id, after, Summed(w, labels));
      } else {
        OtherEnumeration(w, t, e.id, after, labels, Summed(w, labels));
      }
    }
  }

  lemma StepKeepsFound(buckets: seq<real>, w: World, e: Event)
    requires FoundCells(w) && Enabled(buckets, w, e)
    ensures FoundCells(Next(buckets, w, e))
  {
  }

  /** The step writes the cell. */
  predicate Writes(w: World, e: Event, key: string) {
    && e.Act? && e.id in w.observations && key == JoinKey(w.observations[e.id].labels)
    && var phase := w.observations[e.id].phase;
       phase.Found? || phase.Bucketed? || Swaps(w, e) || (phase.Creating? && key !in w.series)
  }

  lemma WrittenCell(buckets: seq<real>, w: World, e: Event, key: string)
    requires Sorted(buckets) && Invariant(buckets, w) && Enabled(buckets, w, e) && Writes(w, e, key)
    ensures key in Next(buckets, w, e).series && CellSound(buckets, Next(buckets, w, e), key)
  {
    var phase := w.observations[e.id].phase;
    if phase.Creating? {
      CreateStep(buckets, w, e.id, e.bucket);
    } else if phase.Found? {
      BucketStep(buckets, w, e.id, e.bucket);
    } else if phase.Bucketed? {
      CountStep(buckets, w, e.id, e.bucket);
    } else {
      SwapStep(buckets, w, e.id, e.bucket);
    }
  }

  lemma UnwrittenCell(buckets: seq<real>, w: World, e: Event, key: string)
    requires Enabled(buckets, w, e) && !Writes(w, e, key) && key in Next(buckets, w, e).series
    ensures key in w.series && Next(buckets, w, e).series[key] == w.series[key]
  {
  }

  /** A step that passes a mark, or adds to a sum, writes the cell of its labels. */
  lemma UnmarkedStep(buckets: seq<real>, w: World, e: Event, labels: seq<string>)
    requires Enabled(buckets, w, e) && !Writes(w, e, JoinKey(labels))
    ensures Summed(Next(buckets, w, e), labels) == Summed(w, labels)
    ensures After(buckets, w, e).labels == labels ==> PassesNoMark(w, e.id, After(buckets, w, e).phase)
  {
  }

  lemma OtherCell(buckets: seq<real>, w: World, e: Event, key: string)
    requires Invariant(buckets, w) && Enabled(buckets, w, e) && !Writes(w, e, key)
    requires key in Next(buckets, w, e).series
    ensures CellSound(buckets, Next(buckets, w, e), key)
  {
    UnwrittenCell(buckets, w, e, key);
    assert CellSound(buckets, w, key);
    UnmarkedStep(buckets, w, e, w.series[key].values);
    StepMoves(buckets, w, e);
    SameCell(buckets, w, Next(buckets, w, e), key, e.id, After(buckets, w, e));
  }

  lemma StepKeepsInvariant(buckets: seq<real>, w: World, e: Event)
    requires Sorted(buckets) && Invariant(buckets, w) && Enabled(buckets, w, e)
    ensures Invariant(buckets, Next(buckets, w, e))
  {
    StepKeepsSums(buckets, w, e);
    StepKeepsFound(buckets, w, e);
    forall key | key in Next(buckets, w, e).series ensures CellSound(buckets, Next(buckets, w, e), key) {
      if Writes(w, e, key) {
        WrittenCell(buckets, w, e, key);
      } else {
        OtherCell(buckets, w, e, key);
      }
    }
  }

  lemma {:induction false} RunKeepsInvariant(buckets: seq<real>, events: seq<Event>)
    requires Sorted(buckets) && Run(buckets, events).Some?
    ensures Invariant(buckets, Run(buckets, events).value)
  {
    if events != [] {
      var n := |events| - 1;
      RunKeepsInvariant(buckets, events[..n]);
      StepKeepsInvariant(buckets, Run(buckets, events[..n]).value, events[n]);
    }
  }

  // ---- the results ---------------------------------------------------------

  /** The observations made for the labels, and those of them at most the bound. */
  function Made(w: World, labels: seq<string>): set<int> {
    set id | id in w.observations && w.observations[id].labels == labels
  }

  function MadeAtMost(w: World, labels: seq<string>, bound: real): set<int> {
    set id | id in Made(w, labels) && w.observations[id].value <= bound
  }

  predicate Quiescent(w: World) {
    forall id <- w.observations :: w.observations[id].phase.Done?
  }

  /** The cell holds exactly the observations made for its labels. */
  predicate Totals(buckets: seq<real>, w: World, labels: seq<string>) {
    && JoinKey(labels) in w.series
    && var c := w.series[JoinKey(labels)];
       && c.values == labels && |c.counts| == |buckets| + 1
       && (forall i: nat | i < |buckets| :: Prefix(c.counts, i + 1) == |MadeAtMost(w, labels, buckets[i])|)
       && Prefix(c.counts, |buckets| + 1) == c.count == |Made(w, labels)|
       && Enumerates(w, labels, Summed(w, labels)) && c.sum == Sum(Values(Summed(w, labels)))
  }

  lemma AllMadeAreCounted(w: World, labels: seq<string>)
    requires Quiescent(w)
    ensures BucketedOf(w, labels) == Made(w, labels) == CountedOf(w, labels)
  {
    forall id ensures id in Made(w, labels) <==> id in BucketedOf(w, labels)
              ensures id in Made(w, labels) <==> id in CountedOf(w, labels)
    {
    }
  }

  lemma QuiescentCell(buckets: seq<real>, w: World, labels: seq<string>)
    requires JoinKey(labels) in w.series && CellSound(buckets, w, JoinKey(labels)) && SumsSound(w) && Quiescent(w)
    ensures Totals(buckets, w, labels)
  {
    OwnCell(buckets, w, labels);
    AllMadeAreCounted(w, labels);
    forall i: nat | i < |buckets|
      ensures BucketedAtMost(w, labels, buckets[i]) == MadeAtMost(w, labels, buckets[i])
    {
    }
    assert Enumerates(w, labels, Summed(w, labels));
  }

  /**
   Whatever the interleaving, once no observation is under way the series of each
   observation made holds exactly those of its labels: per bound, the number of them at
   most it; in all, their number; and the sum of their values, each added once.
   */
  lemma QuiescentTotals(buckets: seq<real>, events: seq<Event>, id: int)
    requires Sorted(buckets) && Run(buckets, events).Some? && Quiescent(Run(buckets, events).value)
    requires id in Run(buckets, events).value.observations
    ensures Totals(buckets, Run(buckets, events).value, Run(buckets, events).value.observations[id].labels)
  {
    RunKeepsInvariant(buckets, events);
    var w := Run(buckets, events).value;
    var labels := w.observations[id].labels;
    assert w.observations[id].phase.Done?;
    assert CellSound(buckets, w, JoinKey(labels));
    QuiescentCell(buckets, w, labels);
  }

  /** At any moment of any run, no series counts more than its "+Inf" row, nor fewer than have finished. */
  lemma CountLagsBuckets(buckets: seq<real>, events: seq<Event>, key: string)
    requires Sorted(buckets) && Run(buckets, events).Some? && key in Run(buckets, events).value.series
    ensures var w := Run(buckets, events).value;
            var c := w.series[key];
            |c.counts| == |buckets| + 1 && |Summed(w, c.values)| <= c.count <= Prefix(c.counts, |buckets| + 1)
  {
    RunKeepsInvariant(buckets, events);
    var w := Run(buckets, events).value;
    var c := w.series[key];
    assert CellSound(buckets, w, key);
    forall id | id in CountedOf(w, c.values) ensures id in BucketedOf(w, c.values) {
    }
    SubsetSize(CountedOf(w, c.values), BucketedOf(w, c.values));
    assert Enumerates(w, c.values, Summed(w, c.values));
    DistinctSize(Summed(w, c.values), CountedOf(w, c.values));
  }

  lemma SubsetSize(a: set<int>, b: set<int>)
    requires a <= b
    ensures |a| <= |b|
  {
    assert b == a + (b - a);
  }

  lemma {:induction false} DistinctSize(entries: seq<Entry>, ids: set<int>)
    requires forall i, j | 0 <= i < j < |entries| :: entries[i].id != entries[j].id
    requires forall i | 0 <= i < |entries| :: entries[i].id in ids
    ensures |entries| <= |ids|
  {
    if entries != [] {
      var n := |entries| - 1;
      DistinctSize(entries[..n], ids - {entries[n].id});
    }
  }

  /** No observation is ever stuck: whatever has happened, each unfinished one can take its next step. */
  lemma NoneIsBlocked(buckets: seq<real>, events: seq<Event>, id: int) returns (bucket: nat)
    requires Sorted(buckets) && Run(buckets, events).Some?
    requires var w := Run(buckets, events).value; id in w.observations && !w.observations[id].phase.Done?
    ensures Enabled(buckets, Run(buckets, events).value, Act(id, bucket))
  {
    RunKeepsInvariant(buckets, events);
    var w := Run(buckets, events).value;
    var o := w.observations[id];
    bucket := BucketFor(buckets, o.value);
    if !o.phase.Looking? && !o.phase.Creating? {
      assert CellSound(buckets, w, JoinKey(o.labels));
    }
  }

  lemma {:induction false} BucketFor(buckets: seq<real>, v: real) returns (i: nat)
    requires Sorted(buckets)
    ensures IsBucketOf(buckets, v, i)
  {
    if buckets == [] || buckets[|buckets| - 1] < v {
      i := |buckets|;
    } else {
      i := BucketFor(buckets[..|buckets| - 1], v);
    }
  }
}
