/** The fixed-window request limiter, one window per key. */
module RateLimit {

  type Instant = int

  datatype Window = Window(count: int, reset: Instant)
  type Windows = map<string, Window>

  /** The windows after one request, and whether it was allowed. */
  function Step(ws: Windows, key: string, now: Instant, limit: int, interval: int): (Windows, bool) {
    var live := if key in ws && now > ws[key].reset then ws - {key} else ws;
    if key !in live then (live[key := Window(1, now + interval)], true)
    else if live[key].count >= limit then (live, false)
    else (live[key := live[key].(count := live[key].count + 1)], true)
  }

  class RateLimiter {
    var windows: Windows
    const limit: int
    const interval: nat

    constructor (limit: int, interval: nat)
      ensures this.limit == limit && this.interval == interval && windows == map[]
    {
      this.limit := limit;
      this.interval := interval;
      windows := map[];
    }

    method Allow(key: string, now: Instant) returns (ok: bool)
      modifies this
      ensures (windows, ok) == Step(old(windows), key, now, limit, interval)
    {
      if key in windows && now > windows[key].reset {
        windows := windows - {key};
      }
      if key !in windows {
        windows := windows[key := Window(1, now + interval)];
        return true;
      }
      var w := windows[key];
      if w.count >= limit {
        return false;
      }
      windows := windows[key := w.(count := w.count + 1)];
      return true;
    }
  }

  // ---- runs ----------------------------------------------------------------

  datatype Request = Request(key: string, at: Instant)

  function WindowsAfter(requests: seq<Request>, limit: int, interval: nat): Windows {
    if requests == [] then map[]
    else
      var n := |requests| - 1;
      Step(WindowsAfter(requests[..n], limit, interval), requests[n].key, requests[n].at, limit, interval).0
  }

  /** An admitted request: when its window started, and its rank among that window's admissions. */
  datatype Admission = Admission(at: Instant, start: Instant, rank: int)

  function Admitted(ws: Windows, r: Request, key: string, limit: int, interval: nat): seq<Admission> {
    var (ws', ok) := Step(ws, r.key, r.at, limit, interval);
    if r.key == key && ok && key in ws' then [Admission(r.at, ws'[key].reset - interval, ws'[key].count)] else []
  }

  function Admissions(requests: seq<Request>, key: string, limit: int, interval: nat): seq<Admission> {
    if requests == [] then []
    else
      var n := |requests| - 1;
      Admissions(requests[..n], key, limit, interval)
      + Admitted(WindowsAfter(requests[..n], limit, interval), requests[n], key, limit, interval)
  }

  /** At least one request is always admitted to a window. */
  function PerWindow(limit: int): nat {
    if limit < 1 then 1 else limit
  }

  predicate InOrder(requests: seq<Request>) {
    forall i, j | 0 <= i < j < |requests| :: requests[i].at <= requests[j].at
  }

  predicate Fits(a: Admission, limit: int, interval: nat) {
    && a.start <= a.at <= a.start + interval
    && 1 <= a.rank <= PerWindow(limit)
    && (a.rank == 1 ==> a.at == a.start)
  }

  /** The next admission of the same window, or the first of a later one. */
  predicate Follows(a: Admission, b: Admission, interval: nat) {
    && a.at <= b.at
    && if b.start == a.start then b.rank == a.rank + 1 else b.start > a.start + interval && b.rank == 1
  }

  predicate WindowsFit(log: seq<Admission>, limit: int, interval: nat) {
    && (log != [] ==> log[0].rank == 1)
    && (forall i | 0 <= i < |log| :: Fits(log[i], limit, interval))
    && (forall i | 0 <= i < |log| - 1 :: Follows(log[i], log[i + 1], interval))
  }

  /** The key's current window is that of its last admission. */
  predicate Tracks(ws: Windows, key: string, log: seq<Admission>, interval: nat) {
    if log == [] then key !in ws
    else key in ws && ws[key] == Window(log[|log| - 1].rank, log[|log| - 1].start + interval)
  }

  lemma StepTracks(ws: Windows, key: string, log: seq<Admission>, r: Request, limit: int, interval: nat)
    requires WindowsFit(log, limit, interval) && Tracks(ws, key, log, interval)
    requires log != [] ==> log[|log| - 1].at <= r.at
    ensures var log' := log + Admitted(ws, r, key, limit, interval);
            WindowsFit(log', limit, interval) && Tracks(Step(ws, r.key, r.at, limit, interval).0, key, log', interval)
  {
  }

  lemma {:induction false} AdmissionsFit(requests: seq<Request>, key: string, limit: int, interval: nat)
    requires InOrder(requests)
    ensures var log := Admissions(requests, key, limit, interval);
            && WindowsFit(log, limit, interval)
            && Tracks(WindowsAfter(requests, limit, interval), key, log, interval)
            && (log != [] ==> requests != [] && log[|log| - 1].at <= requests[|requests| - 1].at)
  {
    if requests != [] {
      var n := |requests| - 1;
      AdmissionsFit(requests[..n], key, limit, interval);
      StepTracks(
        WindowsAfter(requests[..n], limit, interval), key, Admissions(requests[..n], key, limit, interval),
        requests[n], limit, interval);
    }
  }

  /** The admissions, by position, that fall in the closed span of one interval from x. */
  function InSpan(log: seq<Admission>, x: Instant, interval: nat): set<nat> {
    set i: nat | i < |log| && x <= log[i].at <= x + interval
  }

  lemma {:induction false} RangeSize(s: set<nat>, lo: nat, n: nat)
    requires forall i <- s :: lo <= i < lo + n
    ensures |s| <= n
    decreases n
  {
    if n == 0 {
      assert s == {};
    } else if s != {} {
      RangeSize(s - {lo + n - 1}, lo, n - 1);
    }
  }

  lemma {:induction false} Later(log: seq<Admission>, i: nat, j: nat, limit: int, interval: nat)
    requires WindowsFit(log, limit, interval) && i <= j < |log|
    ensures log[i].at <= log[j].at
    ensures if log[j].start == log[i].start then log[j].rank == log[i].rank + (j - i)
            else log[j].start > log[i].start + interval
    decreases j
  {
    if i < j {
      Later(log, i, j - 1, limit, interval);
      assert Follows(log[j - 1], log[j - 1 + 1], interval);
    }
  }

  /** An admission and the one 2n-1 places later are more than an interval apart. */
  lemma FarApart(log: seq<Admission>, i: nat, j: nat, limit: int, interval: nat)
    requires WindowsFit(log, limit, interval)
    requires i + 2 * PerWindow(limit) - 1 <= j < |log|
    ensures log[j].at > log[i].at + interval
  {
    // The places left in i's window, and the first place beyond it.
    var beyond := i + PerWindow(limit) - log[i].rank + 1;
    Later(log, i, beyond, limit, interval);
    Later(log, beyond, j, limit, interval);
    assert Fits(log[i], limit, interval) && Fits(log[beyond], limit, interval) && Fits(log[j], limit, interval);
  }

  /**
   Whatever other keys do, a key is admitted at most 2n-1 times in any closed span of
   one interval, n being the larger of one and the limit.
   */
  lemma AtMostTwiceTheLimit(requests: seq<Request>, key: string, limit: int, interval: nat, x: Instant)
    requires InOrder(requests)
    ensures |InSpan(Admissions(requests, key, limit, interval), x, interval)| <= 2 * PerWindow(limit) - 1
  {
    AdmissionsFit(requests, key, limit, interval);
    var log := Admissions(requests, key, limit, interval);
    var s := InSpan(log, x, interval);
    if s != {} {
      var i := Least(s);
      forall j | j in s ensures i <= j < i + (2 * PerWindow(limit) - 1) {
        if j >= i + (2 * PerWindow(limit) - 1) {
          FarApart(log, i, j, limit, interval);
        }
      }
      RangeSize(s, i, 2 * PerWindow(limit) - 1);
    }
  }

  lemma {:induction false} Least(s: set<nat>) returns (m: nat)
    requires s != {}
    ensures m in s && forall j <- s :: m <= j
  {
    var i :| i in s;
    m := i;
    if s != {i} {
      var rest := Least(s - {i});
      m := if rest < i then rest else i;
      assert forall j <- s :: j == i || j in s - {i};
    }
  }

  // ---- and refuses nothing else --------------------------------------------

  /** The admissions, by position, whose window has not ended. */
  function Live(log: seq<Admission>, now: Instant, interval: nat): set<nat> {
    set i: nat | i < |log| && now <= log[i].start + interval
  }

  lemma {:induction false} RangeExact(s: set<nat>, lo: nat, n: nat)
    requires forall i: nat :: i in s <==> lo <= i < lo + n
    ensures |s| == n
    decreases n
  {
    if n == 0 {
      assert s == {};
    } else {
      RangeExact(s - {lo + n - 1}, lo, n - 1);
    }
  }

  /** The last admissions, as many as the last one's rank, share its window. */
  lemma {:induction false} WindowRun(log: seq<Admission>, k: nat, limit: int, interval: nat)
    requires WindowsFit(log, limit, interval) && log != [] && k < log[|log| - 1].rank
    ensures k < |log|
    ensures log[|log| - 1 - k].start == log[|log| - 1].start && log[|log| - 1 - k].rank == log[|log| - 1].rank - k
  {
    if k > 0 {
      WindowRun(log, k - 1, limit, interval);
      var i := |log| - 1 - k;
      assert i + 1 > 0;
      assert Follows(log[i], log[i + 1], interval);
    }
  }

  lemma LiveIsLastWindow(log: seq<Admission>, now: Instant, limit: int, interval: nat)
    requires WindowsFit(log, limit, interval) && log != [] && log[|log| - 1].at <= now
    ensures |Live(log, now, interval)|
            == if now <= log[|log| - 1].start + interval then log[|log| - 1].rank else 0
  {
    var n, last := |log|, log[|log| - 1];
    var live := Live(log, now, interval);
    assert Fits(last, limit, interval);
    forall i: nat | i < n
      ensures i in live <==> now <= last.start + interval && n - last.rank <= i
    {
      Later(log, i, n - 1, limit, interval);
      assert Fits(log[i], limit, interval);
      if n - last.rank <= i {
        WindowRun(log, n - 1 - i, limit, interval);
      }
    }
    if now <= last.start + interval {
      WindowRun(log, last.rank - 1, limit, interval);
      RangeExact(live, n - last.rank, last.rank);
    } else {
      assert live == {};
    }
  }

  /** A request is refused exactly when the windows still open at its time have admitted the limit already. */
  lemma RefusedIff(requests: seq<Request>, r: Request, limit: int, interval: nat)
    requires InOrder(requests) && (requests != [] ==> requests[|requests| - 1].at <= r.at)
    ensures !Step(WindowsAfter(requests, limit, interval), r.key, r.at, limit, interval).1
       <==> |Live(Admissions(requests, r.key, limit, interval), r.at, interval)| >= PerWindow(limit)
  {
    AdmissionsFit(requests, r.key, limit, interval);
    var log := Admissions(requests, r.key, limit, interval);
    if log == [] {
      assert Live(log, r.at, interval) == {};
    } else {
      LiveIsLastWindow(log, r.at, limit, interval);
      assert Fits(log[|log| - 1], limit, interval);
    }
  }

  // ---- the bound is exact --------------------------------------------------

  /** n requests of one key at one time. */
  function Burst(key: string, at: Instant, n: nat): seq<Request> {
    seq(n, _ => Request(key, at))
  }

  /** One request, and the rest of its window's quota an interval later. */
  function Quota(key: string, interval: nat, n: nat): seq<Request>
    requires n > 0
  {
    [Request(key, 0)] + Burst(key, interval, n - 1)
  }

  /** And a full quota just after. */
  function Straddle(key: string, interval: nat, n: nat): seq<Request>
    requires n > 0
  {
    Quota(key, interval, n) + Burst(key, interval + 1, n)
  }

  /** The key's window and its log, when all requests so far were admitted. */
  predicate AllAdmitted(requests: seq<Request>, key: string, limit: int, interval: nat, w: Window) {
    && key in WindowsAfter(requests, limit, interval) && WindowsAfter(requests, limit, interval)[key] == w
    && |Admissions(requests, key, limit, interval)| == |requests|
    && forall i | 0 <= i < |requests| :: Admissions(requests, key, limit, interval)[i].at == requests[i].at
  }

  lemma AdmitOne(
      requests: seq<Request>, after: seq<Request>, key: string, limit: int, interval: nat, w: Window, at: Instant)
    requires AllAdmitted(requests, key, limit, interval, w)
    requires after == requests + [Request(key, at)] && (at > w.reset || w.count < limit)
    ensures AllAdmitted(
              after, key, limit, interval,
              if at > w.reset then Window(1, at + interval) else w.(count := w.count + 1))
  {
    assert after[..|requests|] == requests;
  }

  /** A burst that fits in the window is admitted whole. */
  lemma {:induction false} AdmitBurst(
      requests: seq<Request>, key: string, limit: int, interval: nat, w: Window, at: Instant, n: nat)
    requires AllAdmitted(requests, key, limit, interval, w) && at <= w.reset && (n == 0 || w.count + n <= limit)
    ensures AllAdmitted(
              requests + Burst(key, at, n), key, limit, interval, w.(count := w.count + n))
  {
    if n == 0 {
      assert requests + Burst(key, at, 0) == requests;
    } else {
      var before, after := requests + Burst(key, at, n - 1), requests + Burst(key, at, n);
      AdmitBurst(requests, key, limit, interval, w, at, n - 1);
      assert after == before + [Request(key, at)];
      AdmitOne(before, after, key, limit, interval, w.(count := w.count + n - 1), at);
    }
  }

  lemma QuotaAdmitted(key: string, limit: int, interval: nat)
    ensures var n := PerWindow(limit);
            AllAdmitted(Quota(key, interval, n), key, limit, interval, Window(n, interval))
  {
    var first := [Request(key, 0)];
    assert first[..0] == [];
    assert Admissions(first, key, limit, interval) == [Admission(0, 0, 1)];
    assert AllAdmitted(first, key, limit, interval, Window(1, interval));
    AdmitBurst(first, key, limit, interval, Window(1, interval), interval, PerWindow(limit) - 1);
  }

  lemma StraddleSplits(key: string, interval: nat, n: nat)
    requires n > 0
    ensures Quota(key, interval, n) + [Request(key, interval + 1)] + Burst(key, interval + 1, n - 1)
         == Straddle(key, interval, n)
  {
  }

  lemma QuotaThenOne(key: string, limit: int, interval: nat)
    ensures AllAdmitted(
              Quota(key, interval, PerWindow(limit)) + [Request(key, interval + 1)], key, limit, interval,
              Window(1, 2 * interval + 1))
  {
    var quota := Quota(key, interval, PerWindow(limit));
    QuotaAdmitted(key, limit, interval);
    AdmitOne(
      quota, quota + [Request(key, interval + 1)], key, limit, interval, Window(PerWindow(limit), interval),
      interval + 1);
  }

  lemma StraddleAdmitted(key: string, limit: int, interval: nat)
    ensures var n := PerWindow(limit);
            AllAdmitted(Straddle(key, interval, n), key, limit, interval, Window(n, 2 * interval + 1))
  {
    var n := PerWindow(limit);
    QuotaThenOne(key, limit, interval);
    AdmitBurst(
      Quota(key, interval, n) + [Request(key, interval + 1)], key, limit, interval,
      Window(1, 2 * interval + 1), interval + 1, n - 1);
    StraddleSplits(key, interval, n);
  }

  /** For every limit there is a run that reaches the bound. */
  lemma BoundIsReached(key: string, limit: int, interval: nat)
    requires interval > 0
    ensures var requests := Straddle(key, interval, PerWindow(limit));
            && InOrder(requests)
            && |InSpan(Admissions(requests, key, limit, interval), interval, interval)| == 2 * PerWindow(limit) - 1
  {
    var n := PerWindow(limit);
    var requests := Straddle(key, interval, n);
    StraddleAdmitted(key, limit, interval);
    assert |requests| == 2 * n;
    assert forall i | 0 <= i < 2 * n ::
        requests[i].at == if i == 0 then 0 else if i < n then interval else interval + 1;
    RangeExact(InSpan(Admissions(requests, key, limit, interval), interval, interval), 1, 2 * n - 1);
  }
}
