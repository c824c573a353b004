/** rate/rate.go: the process-wide sliding window of request timestamps.
    Time is a natural count of nanoseconds (Go's time.Duration unit); the
    clock reading is a parameter and the sleep is returned, not performed. */
module RateLimit {

  const RateLimit: nat := 10
  const RateLimitPeriod: nat := 60 * 1_000_000_000

  /** How long LimitRequest sleeps when called at `now` with this window. */
  function Wait(window: seq<nat>, now: nat): (d: nat)
    ensures d > 0 <==> |window| == RateLimit && now - window[0] < RateLimitPeriod
    ensures d > 0 ==> d == RateLimitPeriod - (now - window[0])
    ensures |window| == RateLimit && window[0] <= now ==> d <= RateLimitPeriod
  {
    if |window| == RateLimit && now - window[0] < RateLimitPeriod then RateLimitPeriod - (now - window[0]) else 0
  }

  /** The window after a request recorded at `stamp`: the oldest entry is
      evicted when the window is full, and the stamp becomes the newest. */
  function Record(window: seq<nat>, stamp: nat): (w: seq<nat>)
    requires |window| <= RateLimit
    ensures |w| <= RateLimit
    ensures |window| < RateLimit ==> |w| == |window| + 1 && w[..|window|] == window
    ensures |window| == RateLimit ==> |w| == RateLimit && w[..RateLimit - 1] == window[1..]
    ensures w[|w| - 1] == stamp
  {
    (if |window| == RateLimit then window[1..] else window) + [stamp]
  }

  predicate Sorted(s: seq<nat>) {
    forall i, j :: 0 <= i < j < |s| ==> s[i] <= s[j]
  }

  /** With a clock that never goes back, the window stays in time order. */
  lemma RecordKeepsSorted(window: seq<nat>, now: nat)
    requires |window| <= RateLimit && Sorted(window)
    requires window != [] ==> window[|window| - 1] <= now
    ensures Sorted(Record(window, now))
  {
    var w := Record(window, now);
    forall i, j | 0 <= i < j < |w| ensures w[i] <= w[j] {
      if |window| == RateLimit {
        assert w[i] == window[i + 1];
        if j < |w| - 1 { assert w[j] == window[j + 1]; }
      } else {
        assert w[i] == window[i];
        if j < |w| - 1 { assert w[j] == window[j]; }
      }
    }
  }

  class Limiter {
    var requestTimestamps: seq<nat>

    ghost predicate Valid()
      reads this
    {
      |requestTimestamps| <= RateLimit
    }

    constructor ()
      ensures Valid() && requestTimestamps == []
    {
      requestTimestamps := [];
    }

    /** LimitRequest as written: the clock is read once, before any sleep,
        and that reading is what enters the window. */
    method LimitRequest(now: nat) returns (sleep: nat)
      requires Valid()
      modifies this
      ensures Valid()
      ensures sleep == Wait(old(requestTimestamps), now)
      ensures requestTimestamps == Record(old(requestTimestamps), now)
    {
      sleep := 0;
      if |requestTimestamps| == RateLimit {
        var timePassed := now - requestTimestamps[0];
        if timePassed < RateLimitPeriod {
          sleep := RateLimitPeriod - timePassed;
        }
        requestTimestamps := requestTimestamps[1..];
      }
      requestTimestamps := requestTimestamps + [now];
    }

    /** The evidently intended limiter: the request is recorded at the time
        it is actually let through, after the sleep. */
    method LimitRequestAfterWait(now: nat) returns (sleep: nat)
      requires Valid()
      modifies this
      ensures Valid()
      ensures sleep == Wait(old(requestTimestamps), now)
      ensures requestTimestamps == Record(old(requestTimestamps), now + sleep)
    {
      sleep := 0;
      if |requestTimestamps| == RateLimit {
        var timePassed := now - requestTimestamps[0];
        if timePassed < RateLimitPeriod {
          sleep := RateLimitPeriod - timePassed;
        }
        requestTimestamps := requestTimestamps[1..];
      }
      requestTimestamps := requestTimestamps + [now + sleep];
    }
  }

  // ---------------------------------------------------------------------
  // Throughput of a single caller

  /** The times at which successive requests of one sequential caller are let
      through. The first request is issued at `t`; after each one the caller
      works for `gaps[k]` before issuing the next. `afterWait` selects the
      intended recording (true) or the one as written (false). */
  function Admissions(window: seq<nat>, t: nat, gaps: seq<nat>, afterWait: bool): seq<nat>
    requires |window| <= RateLimit
    decreases |gaps|
  {
    if gaps == [] then []
    else
      var done := t + Wait(window, t);
      [done] + Admissions(Record(window, if afterWait then done else t), done + gaps[0], gaps[1..], afterWait)
  }

  /** Any RateLimit + 1 consecutive admissions span at least one period, so
      no period-long interval holds more than RateLimit of them. */
  ghost predicate Spaced(s: seq<nat>) {
    forall i, j :: 0 <= i < j < |s| && j == i + RateLimit ==> s[i] + RateLimitPeriod <= s[j]
  }

  /** The window holds the last admissions of the history. */
  function Latest(h: seq<nat>): seq<nat> {
    if |h| <= RateLimit then h else h[|h| - RateLimit..]
  }

  lemma RecordLatest(h: seq<nat>, c: nat)
    ensures Record(Latest(h), c) == Latest(h + [c])
  {
    var w := Latest(h);
    if |h| > RateLimit {
      assert w[1..] == h[|h| - RateLimit + 1..];
      assert (h + [c])[|h| + 1 - RateLimit..] == h[|h| - RateLimit + 1..] + [c];
    } else if |h| == RateLimit {
      assert (h + [c])[1..] == h[1..] + [c];
    }
  }

  /** One admission at or after the previous ones keeps the history spaced
      and ordered when it waits for the oldest entry of the window. */
  lemma AdmitAfterWaitStep(h: seq<nat>, t: nat)
    requires Spaced(h) && Sorted(h)
    requires h != [] ==> h[|h| - 1] <= t
    ensures Spaced(h + [t + Wait(Latest(h), t)])
    ensures Sorted(h + [t + Wait(Latest(h), t)])
  {
    var c := t + Wait(Latest(h), t);
    var h' := h + [c];
    if |h| >= RateLimit {
      assert Latest(h)[0] == h[|h| - RateLimit];
    }
    forall i, j | 0 <= i < j < |h'| && j == i + RateLimit ensures h'[i] + RateLimitPeriod <= h'[j] {
      if j < |h| {
        assert h'[i] == h[i] && h'[j] == h[j];
      }
    }
    forall i, j | 0 <= i < j < |h'| ensures h'[i] <= h'[j] {
      if j < |h| {
        assert h'[i] == h[i] && h'[j] == h[j];
      } else {
        assert h'[i] == h[i];
      }
    }
  }

  /** The admissions so far followed by those of a caller starting at `t`. */
  function History(h: seq<nat>, t: nat, gaps: seq<nat>): seq<nat> {
    h + Admissions(Latest(h), t, gaps, true)
  }

  lemma HistoryStep(h: seq<nat>, t: nat, gaps: seq<nat>)
    requires gaps != []
    ensures var c := t + Wait(Latest(h), t);
      History(h, t, gaps) == History(h + [c], c + gaps[0], gaps[1..])
  {
    var w := Latest(h);
    var c := t + Wait(w, t);
    var rest := Admissions(Record(w, c), c + gaps[0], gaps[1..], true);
    assert Admissions(w, t, gaps, true) == [c] + rest;
    RecordLatest(h, c);
    assert History(h + [c], c + gaps[0], gaps[1..]) == (h + [c]) + rest;
    assert h + ([c] + rest) == (h + [c]) + rest;
  }

  /** A history that is spaced and in time order. */
  ghost predicate Admissible(h: seq<nat>) {
    Spaced(h) && Sorted(h)
  }

  /** One admission of the caller, as the induction below takes it. */
  lemma AdmitNext(h: seq<nat>, t: nat, gaps: seq<nat>) returns (h': seq<nat>, t': nat)
    requires Admissible(h)
    requires h != [] ==> h[|h| - 1] <= t
    requires gaps != []
    ensures Admissible(h') && h' != [] && h'[|h'| - 1] <= t'
    ensures History(h, t, gaps) == History(h', t', gaps[1..])
  {
    var c := t + Wait(Latest(h), t);
    h', t' := h + [c], c + gaps[0];
    AdmitAfterWaitStep(h, t);
    HistoryStep(h, t, gaps);
  }

  lemma {:induction false} AfterWaitSpacedFrom(h: seq<nat>, t: nat, gaps: seq<nat>)
    requires Admissible(h)
    requires h != [] ==> h[|h| - 1] <= t
    ensures Admissible(History(h, t, gaps))
    decreases |gaps|
  {
    if gaps == [] {
      assert History(h, t, gaps) == h;
    } else {
      var h', t' := AdmitNext(h, t, gaps);
      AfterWaitSpacedFrom(h', t', gaps[1..]);
    }
  }

  /** With the recording fixed, a single caller starting from an empty window
      never gets more than RateLimit requests through in one period. */
  lemma AfterWaitKeepsRate(t: nat, gaps: seq<nat>)
    ensures Spaced(Admissions([], t, gaps, true))
    ensures Sorted(Admissions([], t, gaps, true))
  {
    assert Admissible([]);
    AfterWaitSpacedFrom([], t, gaps);
    assert History([], t, gaps) == [] + Admissions([], t, gaps, true) == Admissions([], t, gaps, true);
  }

  function Repeat(n: nat, x: nat): (r: seq<nat>)
    ensures |r| == n && forall i :: 0 <= i < n ==> r[i] == x
  {
    seq(n, _ => x)
  }

  /** With the window as written, after ten requests at time 0 the next
      request sleeps a full period, and then the window still shows ten
      entries at 0: requests issued right after the sleep pass unhindered. */
  lemma {:induction false} BurstAfterSleep(k: nat, n: nat)
    requires k + n <= RateLimit
    ensures Admissions(Repeat(RateLimit - k, 0) + Repeat(k, RateLimitPeriod), RateLimitPeriod, Repeat(n, 0), false)
      == Repeat(n, RateLimitPeriod)
    decreases n
  {
    if n > 0 {
      var w := Repeat(RateLimit - k, 0) + Repeat(k, RateLimitPeriod);
      assert w[0] == 0;
      assert Wait(w, RateLimitPeriod) == 0;
      assert Record(w, RateLimitPeriod) == Repeat(RateLimit - (k + 1), 0) + Repeat(k + 1, RateLimitPeriod);
      assert Repeat(n, 0)[1..] == Repeat(n - 1, 0);
      BurstAfterSleep(k + 1, n - 1);
      assert Repeat(n, RateLimitPeriod) == [RateLimitPeriod] + Repeat(n - 1, RateLimitPeriod);
    }
  }

  lemma RepeatCons(n: nat, x: nat)
    ensures Repeat(n + 1, x) == [x] + Repeat(n, x)
  {
  }

  /** A burst at time 0 into a window that is not full is admitted at once
      and recorded. */
  lemma FillStep(j: nat, n: nat)
    requires j < RateLimit && n > 0
    ensures Admissions(Repeat(j, 0), 0, Repeat(n, 0), false) == [0] + Admissions(Repeat(j + 1, 0), 0, Repeat(n - 1, 0), false)
  {
    var w := Repeat(j, 0);
    assert Repeat(n, 0)[1..] == Repeat(n - 1, 0);
    assert Wait(w, 0) == 0;
    assert Record(w, 0) == Repeat(j + 1, 0);
  }

  /** The eleventh request from a window of ten entries at 0. */
  lemma SleepThenBurst()
    ensures Admissions(Repeat(RateLimit, 0), 0, Repeat(RateLimit + 1, 0), false)
      == Repeat(RateLimit + 1, RateLimitPeriod)
  {
    var w := Repeat(RateLimit, 0);
    assert Wait(w, 0) == RateLimitPeriod;
    assert Record(w, 0) == Repeat(RateLimit, 0) + Repeat(0, RateLimitPeriod);
    assert Repeat(RateLimit + 1, 0)[1..] == Repeat(RateLimit, 0);
    BurstAfterSleep(0, RateLimit);
    assert Repeat(RateLimit + 1, RateLimitPeriod) == [RateLimitPeriod] + Repeat(RateLimit, RateLimitPeriod);
  }

  lemma {:induction false} FillWindow(j: nat)
    requires j <= RateLimit
    ensures Admissions(Repeat(j, 0), 0, Repeat(RateLimit - j + RateLimit + 1, 0), false)
      == Repeat(RateLimit - j, 0) + Repeat(RateLimit + 1, RateLimitPeriod)
    decreases RateLimit - j
  {
    if j < RateLimit {
      var burst := Repeat(RateLimit + 1, RateLimitPeriod);
      FillStep(j, RateLimit - j + RateLimit + 1);
      FillWindow(j + 1);
      RepeatCons(RateLimit - (j + 1), 0);
      assert [0] + (Repeat(RateLimit - (j + 1), 0) + burst) == ([0] + Repeat(RateLimit - (j + 1), 0)) + burst;
    } else {
      SleepThenBurst();
      assert Repeat(0, 0) == [];
    }
  }

  /** As written, 21 back-to-back requests from an empty window are let
      through as ten at time 0 and then eleven at the same instant, one
      period later: eleven requests inside one period. */
  lemma RecordBeforeWaitAdmitsBurst()
    ensures Admissions([], 0, Repeat(2 * RateLimit + 1, 0), false)
      == Repeat(RateLimit, 0) + Repeat(RateLimit + 1, RateLimitPeriod)
    ensures !Spaced(Admissions([], 0, Repeat(2 * RateLimit + 1, 0), false))
  {
    FillWindow(0);
    assert Repeat(0, 0) == [];
    var s := Repeat(RateLimit, 0) + Repeat(RateLimit + 1, RateLimitPeriod);
    assert s[RateLimit] + RateLimitPeriod > s[2 * RateLimit];
  }
}
