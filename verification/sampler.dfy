/**
 The map bridge's sampler (`snapshot` in plugins/map-bridge/src/lib.rs): the rate
 limiter that keeps its phase, and the de-duplication of actions.
 */
module Sampler {
  import opened Wrappers

  /** Lines 141: the requested rate, 2 by default, between 2 and 20 per second. */
  function Rate(requested: Option<nat>): (hz: nat)
    ensures 2 <= hz <= 20
  {
    var hz := if requested.Some? then requested.value else 2;
    if hz < 2 then 2 else if hz > 20 then 20 else hz
  }

  function Period(hz: nat): (p: nat)
    requires 2 <= hz <= 20
    ensures 50 <= p <= 500
  {
    1000 / hz
  }

  /** `next_sample_ms` and `refresh_hz` */
  datatype Phase = Phase(next: nat, hz: nat)

  function SaturatingSub(a: nat, b: nat): nat {
    if a >= b then a - b else 0
  }

  /** Lines 145-157: whether a tick at `now` samples, and the phase after it. */
  function Tick(s: Phase, now: nat, hz: nat): (bool, Phase)
    requires 2 <= hz <= 20
  {
    if s.hz == hz && now < s.next then (false, s) else
    var period := Period(hz);
    var next := if s.hz != hz || SaturatingSub(now, s.next) > period * 2 then now + period else s.next + period;
    (true, Phase(next, hz))
  }

  /** The times that sample, over ticks at a constant rate. */
  function Samples(s: Phase, ticks: seq<nat>, hz: nat): (r: seq<nat>)
    requires 2 <= hz <= 20
    ensures |r| <= |ticks|
    decreases |ticks|
  {
    if ticks == [] then [] else
    var (sampled, s') := Tick(s, ticks[0], hz);
    (if sampled then [ticks[0]] else []) + Samples(s', ticks[1..], hz)
  }

  /** n periods, counted one by one. */
  function Times(n: nat, p: nat): nat {
    if n == 0 then 0 else Times(n - 1, p) + p
  }

  lemma {:induction false} TimesIsProduct(n: nat, p: nat)
    ensures Times(n, p) == n * p
  {
    if n > 0 {
      TimesIsProduct(n - 1, p);
    }
  }

  // ----- never too fast, whatever the ticks -----

  /** From a settled phase, the i-th sample comes no earlier than i periods after the phase's next time. */
  lemma {:induction false} SamplesAreDue(s: Phase, ticks: seq<nat>, hz: nat, i: nat)
    requires 2 <= hz <= 20 && s.hz == hz && i < |Samples(s, ticks, hz)|
    ensures Samples(s, ticks, hz)[i] >= s.next + Times(i, Period(hz))
    decreases |ticks|
  {
    var (sampled, s') := Tick(s, ticks[0], hz);
    if !sampled {
      assert Samples(s, ticks, hz) == Samples(s', ticks[1..], hz);
      SamplesAreDue(s', ticks[1..], hz, i);
    } else if i > 0 {
      SamplesAreDue(s', ticks[1..], hz, i - 1);
    }
  }

  lemma {:induction false} SpanOfSamples(s: Phase, ticks: seq<nat>, hz: nat, from: nat, n: nat)
    requires 2 <= hz <= 20 && n >= 3 && from + n <= |Samples(s, ticks, hz)|
    ensures var r := Samples(s, ticks, hz); r[from + n - 1] >= r[from] + Times(n - 3, Period(hz))
    decreases |ticks|
  {
    var r := Samples(s, ticks, hz);
    var (sampled, s') := Tick(s, ticks[0], hz);
    var rest := Samples(s', ticks[1..], hz);
    if !sampled {
      assert r == rest;
      SpanOfSamples(s', ticks[1..], hz, from, n);
    } else if from > 0 {
      SpanOfSamples(s', ticks[1..], hz, from - 1, n);
    } else {
      assert s'.next >= r[0] - Period(hz);
      SamplesAreDue(s', ticks[1..], hz, n - 2);
    }
  }

  /** Any n samples in a row at one rate, ticks at arbitrary times, span at least n - 3 periods. */
  lemma NeverTooFast(s: Phase, ticks: seq<nat>, hz: nat, from: nat, n: nat)
    requires 2 <= hz <= 20 && n >= 1 && from + n <= |Samples(s, ticks, hz)|
    ensures var r := Samples(s, ticks, hz); FitsRate(n, r[from], r[from + n - 1], Period(hz))
  {
    var r := Samples(s, ticks, hz);
    if n >= 3 {
      SpanOfSamples(s, ticks, hz, from, n);
    }
    CountFromSpan(n, r[from], r[from + n - 1], Period(hz));
  }

  /** No more than the whole periods between start and end, and three; a clock set back gives no periods. */
  predicate FitsRate(n: nat, start: nat, end: nat, p: nat)
    requires p > 0
  {
    n <= SaturatingSub(end, start) / p + 3
  }

  lemma Multiples(q: nat, k: nat, p: nat)
    ensures q < k ==> q * p + p <= k * p
  {
    if q < k {
      var more: nat := k - q - 1;
      assert k * p == (q + 1 + more) * p == q * p + p + more * p;
      assert more * p >= 0;
    }
  }

  lemma CountFromSpan(n: nat, start: nat, end: nat, p: nat)
    requires p > 0 && (n >= 3 ==> end >= start + Times(n - 3, p))
    ensures FitsRate(n, start, end, p)
  {
    var k := if n >= 3 then n - 3 else 0;
    TimesIsProduct(k, p);
    var span := SaturatingSub(end, start);
    var q := span / p;
    assert span < q * p + p;
    Multiples(q, k, p);
  }

  // ----- never too slow, when ticks are frequent -----

  /** Ticks in order, each at most `gap` after the one before. */
  predicate Frequent(last: nat, ticks: seq<nat>, gap: nat)
    decreases |ticks|
  {
    ticks == [] || (last <= ticks[0] <= last + gap && Frequent(ticks[0], ticks[1..], gap))
  }

  function LastTick(last: nat, ticks: seq<nat>): nat {
    if ticks == [] then last else ticks[|ticks| - 1]
  }

  /** Sample i lies within `gap` of its nominal time, i periods after `first`. */
  predicate InPhase(r: seq<nat>, first: nat, p: nat, gap: nat) {
    forall i :: 0 <= i < |r| ==> first + Times(i, p) <= r[i] < first + Times(i, p) + gap
  }

  /** In phase, and nothing was due by `end` that did not happen. */
  predicate KeepsUp(r: seq<nat>, first: nat, p: nat, gap: nat, end: nat) {
    InPhase(r, first, p, gap) && end < first + Times(|r|, p)
  }

  lemma KeepsUpShift(time: nat, rest: seq<nat>, first: nat, p: nat, gap: nat, end: nat)
    requires first <= time < first + gap && KeepsUp(rest, first + p, p, gap, end)
    ensures KeepsUp([time] + rest, first, p, gap, end)
  {
    var r := [time] + rest;
    forall i | 0 <= i < |r|
      ensures first + Times(i, p) <= r[i] < first + Times(i, p) + gap
    {
      if i > 0 {
        assert r[i] == rest[i - 1] && Times(i, p) == Times(i - 1, p) + p;
      }
    }
    assert |r| == |rest| + 1 && Times(|r|, p) == Times(|rest|, p) + p;
  }

  /** A tick soon after the last one samples exactly when a sample is due, and then keeps the phase. */
  lemma TickOnTime(s: Phase, last: nat, now: nat, hz: nat, gap: nat)
    requires 2 <= hz <= 20 && s.hz == hz && gap <= Period(hz) && last < s.next && last <= now <= last + gap
    ensures var (sampled, s') := Tick(s, now, hz);
            if sampled then s' == Phase(s.next + Period(hz), hz) && s.next <= now < s.next + gap
            else s' == s && now < s.next
  {
  }

  lemma {:induction false} SamplesKeepPhase(s: Phase, last: nat, ticks: seq<nat>, hz: nat, gap: nat)
    requires 2 <= hz <= 20 && s.hz == hz && gap <= Period(hz) && last < s.next && Frequent(last, ticks, gap)
    ensures KeepsUp(Samples(s, ticks, hz), s.next, Period(hz), gap, LastTick(last, ticks))
    decreases |ticks|
  {
    if ticks != [] {
      var (sampled, s') := Tick(s, ticks[0], hz);
      TickOnTime(s, last, ticks[0], hz, gap);
      SamplesKeepPhase(s', ticks[0], ticks[1..], hz, gap);
      assert LastTick(last, ticks) == LastTick(ticks[0], ticks[1..]);
      var rest := Samples(s', ticks[1..], hz);
      if sampled {
        KeepsUpShift(ticks[0], rest, s.next, Period(hz), gap, LastTick(last, ticks));
      } else {
        assert [] + rest == rest;
      }
    }
  }

  /** A run that begins with a change of rate: the n-th sample falls within one tick gap of its nominal time,
      and none that is due is missed. */
  lemma OnTime(s: Phase, ticks: seq<nat>, hz: nat, gap: nat, n: nat)
    requires 2 <= hz <= 20 && s.hz != hz && gap <= Period(hz)
    requires ticks != [] && Frequent(ticks[0], ticks[1..], gap)
    ensures var r := Samples(s, ticks, hz);
            && |r| >= 1 && r[0] == ticks[0]
            && (1 <= n < |r| ==> r[0] + n * Period(hz) <= r[n] < r[0] + n * Period(hz) + gap)
            && LastTick(ticks[0], ticks) < r[0] + |r| * Period(hz)
  {
    var s' := Tick(s, ticks[0], hz).1;
    var r, rest := Samples(s, ticks, hz), Samples(s', ticks[1..], hz);
    SamplesKeepPhase(s', ticks[0], ticks[1..], hz, gap);
    assert r == [ticks[0]] + rest;
    TimesIsProduct(|r|, Period(hz));
    TimesIsProduct(n, Period(hz));
    if 1 <= n < |r| {
      assert r[n] == rest[n - 1];
    }
  }

  // ----- per second -----

  /** The rate asked for, 2 a second if none is, and no less than 2 or more than 20. */
  lemma RateIs(asked: nat)
    ensures Rate(None) == 2 && (2 <= asked <= 20 ==> Rate(Some(asked)) == asked)
    ensures (asked < 2 ==> Rate(Some(asked)) == 2) && (asked > 20 ==> Rate(Some(asked)) == 20)
  {
  }

  lemma PeriodFits(hz: nat)
    requires 2 <= hz <= 20
    ensures hz * Period(hz) <= 1000 < (hz + 1) * Period(hz)
  {
    var p := Period(hz);
    assert 1000 == p * hz + 1000 % hz;
    assert (hz + 1) * p == hz * p + p;
  }

  /** Within any second there are at most three samples more than the rate. */
  lemma SecondHolds(s: Phase, ticks: seq<nat>, hz: nat, from: nat, n: nat)
    requires 2 <= hz <= 20 && n >= 1 && from + n <= |Samples(s, ticks, hz)|
    requires var r := Samples(s, ticks, hz); r[from + n - 1] <= r[from] + 1000
    ensures n <= hz + 3
  {
    NeverTooFast(s, ticks, hz, from, n);
    PeriodFits(hz);
    var r := Samples(s, ticks, hz);
    AtMost(n, SaturatingSub(r[from + n - 1], r[from]), hz, Period(hz));
  }

  lemma AtMost(n: nat, span: nat, hz: nat, p: nat)
    requires p > 0 && n <= span / p + 3 && span <= 1000 < (hz + 1) * p
    ensures n <= hz + 3
  {
    var q := span / p;
    assert q * p <= span;
    Multiples(hz, q, p);
  }

  /** With prompt ticks, a second after the first sample there have been at least as many more as the rate. */
  lemma SecondIsFilled(s: Phase, ticks: seq<nat>, hz: nat, gap: nat)
    requires 2 <= hz <= 20 && s.hz != hz && gap <= Period(hz)
    requires ticks != [] && Frequent(ticks[0], ticks[1..], gap) && LastTick(ticks[0], ticks) >= ticks[0] + 1000
    ensures |Samples(s, ticks, hz)| > hz
  {
    OnTime(s, ticks, hz, gap, 0);
    PeriodFits(hz);
    var r, p := Samples(s, ticks, hz), Period(hz);
    Multiples(|r|, hz, p);
  }

  // ----- actions -----

  /** Lines 63-73: an identified action runs unless it is the one that ran last. */
  predicate Runs(last: string, id: Option<string>) {
    id.Some? && id.value != last
  }

  /** The actions that run over a series of sampled requests. */
  function Executed(last: string, ids: seq<Option<string>>): seq<string>
    decreases |ids|
  {
    if ids == [] then [] else
    if Runs(last, ids[0]) then [ids[0].value] + Executed(ids[0].value, ids[1..]) else Executed(last, ids[1..])
  }

  /** Requests are polled again and again: a repeated one runs once, and no action runs twice in a row. */
  lemma {:induction false} RepeatsRunOnce(last: string, ids: seq<Option<string>>)
    ensures var e := Executed(last, ids);
            && (e != [] ==> e[0] != last)
            && (forall i :: 0 < i < |e| ==> e[i] != e[i - 1])
            && (forall k :: 0 <= k < |ids| && ids[k].Some? && ids[k].value != last ==> ids[k].value in e)
    decreases |ids|
  {
    if ids != [] {
      var e := Executed(last, ids);
      var last' := if Runs(last, ids[0]) then ids[0].value else last;
      RepeatsRunOnce(last', ids[1..]);
      var rest := Executed(last', ids[1..]);
      forall k | 0 <= k < |ids| && ids[k].Some? && ids[k].value != last
        ensures ids[k].value in e
      {
        if k > 0 {
          assert ids[k] == ids[1..][k - 1];
        }
      }
    }
  }

  // ----- the plugin's state -----

  datatype Request = Request(hz: Option<nat>, action: Option<string>)

  class Snapshotter {
    var busy: bool
    var lastAction: string
    var nextSampleMs: nat
    var refreshHz: nat

    constructor ()
      ensures !busy && nextSampleMs == 0 && refreshHz == 0 && lastAction == ""
    {
      busy, lastAction, nextSampleMs, refreshHz := false, "", 0, 0;
    }

    ghost function Now(): Phase
      reads this
    {
      Phase(nextSampleMs, refreshHz)
    }

    /** `snapshot`: the guard is released on every path, and a call made meanwhile does nothing. */
    method Snapshot(request: Option<Request>, now: nat) returns (sampled: bool, ran: Option<string>)
      modifies this
      ensures busy == old(busy)
      ensures if old(busy) || request.None? then !sampled && Now() == old(Now()) && lastAction == old(lastAction)
              else (sampled, Now()) == Tick(old(Now()), now, Rate(request.value.hz))
      ensures ran == if sampled && Runs(old(lastAction), request.value.action) then request.value.action else None
      ensures lastAction == if ran.Some? then ran.value else old(lastAction)
    {
      sampled, ran := false, None;
      if busy {
        return;
      }
      busy := true;
      if request.None? {
        busy := false;
        return;
      }
      var hz := Rate(request.value.hz);
      if refreshHz == hz && now < nextSampleMs {
        busy := false;
        return;
      }
      var period := 1000 / hz;
      nextSampleMs := if refreshHz != hz || SaturatingSub(now, nextSampleMs) > period * 2
        then now + period else nextSampleMs + period;
      refreshHz := hz;
      sampled := true;
      if request.value.action.Some? && request.value.action.value != lastAction {
        lastAction := request.value.action.value;
        ran := request.value.action;
      }
      busy := false;
    }
  }
}
