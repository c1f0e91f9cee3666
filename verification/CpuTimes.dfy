/** `round(x, 1)` over the reals: to the nearest tenth, ties to an even one. */
module Rounding {
  function Round1(x: real): real {
    var f := (x * 10.0).Floor;
    var d := x * 10.0 - f as real;
    var n := if d < 0.5 || (d == 0.5 && f % 2 == 0) then f else f + 1;
    n as real / 10.0
  }

  lemma Round1Error(x: real)
    ensures -0.05 <= Round1(x) - x <= 0.05
  {
  }

  lemma Round1Monotone(x: real, y: real)
    requires x <= y
    ensures Round1(x) <= Round1(y)
  {
    assert (x * 10.0).Floor <= (y * 10.0).Floor;
  }

  /** The nearest tenth, and of two equally near ones the even one. */
  lemma Round1Exactly(x: real) returns (n: int)
    ensures Round1(x) == n as real / 10.0
    ensures -0.5 <= x * 10.0 - n as real <= 0.5
    ensures x * 10.0 - n as real == 0.5 || x * 10.0 - n as real == -0.5 ==> n % 2 == 0
  {
    var f := (x * 10.0).Floor;
    var d := x * 10.0 - f as real;
    n := if d < 0.5 || (d == 0.5 && f % 2 == 0) then f else f + 1;
  }

  /** Whole numbers stay as they are, so rounding keeps within whole bounds. */
  lemma Round1Between(lo: int, x: real, hi: int)
    requires lo as real <= x <= hi as real
    ensures lo as real <= Round1(x) <= hi as real
  {
    assert Round1(lo as real) == lo as real by {
      assert (lo as real * 10.0).Floor == lo * 10;
    }
    assert Round1(hi as real) == hi as real by {
      assert (hi as real * 10.0).Floor == hi * 10;
    }
    Round1Monotone(lo as real, x);
    Round1Monotone(x, hi as real);
  }
}

/** The arithmetic of `cpu_percent` and `cpu_times_percent`, on Linux. */
module CpuTimes {
  import opened Rounding

  /** The fields of `scputimes`, in its order: user, system, idle, nice, iowait,
      irq, softirq, steal, guest, guest_nice. */
  type Times = t: seq<real> | |t| == 10 witness seq(10, _ => 0.0)

  const USER := 0
  const SYSTEM := 1
  const IDLE := 2
  const NICE := 3
  const IOWAIT := 4
  const IRQ := 5
  const SOFTIRQ := 6
  const STEAL := 7
  const GUEST := 8
  const GUEST_NICE := 9

  function Sum(s: seq<real>): real {
    if s == [] then 0.0 else Sum(s[..|s| - 1]) + s[|s| - 1]
  }

  lemma SumOfTimes(t: Times)
    ensures Sum(t) == t[0] + t[1] + t[2] + t[3] + t[4] + t[5] + t[6] + t[7] + t[8] + t[9]
  {
    var t5 := t[..5];
    assert Sum(t5) == t[0] + t[1] + t[2] + t[3] + t[4] by {
      assert t5[..4][..3][..2][..1][..0] == [];
      assert t5[..4] == t[..4] && t5[..4][..3] == t[..3] && t[..3][..2] == t[..2] && t[..2][..1] == t[..1];
      assert Sum(t[..1]) == t[0];
      assert Sum(t[..2]) == t[0] + t[1];
      assert Sum(t[..3]) == t[0] + t[1] + t[2];
    }
    assert t[..9][..8] == t[..8] && t[..8][..7] == t[..7] && t[..7][..6] == t[..6] && t[..6][..5] == t5;
    assert Sum(t[..6]) == Sum(t5) + t[5];
    assert Sum(t[..7]) == Sum(t[..6]) + t[6];
    assert Sum(t[..8]) == Sum(t[..7]) + t[7];
    assert Sum(t[..9]) == Sum(t[..8]) + t[8];
  }

  /** `_cpu_tot_time` */
  function TotTime(t: Times): real {
    Sum(t) - t[GUEST] - t[GUEST_NICE]
  }

  /** `_cpu_busy_time` */
  function BusyTime(t: Times): real {
    TotTime(t) - t[IDLE] - t[IOWAIT]
  }

  function Max(a: real, b: real): real {
    if a < b then b else a
  }

  function Min(a: real, b: real): real {
    if b < a then b else a
  }

  ghost predicate AreDeltas(t1: Times, t2: Times, d: Times) {
    forall i :: 0 <= i < 10 ==> d[i] == Max(0.0, t2[i] - t1[i])
  }

  /** `_cpu_times_deltas` */
  method CpuTimesDeltas(t1: Times, t2: Times) returns (d: Times)
    ensures AreDeltas(t1, t2, d)
  {
    var fieldDeltas := [];
    for i := 0 to 10
      invariant |fieldDeltas| == i
      invariant forall j :: 0 <= j < i ==> fieldDeltas[j] == Max(0.0, t2[j] - t1[j])
    {
      fieldDeltas := fieldDeltas + [Max(0.0, t2[i] - t1[i])];
    }
    d := fieldDeltas;
  }

  /** Guest time cancels out of the total, which is what remains. */
  lemma TotalWithoutGuest(d: Times)
    ensures TotTime(d) == d[USER] + d[SYSTEM] + d[IDLE] + d[NICE] + d[IOWAIT] + d[IRQ] + d[SOFTIRQ] + d[STEAL]
    ensures BusyTime(d) == d[USER] + d[SYSTEM] + d[NICE] + d[IRQ] + d[SOFTIRQ] + d[STEAL]
  {
    SumOfTimes(d);
  }

  ghost predicate NoneNegative(d: Times) {
    forall i :: 0 <= i < 10 ==> d[i] >= 0.0
  }

  lemma BusyWithinTotal(d: Times)
    requires NoneNegative(d)
    ensures 0.0 <= BusyTime(d) <= TotTime(d)
  {
    TotalWithoutGuest(d);
  }

  /** `calculate` of `cpu_percent`: always within 0 and 100, whatever the two
      samples are and however guest times behave. */
  method CpuPercent(t1: Times, t2: Times) returns (percent: real)
    ensures 0.0 <= percent <= 100.0
    ensures forall d: Times :: AreDeltas(t1, t2, d) ==>
              percent == if TotTime(d) == 0.0 then 0.0 else Round1(BusyTime(d) / TotTime(d) * 100.0)
  {
    hide Round1, TotTime, BusyTime;
    var timesDelta := CpuTimesDeltas(t1, t2);
    BusyWithinTotal(timesDelta);
    forall d: Times | AreDeltas(t1, t2, d)
      ensures d == timesDelta
    {
    }
    var all, busy := TotTime(timesDelta), BusyTime(timesDelta);
    if all == 0.0 {
      return 0.0;
    }
    Percentage(busy, all);
    Round1Between(0, busy / all * 100.0, 100);
    percent := Round1(busy / all * 100.0);
  }

  lemma Percentage(part: real, whole: real)
    requires 0.0 <= part <= whole && whole > 0.0
    ensures 0.0 <= part / whole * 100.0 <= 100.0
  {
  }

  // ----- cpu_times_percent

  /** One field's share before rounding. */
  function Share(delta: real, all: real): real {
    delta * (100.0 / Max(1.0, all))
  }

  function Clamp(x: real): real {
    Min(Max(0.0, x), 100.0)
  }

  /** `num` is 100 times `delta` over the larger of `all` and a second, cut off at
      100, within 0.05. */
  ghost predicate NearShare(num: real, delta: real, all: real) {
    -0.05 <= num - Min(delta * 100.0 / Max(1.0, all), 100.0) <= 0.05
  }

  /** What is returned for field `i`, for these deltas. */
  function Returned(d: Times, i: nat): real
    requires i < 10
  {
    Clamp(Round1(Share(d[i], TotTime(d))))
  }

  /** `calculate` of `cpu_times_percent` */
  method CpuTimesPercent(t1: Times, t2: Times) returns (nums: Times)
    ensures forall i :: 0 <= i < 10 ==> 0.0 <= nums[i] <= 100.0
    ensures forall d: Times, i :: AreDeltas(t1, t2, d) && 0 <= i < 10 ==>
              nums[i] == Returned(d, i) && NearShare(nums[i], d[i], TotTime(d))
  {
    hide Round1, TotTime;
    var timesDelta := CpuTimesDeltas(t1, t2);
    forall d: Times | AreDeltas(t1, t2, d)
      ensures d == timesDelta
    {
    }
    forall i | 0 <= i < 10
      ensures NearShare(Returned(timesDelta, i), timesDelta[i], TotTime(timesDelta))
    {
      ReturnedNearShare(timesDelta, i);
    }
    var all := TotTime(timesDelta);
    var scale := 100.0 / Max(1.0, all);
    var ns := [];
    for i := 0 to 10
      invariant |ns| == i
      invariant forall j :: 0 <= j < i ==> ns[j] == Clamp(Round1(Share(timesDelta[j], all)))
    {
      assert timesDelta[i] * scale == Share(timesDelta[i], all);
      ns := ns + [Min(Max(0.0, Round1(timesDelta[i] * scale)), 100.0)];
    }
    nums := ns;
  }

  /** Apart from guest times, the shares before rounding add up to
      100 t / max(1, t) for a total t: to 100 exactly when t is at least one
      second, and to less than 100 for a shorter interval. `ReturnedAddUp` is about
      the numbers returned. */
  lemma SharesAddUp(d: Times)
    requires NoneNegative(d)
    ensures var t := TotTime(d);
            var sum := Share(d[USER], t) + Share(d[SYSTEM], t) + Share(d[IDLE], t) + Share(d[NICE], t)
                       + Share(d[IOWAIT], t) + Share(d[IRQ], t) + Share(d[SOFTIRQ], t) + Share(d[STEAL], t);
            && sum == 100.0 * t / Max(1.0, t)
            && (sum == 100.0 <==> t >= 1.0)
            && (t < 1.0 ==> sum == 100.0 * t)
  {
    hide TotTime;
    TotalWithoutGuest(d);
    var t := TotTime(d);
    var scale := 100.0 / Max(1.0, t);
    Scales(d[USER], d[SYSTEM], d[IDLE], d[NICE], scale);
    Scales(d[IOWAIT], d[IRQ], d[SOFTIRQ], d[STEAL], scale);
    ScaleTotal(t);
    Distribute(d[USER] + d[SYSTEM] + d[IDLE] + d[NICE], d[IOWAIT] + d[IRQ] + d[SOFTIRQ] + d[STEAL], scale);
  }

  lemma Distribute(a: real, b: real, s: real)
    ensures a * s + b * s == (a + b) * s
  {
  }

  lemma Scales(a: real, b: real, c: real, d: real, s: real)
    ensures a * s + b * s + c * s + d * s == (a + b + c + d) * s
  {
  }

  lemma ScaleTotal(t: real)
    requires t >= 0.0
    ensures t * (100.0 / Max(1.0, t)) == 100.0 * t / Max(1.0, t)
    ensures t >= 1.0 ==> 100.0 * t / Max(1.0, t) == 100.0
  {
  }

  lemma ShareNotClamped(d: Times, i: nat)
    requires NoneNegative(d) && i < GUEST
    ensures var x := Share(d[i], TotTime(d));
            0.0 <= x <= 100.0 && Clamp(Round1(x)) == Round1(x) && -0.05 <= Round1(x) - x <= 0.05
  {
    hide Round1, TotTime;
    TotalWithoutGuest(d);
    var t := TotTime(d);
    assert d[i] <= t;
    ShareAtMost(d[i], t);
    Round1Between(0, Share(d[i], t), 100);
    Round1Error(Share(d[i], t));
  }

  /** Each field, a guest time too, gets its own share. */
  lemma ReturnedNearShare(d: Times, i: nat)
    requires i < 10 && d[i] >= 0.0
    ensures NearShare(Returned(d, i), d[i], TotTime(d))
  {
    hide Round1, TotTime;
    var x := Share(d[i], TotTime(d));
    ShareIs(d[i], TotTime(d));
    Round1Error(x);
    if x <= 100.0 {
      Round1Between(0, x, 100);
    } else {
      HundredRounded();
      Round1Monotone(100.0, x);
    }
  }

  lemma HundredRounded()
    ensures Round1(100.0) == 100.0
  {
    assert (100.0 * 10.0).Floor == 1000;
  }

  lemma ShareIs(x: real, t: real)
    requires x >= 0.0
    ensures Share(x, t) == x * 100.0 / Max(1.0, t) && Share(x, t) >= 0.0
  {
  }

  /** So the returned numbers, apart from guest times, add up to 100 t / max(1, t)
      within 0.05 for each of the eight. */
  lemma ReturnedAddUp(d: Times)
    requires NoneNegative(d)
    ensures var t := TotTime(d);
            var sum := Returned(d, USER) + Returned(d, SYSTEM) + Returned(d, IDLE) + Returned(d, NICE)
                       + Returned(d, IOWAIT) + Returned(d, IRQ) + Returned(d, SOFTIRQ) + Returned(d, STEAL);
            -0.4 <= sum - 100.0 * t / Max(1.0, t) <= 0.4
  {
    hide Round1, TotTime, Share, Clamp;
    SharesAddUp(d);
    ShareNotClamped(d, USER);
    ShareNotClamped(d, SYSTEM);
    ShareNotClamped(d, IDLE);
    ShareNotClamped(d, NICE);
    ShareNotClamped(d, IOWAIT);
    ShareNotClamped(d, IRQ);
    ShareNotClamped(d, SOFTIRQ);
    ShareNotClamped(d, STEAL);
  }

  /** Three equal shares are returned as 33.3 each: 99.9 for three whole seconds. */
  lemma ThirdsAddUpToLess() returns (d: Times)
    ensures NoneNegative(d) && TotTime(d) == 3.0
    ensures Returned(d, USER) == Returned(d, SYSTEM) == Returned(d, IDLE) == 33.3
    ensures forall i :: NICE <= i < 10 ==> Returned(d, i) == 0.0
  {
    d := [1.0, 1.0, 1.0, 0.0, 0.0, 0.0, 0.0, 0.0, 0.0, 0.0];
    TotalWithoutGuest(d);
    hide TotTime;
    assert Share(1.0, 3.0) * 10.0 == 1000.0 / 3.0 && (1000.0 / 3.0).Floor == 333;
    assert Share(0.0, 3.0) == 0.0 && Round1(0.0) == 0.0;
  }

  lemma ShareAtMost(x: real, t: real)
    requires 0.0 <= x <= t
    ensures 0.0 <= Share(x, t) <= 100.0
  {
  }
}

/** The samples that `cpu_percent` and `cpu_times_percent` keep per thread. */
module CpuSampling {
  import opened Wrappers

  type Tid = nat

  /** The pair of samples one call works with. */
  datatype Call<S> = Call(tid: Tid, blocking: bool, t1: S, t2: S)

  /** The k-th reading of `cpu_times()`, or of `cpu_times(percpu=True)`; each of
      the four dictionaries of last samples is one Sampler. */
  class Sampler<S(!new)> {
    const sample: nat -> S
    var last: map<Tid, S>
    var taken: nat
    ghost var calls: seq<Call<S>>

    /** Importing the module samples for the importing thread, unless that fails;
        it counts as a first call over no time at all. */
    constructor (sample: nat -> S, importer: Option<Tid>)
      ensures this.sample == sample && Valid()
      ensures calls == if importer.Some? then [Call(importer.value, true, sample(0), sample(0))] else []
    {
      this.sample := sample;
      last, taken, calls := map[], 0, [];
      if importer.Some? {
        last, taken := map[importer.value := sample(0)], 1;
        calls := [Call(importer.value, true, sample(0), sample(0))];
      }
    }

    /** What is stored for a thread is the second sample of its last call, and
        every non-blocking call has started where that thread's last one ended. */
    ghost predicate Valid()
      reads this
    {
      && Tiled(calls)
      && forall tid :: if tid in last then Latest(calls, tid) == Some(last[tid]) else Latest(calls, tid) == None
    }

    /** The two samples of a call; None stands for ValueError. */
    method Take(tid: Tid, interval: Option<real>) returns (r: Option<(S, S)>)
      requires Valid()
      modifies this
      ensures Valid()
      ensures r.None? <==> interval.Some? && interval.value < 0.0
      ensures r.None? ==> calls == old(calls) && taken == old(taken)
      ensures r.Some? ==>
                calls == old(calls) + [Call(tid, interval.Some? && interval.value > 0.0, r.value.0, r.value.1)]
      ensures r.Some? ==>
                var fresh_ := (interval.Some? && interval.value > 0.0) || Latest(old(calls), tid).None?;
                && taken == old(taken) + (if fresh_ then 2 else 1)
                && r.value.0 == (if fresh_ then sample(old(taken)) else Latest(old(calls), tid).value)
                && r.value.1 == sample(taken - 1)
    {
      var blocking := interval.Some? && interval.value > 0.0;
      if interval.Some? && interval.value < 0.0 {
        return None;
      }
      var t1;
      if !blocking && tid in last {
        t1 := last[tid];
      } else {
        t1 := sample(taken);
        taken := taken + 1;
      }
      var t2 := sample(taken);
      taken := taken + 1;
      last := last[tid := t2];
      TakeKeepsTiled(calls, Call(tid, blocking, t1, t2));
      calls := calls + [Call(tid, blocking, t1, t2)];
      assert calls[..|calls| - 1] == old(calls);
      r := Some((t1, t2));
    }
  }

  /** The second sample of a thread's last call. */
  ghost function Latest<S>(calls: seq<Call<S>>, tid: Tid): Option<S> {
    if calls == [] then None
    else if calls[|calls| - 1].tid == tid then Some(calls[|calls| - 1].t2)
    else Latest(calls[..|calls| - 1], tid)
  }

  /** Every non-blocking call starts where its own thread's previous call ended:
      what `Take` adds keeps this, in whatever order threads make their calls. */
  ghost predicate Tiled<S>(calls: seq<Call<S>>) {
    forall n :: 0 <= n < |calls| ==> StartsRight(calls, n)
  }

  ghost predicate StartsRight<S>(calls: seq<Call<S>>, n: nat)
    requires n < |calls|
  {
    !calls[n].blocking && Latest(calls[..n], calls[n].tid).Some? ==>
      calls[n].t1 == Latest(calls[..n], calls[n].tid).value
  }

  /** One thread's own calls. */
  ghost function Own<S>(calls: seq<Call<S>>, tid: Tid): seq<Call<S>> {
    if calls == [] then []
    else
      var before, c := Own(calls[..|calls| - 1], tid), calls[|calls| - 1];
      if c.tid == tid then before + [c] else before
  }

  lemma {:induction false} LatestIsOwn<S>(calls: seq<Call<S>>, tid: Tid)
    ensures var own := Own(calls, tid);
            Latest(calls, tid) == if own == [] then None else Some(own[|own| - 1].t2)
    decreases |calls|
  {
    if calls != [] {
      LatestIsOwn(calls[..|calls| - 1], tid);
    }
  }

  /** For every interleaving: a thread's successive non-blocking calls tile its
      timeline, each from the second sample of the call before to its own. */
  lemma {:induction false} CallsTile<S>(calls: seq<Call<S>>, tid: Tid, k: nat)
    requires Tiled(calls) && k + 1 < |Own(calls, tid)| && !Own(calls, tid)[k + 1].blocking
    ensures Own(calls, tid)[k + 1].t1 == Own(calls, tid)[k].t2
    decreases |calls|
  {
    var n := |calls| - 1;
    var before := calls[..n];
    forall m | 0 <= m < |before|
      ensures StartsRight(before, m)
    {
      assert StartsRight(calls, m) && before[..m] == calls[..m];
    }
    if k + 1 < |Own(before, tid)| {
      CallsTile(before, tid, k);
    } else {
      LatestIsOwn(before, tid);
      assert StartsRight(calls, n);
    }
  }

  lemma TakeKeepsTiled<S>(calls: seq<Call<S>>, c: Call<S>)
    requires Tiled(calls)
    requires !c.blocking && Latest(calls, c.tid).Some? ==> c.t1 == Latest(calls, c.tid).value
    ensures Tiled(calls + [c])
  {
    var all := calls + [c];
    forall n | 0 <= n < |all|
      ensures StartsRight(all, n)
    {
      assert all[..n] == calls[..n];
      if n < |calls| {
        assert StartsRight(calls, n);
      } else {
        assert calls[..n] == calls;
      }
    }
  }

  /** Deltas of one counter over successive calls. */
  ghost function Deltas(calls: seq<Call<real>>): real {
    if calls == [] then 0.0 else Deltas(calls[..|calls| - 1]) + (calls[|calls| - 1].t2 - calls[|calls| - 1].t1)
  }

  /** So nothing is lost or counted twice: over a thread's non-blocking calls the
      deltas add up to the difference between the last and the first sample. */
  lemma {:induction false} DeltasAddUp(own: seq<Call<real>>)
    requires own != [] && forall k :: 0 <= k < |own| - 1 ==> own[k + 1].t1 == own[k].t2
    ensures Deltas(own) == own[|own| - 1].t2 - own[0].t1
    decreases |own|
  {
    if |own| > 1 {
      var before := own[..|own| - 1];
      DeltasAddUp(before);
      assert own[|own| - 2 + 1].t1 == own[|own| - 2].t2;
    }
  }
}
