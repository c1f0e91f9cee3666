/** What `wrap_numbers` promises, as a function of the whole input history of
    one name: the raw value plus every value seen just before a drop. */
module WrapSpec {
  /** A device name. `run` does nothing with it but compare and hash it. */
  type Key = nat

  type Counters = map<Key, seq<int>>

  /** All the inputs given under one name since its cache was last empty. */
  type History = seq<Counters>

  /** `run` indexes the previous tuple with the indices of the new one. */
  ghost predicate Indexable(old_: Counters, new_: Counters) {
    forall k :: k in old_ && k in new_ ==> |new_[k]| <= |old_[k]|
  }

  ghost predicate WellFormed(h: History) {
    forall t :: 0 < t < |h| ==> CallOk(h, t)
  }

  ghost predicate CallOk(h: History, t: nat)
    requires 0 < t < |h|
  {
    Indexable(h[t - 1], h[t])
  }

  function Last(h: History): Counters
    requires h != []
  {
    h[|h| - 1]
  }

  /** Sum of the pre-drop values of counter `(k, i)` since `k` last appeared. */
  function Carry(h: History, k: Key, i: nat): int
    decreases |h|
  {
    if |h| < 2 || k !in h[|h| - 1] || k !in h[|h| - 2] then 0
    else
      var before, now := h[|h| - 2][k], h[|h| - 1][k];
      Carry(h[..|h| - 1], k, i)
      + if i < |now| && i < |before| && now[i] < before[i] then before[i] else 0
  }

  /** What the last call answers for counter `(k, i)`. */
  function Adjusted(h: History, k: Key, i: nat): int
    requires h != [] && k in Last(h) && i < |Last(h)[k]|
  {
    Last(h)[k][i] + Carry(h, k, i)
  }

  function Output(h: History): (r: Counters)
    requires h != []
    ensures r.Keys == Last(h).Keys
    ensures forall k :: k in r ==>
              |r[k]| == |Last(h)[k]| && forall i :: 0 <= i < |r[k]| ==> r[k][i] == Adjusted(h, k, i)
  {
    map k | k in Last(h) :: seq(|Last(h)[k]|, i requires 0 <= i < |Last(h)[k]| => Adjusted(h, k, i))
  }

  /** What counter `(k, i)` loses at call `t` by falling below its previous value. */
  function DropAt(h: History, k: Key, i: nat, t: nat): int
    requires 0 < t < |h|
  {
    if k in h[t - 1] && k in h[t] && i < |h[t - 1][k]| && i < |h[t][k]| && h[t][k][i] < h[t - 1][k][i]
    then h[t - 1][k][i] else 0
  }

  /** All of that in the calls after `s`, up to `n`. */
  function Drops(h: History, k: Key, i: nat, s: nat, n: nat): int
    requires s <= n < |h|
  {
    if n == s then 0 else Drops(h, k, i, s, n - 1) + DropAt(h, k, i, n)
  }

  /** Key `k` has been there in every call since `s`, and not in the one before. */
  ghost predicate ThereSince(h: History, k: Key, s: nat) {
    s < |h| && (forall t :: s <= t < |h| ==> k in h[t]) && (s > 0 ==> k !in h[s - 1])
  }

  lemma {:induction false} DropsOfPrefix(h: History, k: Key, i: nat, s: nat, n: nat, m: nat)
    requires s <= n < m <= |h|
    ensures Drops(h[..m], k, i, s, n) == Drops(h, k, i, s, n)
    decreases n
  {
    if n > s {
      DropsOfPrefix(h, k, i, s, n - 1, m);
    }
  }

  lemma {:induction false} CarryIsDrops(h: History, k: Key, i: nat, s: nat)
    requires ThereSince(h, k, s)
    ensures Carry(h, k, i) == Drops(h, k, i, s, |h| - 1)
    decreases |h|
  {
    var n := |h| - 1;
    if s < n {
      CarryIsDrops(h[..n], k, i, s);
      DropsOfPrefix(h, k, i, s, n - 1, n);
    }
  }

  /** The answer is the raw number plus what the counter has lost since its key
      last appeared. */
  lemma OutputExactly(h: History, k: Key, i: nat, s: nat)
    requires ThereSince(h, k, s) && i < |Last(h)[k]|
    ensures k in Output(h) && |Output(h)[k]| == |Last(h)[k]|
    ensures Output(h)[k][i] == Last(h)[k][i] + Drops(h, k, i, s, |h| - 1)
  {
    CarryIsDrops(h, k, i, s);
  }

  /** Such a call there is for every key of the last input; and a key that was not
      in the call before comes out as its raw tuple, whatever it had lost earlier. */
  lemma {:induction false} SinceWhen(h: History, k: Key) returns (s: nat)
    requires h != [] && k in Last(h)
    ensures ThereSince(h, k, s)
    ensures |h| == 1 || k !in h[|h| - 2] ==> s == |h| - 1 && Output(h)[k] == Last(h)[k]
    decreases |h|
  {
    var n := |h| - 1;
    if n == 0 || k !in h[n - 1] {
      s := n;
      assert Output(h)[k] == Last(h)[k];
    } else {
      s := SinceWhen(h[..n], k);
      assert forall t :: s <= t < n ==> h[..n][t] == h[t];
    }
  }

  ghost predicate NonNegative(m: Counters) {
    forall k, i :: k in m && 0 <= i < |m[k]| ==> m[k][i] >= 0
  }

  ghost predicate AllNonNegative(h: History) {
    forall t :: 0 <= t < |h| ==> NonNegative(h[t])
  }

  /** From one call to the next the adjusted counter never goes down. */
  lemma OutputNeverDecreases(h: History, k: Key, i: nat)
    requires |h| >= 2 && WellFormed(h) && NonNegative(Last(h))
    requires k in h[|h| - 2] && k in h[|h| - 1] && i < |h[|h| - 1][k]|
    ensures i < |h[|h| - 2][k]|
    ensures Adjusted(h, k, i) >= Adjusted(h[..|h| - 1], k, i)
  {
    assert CallOk(h, |h| - 1);
    assert Last(h[..|h| - 1]) == h[|h| - 2];
  }

  // ----- totals over all devices

  /** Every device in `ks` has a counter number `i`. */
  ghost predicate HasColumn(m: Counters, ks: set<Key>, i: nat) {
    forall k :: k in ks ==> k in m && i < |m[k]|
  }

  /** Sum of column `i` over the devices in `ks`. */
  ghost function Total(m: Counters, ks: set<Key>, i: nat): int
    requires HasColumn(m, ks, i)
  {
    if ks == {} then 0
    else
      var k :| k in ks;
      m[k][i] + Total(m, ks - {k}, i)
  }

  lemma {:induction false} TotalTakeOne(m: Counters, ks: set<Key>, k: Key, i: nat)
    requires HasColumn(m, ks, i) && k in ks
    ensures Total(m, ks, i) == m[k][i] + Total(m, ks - {k}, i)
  {
    var j :| j in ks && Total(m, ks, i) == m[j][i] + Total(m, ks - {j}, i);
    if j != k {
      TotalTakeOne(m, ks - {j}, k, i);
      TotalTakeOne(m, ks - {k}, j, i);
      assert ks - {j} - {k} == ks - {k} - {j};
    }
  }

  lemma {:induction false} TotalGrows(m: Counters, ks: set<Key>, m': Counters, ks': set<Key>, i: nat)
    requires ks <= ks'
    requires HasColumn(m, ks, i) && HasColumn(m', ks', i)
    requires forall k :: k in ks' ==> m'[k][i] >= 0
    requires forall k :: k in ks ==> m[k][i] <= m'[k][i]
    ensures Total(m, ks, i) <= Total(m', ks', i)
    decreases ks'
  {
    if ks' != {} {
      var k :| k in ks';
      TotalTakeOne(m', ks', k, i);
      if k in ks {
        TotalTakeOne(m, ks, k, i);
        TotalGrows(m, ks - {k}, m', ks' - {k}, i);
      } else {
        TotalGrows(m, ks, m', ks' - {k}, i);
      }
    }
  }

  /** One sum for every column that all the devices in `ks` have. */
  ghost predicate ColumnSums(m: Counters, ks: set<Key>, sums: seq<int>) {
    forall i: nat :: (i < |sums| <==> HasColumn(m, ks, i)) && (i < |sums| ==> sums[i] == Total(m, ks, i))
  }

  lemma AddToSums(m: Counters, ks: set<Key>, sums: seq<int>, k: Key, sums': seq<int>)
    requires k in m && k !in ks && ColumnSums(m, ks, sums)
    requires |sums'| == if |m[k]| < |sums| then |m[k]| else |sums|
    requires forall i :: 0 <= i < |sums'| ==> sums'[i] == m[k][i] + sums[i]
    ensures ColumnSums(m, ks + {k}, sums')
  {
    assert ks + {k} - {k} == ks;
    forall i: nat
      ensures i < |sums'| <==> HasColumn(m, ks + {k}, i)
      ensures i < |sums'| ==> sums'[i] == Total(m, ks + {k}, i)
    {
      assert i < |sums| <==> HasColumn(m, ks, i);
      if i < |sums'| {
        TotalTakeOne(m, ks + {k}, k, i);
      }
    }
  }

  lemma SumsOfOne(m: Counters, k: Key)
    requires k in m
    ensures ColumnSums(m, {k}, m[k])
  {
  }

  lemma {:induction false} CarryNonNegative(h: History, k: Key, i: nat)
    requires AllNonNegative(h)
    ensures Carry(h, k, i) >= 0
    decreases |h|
  {
    if |h| >= 2 && k in h[|h| - 1] && k in h[|h| - 2] {
      assert NonNegative(h[|h| - 2]);
      CarryNonNegative(h[..|h| - 1], k, i);
    }
  }

  /** While no device disappears, the all-device total never goes down, even
      though devices may appear. */
  lemma TotalNeverDecreases(h: History, i: nat)
    requires |h| >= 2 && WellFormed(h) && AllNonNegative(h)
    requires h[|h| - 2].Keys <= h[|h| - 1].Keys
    requires HasColumn(h[|h| - 1], h[|h| - 1].Keys, i)
    ensures HasColumn(h[|h| - 2], h[|h| - 2].Keys, i)
    ensures Total(Output(h[..|h| - 1]), h[|h| - 2].Keys, i) <= Total(Output(h), h[|h| - 1].Keys, i)
  {
    var was, now := h[|h| - 2], h[|h| - 1];
    assert CallOk(h, |h| - 1);
    assert Last(h[..|h| - 1]) == was;
    assert NonNegative(now);
    forall k | k in now
      ensures Output(h)[k][i] >= 0
    {
      CarryNonNegative(h, k, i);
    }
    forall k | k in was
      ensures Output(h[..|h| - 1])[k][i] <= Output(h)[k][i]
    {
      OutputNeverDecreases(h, k, i);
    }
    TotalGrows(Output(h[..|h| - 1]), was.Keys, Output(h), now.Keys, i);
  }

  // ----- counters of a fixed width

  /** Counter `(k, i)` reads `real` modulo `M` in every call, and the true count
      grows by less than `M` from call to call. */
  ghost predicate Counts(h: History, k: Key, i: nat, real_: seq<nat>, M: nat) {
    && M > 0 && |real_| == |h|
    && (forall t :: 0 <= t < |h| ==> k in h[t] && i < |h[t][k]| && h[t][k][i] == real_[t] % M)
    && (forall t :: 0 < t < |h| ==> Grows(real_, t, M))
  }

  ghost predicate Grows(real_: seq<nat>, t: nat, M: nat)
    requires 0 < t < |real_|
  {
    real_[t - 1] <= real_[t] < real_[t - 1] + M
  }

  /** How many times the true count passed a multiple of `M`. */
  function Wraps(real_: seq<nat>, M: nat): nat
    requires M > 0
  {
    if |real_| < 2 then 0
    else Wraps(real_[..|real_| - 1], M) + if real_[|real_| - 1] / M != real_[|real_| - 2] / M then 1 else 0
  }

  lemma QuotientStep(a: nat, b: nat, M: nat)
    requires M > 0 && a <= b < a + M
    ensures b / M == a / M || b / M == a / M + 1
  {
    var p, q := a / M, b / M;
    assert a == M * p + a % M && b == M * q + b % M;
    assert M * (q - p) == b - a + a % M - b % M;
    Factor(M, q - p);
  }

  lemma Factor(m: int, x: int)
    requires m > 0
    ensures -m < m * x < 2 * m ==> x == 0 || x == 1
  {
  }

  lemma OneStep(a: nat, b: nat, M: nat)
    requires M > 0 && a <= b < a + M
    ensures b % M < a % M <==> b / M != a / M
    ensures b - a == b % M - a % M + if b % M < a % M then M else 0
  {
    QuotientStep(a, b, M);
    assert a == M * (a / M) + a % M;
    assert b == M * (b / M) + b % M;
    assert M * (a / M + 1) == M * (a / M) + M;
  }

  /** True growth minus adjusted growth since the first call. */
  ghost function Shortfall(h: History, k: Key, i: nat, real_: seq<nat>, M: nat): int
    requires h != [] && Counts(h, k, i, real_, M)
  {
    (real_[|h| - 1] - real_[0]) - (Adjusted(h, k, i) - h[0][k][i])
  }

  lemma ShortfallStep(h: History, k: Key, i: nat, real_: seq<nat>, M: nat)
    requires |h| >= 2 && Counts(h, k, i, real_, M)
    ensures Counts(h[..|h| - 1], k, i, real_[..|h| - 1], M)
    ensures Wraps(real_, M) == Wraps(real_[..|h| - 1], M) + if Last(h)[k][i] < h[|h| - 2][k][i] then 1 else 0
    ensures Shortfall(h, k, i, real_, M) == Shortfall(h[..|h| - 1], k, i, real_[..|h| - 1], M)
            + if Last(h)[k][i] < h[|h| - 2][k][i] then M - h[|h| - 2][k][i] else 0
    ensures Last(h)[k][i] < h[|h| - 2][k][i] ==> 1 <= M - h[|h| - 2][k][i] <= M - 1
  {
    var n := |h|;
    assert Grows(real_, n - 1, M);
    OneStep(real_[n - 2], real_[n - 1], M);
    assert Last(h[..n - 1]) == h[n - 2];
    var earlier := real_[..n - 1];
    forall t | 0 < t < n - 1
      ensures Grows(earlier, t, M)
    {
      assert Grows(real_, t, M);
    }
  }

  /** Every wrap is detected; the adjusted growth falls short of the true growth
      by at least 1 and less than `M` for each of them, and by nothing else. */
  lemma {:induction false} ShortfallPerWrap(h: History, k: Key, i: nat, real_: seq<nat>, M: nat)
    requires h != [] && Counts(h, k, i, real_, M)
    ensures Wraps(real_, M) <= Shortfall(h, k, i, real_, M) <= Wraps(real_, M) * (M - 1)
    decreases |h|
  {
    if |h| >= 2 {
      ShortfallStep(h, k, i, real_, M);
      ShortfallPerWrap(h[..|h| - 1], k, i, real_[..|h| - 1], M);
      Distribute(Wraps(real_[..|h| - 1], M), M - 1);
    }
  }

  lemma Distribute(w: int, m: int)
    ensures (w + 1) * m == w * m + m
  {
  }
}

/** `_WrapNumbers` and its callers `disk_io_counters` / `net_io_counters`. */
module WrapNumbers {
  import opened Wrappers
  import opened WrapSpec

  /** A function name, such as 'psutil.disk_io_counters'. */
  type Name = nat
  datatype RemKey = RemKey(key: Key, i: nat)

  /** A dictionary value: a raw tuple, or the named tuple the caller rewraps it in. */
  datatype Fields = Fields(named: bool, nums: seq<int>)

  /** A Python dictionary of tuples: an object, because `run` keeps a reference
      to the one it is given and, on a first call, returns that same one. */
  class Dict {
    var m: map<Key, Fields>

    constructor ()
      ensures m == map[]
    {
      m := map[];
    }
  }

  /** The numbers of a dictionary, whichever kind of tuple they sit in. */
  ghost function Nums(m: map<Key, Fields>): (r: Counters)
    ensures r.Keys == m.Keys && forall k :: k in m ==> r[k] == m[k].nums
  {
    map k | k in m :: m[k].nums
  }

  class WrapNumbers {
    var cache: map<Name, Dict>
    var reminders: map<Name, map<RemKey, int>>
    var reminderKeys: map<Name, map<Key, set<RemKey>>>

    /** The numbers held by `cache` at this moment. */
    ghost function Cached(): (r: map<Name, Counters>)
      reads this, cache.Values
      ensures r.Keys == cache.Keys && forall n :: n in cache ==> r[n] == Nums(cache[n].m)
    {
      map n | n in cache :: Nums(cache[n].m)
    }

    /** `history` is what `run` was given under each name since it was last cleared. */
    ghost predicate Follows(history: map<Name, History>)
      reads this, cache.Values
    {
      StateOk(Cached(), reminders, reminderKeys, history)
    }

    constructor ()
      ensures Follows(map[])
    {
      cache, reminders, reminderKeys := map[], map[], map[];
    }

    /** Presenting a dictionary leaves the cached numbers as they are, even where
        it is the cached one. */
    method PresentFrom(d: Dict, perDevice: bool) returns (answer: Answer)
      requires d.m != map[]
      modifies d
      ensures Cached() == old(Cached()) && Nums(d.m) == old(Nums(d.m))
      ensures Shows(answer, perDevice, Nums(d.m))
    {
      hide ColumnSums;
      answer := Present(d, perDevice);
    }

    method AddDict(input: Dict, name: Name, ghost history: map<Name, History>)
      requires Follows(history) && name !in cache
      modifies this
      ensures Follows(history[name := [Nums(input.m)]])
      ensures cache == old(cache)[name := input]
      ensures reminders == old(reminders)[name := map[]]
      ensures reminderKeys == old(reminderKeys)[name := map[]]
    {
      hide StateOk, EntryOk;
      EmptyEntryOk(Nums(input.m));
      SetEntryOk(Cached(), reminders, reminderKeys, history, name, map[], map[], [Nums(input.m)]);
      cache := cache[name := input];
      reminders := reminders[name := map[]];
      reminderKeys := reminderKeys[name := map[]];
      assert Cached() == old(Cached())[name := Nums(input.m)];
    }

    method RemoveDeadReminders(input: Dict, name: Name, ghost history: map<Name, History>)
      requires Follows(history) && name in cache
      requires name in reminders && name in reminderKeys
      modifies this`reminders, this`reminderKeys
      ensures var gone := cache[name].m.Keys - input.m.Keys;
              && reminders == old(reminders)[name := WithoutDead(old(reminders[name]), old(reminderKeys[name]), gone)]
              && reminderKeys == old(reminderKeys)[name := old(reminderKeys[name]) - gone]
    {
      hide StateOk, EntryOk, WithoutDead;
      GetEntryOk(Cached(), reminders, reminderKeys, history, name);
      var rem, keys := DeleteReminders(cache[name].m.Keys - input.m.Keys, reminders[name], reminderKeys[name]);
      reminders, reminderKeys := reminders[name := rem], reminderKeys[name := keys];
    }

    static method DeleteReminders(gone: set<Key>, rem0: map<RemKey, int>, keys0: map<Key, set<RemKey>>)
      returns (rem: map<RemKey, int>, keys: map<Key, set<RemKey>>)
      requires forall k, r :: k in keys0 && r in keys0[k] ==> r.key == k && r in rem0
      ensures rem == WithoutDead(rem0, keys0, gone) && keys == keys0 - gone
    {
      rem, keys := rem0, keys0;
      var todo := gone;
      while todo != {}
        invariant todo <= gone
        invariant rem == WithoutDead(rem0, keys0, gone - todo)
        invariant keys == keys0 - (gone - todo)
        decreases todo
      {
        var goneKey :| goneKey in todo;
        ghost var done, rem1 := gone - todo, rem;
        var all := Get(keys, goneKey);
        var remKeys := all;
        while remKeys != {}
          invariant remKeys <= all
          invariant rem == rem1 - (all - remKeys)
          decreases remKeys
        {
          var r :| r in remKeys;
          // `del` raises KeyError on a missing key; it is never missing
          assert r in rem;
          rem := rem - {r};
          remKeys := remKeys - {r};
        }
        DropListed(rem0, keys0, done, goneKey);
        keys := keys - {goneKey};
        todo := todo - {goneKey};
        assert gone - todo == done + {goneKey};
      }
      assert gone - todo == gone;
    }

    /** The inner loop of `run`: one tuple against the previous one. */
    static method SumTuple(key: Key, input: seq<int>, old_: seq<int>,
                           rem0: map<RemKey, int>, keys0: map<Key, set<RemKey>>)
      returns (bits: seq<int>, rem: map<RemKey, int>, keys: map<Key, set<RemKey>>)
      requires |input| <= |old_|
      ensures |bits| == |input|
      ensures forall i :: 0 <= i < |input| ==> bits[i] == input[i] + Value(rem, RemKey(key, i))
      ensures Summed(key, input, old_, |input|, rem0, keys0, rem, keys)
    {
      hide Summed;
      bits, rem, keys := [], rem0, keys0;
      SumNone(key, input, old_, rem0, keys0);
      for i := 0 to |input|
        invariant |bits| == i
        invariant forall j :: 0 <= j < i ==> bits[j] == input[j] + Value(rem, RemKey(key, j))
        invariant Summed(key, input, old_, i, rem0, keys0, rem, keys)
      {
        var remKey := RemKey(key, i);
        SumStep(key, input, old_, i, rem0, keys0, rem, keys);
        if input[i] < old_[i] {
          rem := rem[remKey := Value(rem, remKey) + old_[i]];
          keys := keys[key := Get(keys, key) + {remKey}];
        } else {
          // reading a defaultdict stores the default
          rem := rem[remKey := Value(rem, remKey)];
        }
        bits := bits + [input[i] + rem[remKey]];
      }
    }

    method Run(input: Dict, name: Name, ghost history: map<Name, History>)
      returns (r: Dict, ghost rem: map<RemKey, int>, ghost keys: map<Key, set<RemKey>>)
      requires Follows(history)
      requires name in cache ==> Indexable(Nums(cache[name].m), Nums(input.m))
      modifies this
      ensures Follows(history[name := Past(history, name) + [Nums(input.m)]])
      ensures Nums(r.m) == Output(Past(history, name) + [Nums(input.m)])
      ensures if old(name !in cache) then r == input else fresh(r)
      ensures cache == old(cache)[name := input]
      ensures reminders == old(reminders)[name := rem]
      ensures reminderKeys == old(reminderKeys)[name := keys]
    {
      hide StateOk, EntryOk, InProgress, WithoutDead, Output;
      SameNames(Cached(), reminders, reminderKeys, history);
      if name !in cache {
        AddDict(input, name, history);
        FirstOutput(Nums(input.m));
        assert [] + [Nums(input.m)] == [Nums(input.m)];
        return input, map[], map[];
      }
      r, rem, keys := RunAgain(input, name, history);
    }

    /** `run` after the first call. */
    method RunAgain(input: Dict, name: Name, ghost history: map<Name, History>)
      returns (r: Dict, ghost rem: map<RemKey, int>, ghost keys: map<Key, set<RemKey>>)
      requires Follows(history) && name in cache && name in history
      requires Indexable(Nums(cache[name].m), Nums(input.m))
      modifies this
      ensures fresh(r)
      ensures cache == old(cache)[name := input]
      ensures Follows(history[name := history[name] + [Nums(input.m)]])
      ensures Nums(r.m) == Output(history[name] + [Nums(input.m)])
      ensures reminders == old(reminders)[name := rem]
      ensures reminderKeys == old(reminderKeys)[name := keys]
    {
      hide StateOk, EntryOk, InProgress, WithoutDead, Output, Indexable;
      GetEntryOk(Cached(), reminders, reminderKeys, history, name);
      ghost var h := history[name] + [Nums(input.m)];
      ghost var cached0, rems0, keys0 := Cached(), reminders, reminderKeys;
      DeadRemoved(reminders[name], reminderKeys[name], history[name], Nums(cache[name].m), Nums(input.m));
      RemoveDeadReminders(input, name, history);
      var rem', keys';
      r, rem', keys' := SumDict(input.m, cache[name].m, reminders[name], reminderKeys[name], h);
      assert Cached() == cached0;
      Overwrite(rems0, reminders, name, rem');
      Overwrite(keys0, reminderKeys, name, keys');
      Store(input, name, rem', keys', h, history, cached0, rems0, keys0);
      rem, keys := rem', keys';
    }

    /** What `run` leaves in the dictionaries: the new input, and the reminders
        it has brought up to date. */
    method Store(input: Dict, name: Name, rem: map<RemKey, int>, keys: map<Key, set<RemKey>>, ghost h: History,
                 ghost history: map<Name, History>, ghost cached0: map<Name, Counters>,
                 ghost rems0: map<Name, map<RemKey, int>>, ghost keys0: map<Name, map<Key, set<RemKey>>>)
      requires StateOk(cached0, rems0, keys0, history) && cached0 == Cached()
      requires reminders[name := rem] == rems0[name := rem]
      requires reminderKeys[name := keys] == keys0[name := keys]
      requires h != [] && Last(h) == Nums(input.m) && EntryOk(Last(h), rem, keys, h)
      modifies this
      ensures cache == old(cache)[name := input]
      ensures Follows(history[name := h])
      ensures reminders == rems0[name := rem]
      ensures reminderKeys == keys0[name := keys]
    {
      hide StateOk, EntryOk;
      SetEntryOk(cached0, rems0, keys0, history, name, rem, keys, h);
      reminders, reminderKeys := reminders[name := rem], reminderKeys[name := keys];
      cache := cache[name := input];
      assert Cached() == cached0[name := Last(h)];
    }

    /** The loop of `run` over the keys of the input. */
    static method SumDict(input: map<Key, Fields>, oldDict: map<Key, Fields>,
                          rem0: map<RemKey, int>, keys0: map<Key, set<RemKey>>, ghost h: History)
      returns (r: Dict, rem: map<RemKey, int>, keys: map<Key, set<RemKey>>)
      requires |h| >= 2 && h[|h| - 2] == Nums(oldDict) && h[|h| - 1] == Nums(input)
      requires WellFormed(h[..|h| - 1]) && Indexable(h[|h| - 2], h[|h| - 1])
      requires InProgress(rem0, keys0, h, input.Keys)
      ensures fresh(r) && Nums(r.m) == Output(h)
      ensures EntryOk(Last(h), rem, keys, h)
    {
      hide InProgress, EntryOk;
      rem, keys := rem0, keys0;
      r := new Dict();
      var todo := input.Keys;
      while todo != {}
        invariant todo <= input.Keys
        invariant r.m.Keys == input.Keys - todo
        invariant InProgress(rem, keys, h, todo)
        invariant forall k :: k in r.m ==> r.m[k].nums == Output(h)[k]
        decreases todo
      {
        var key :| key in todo;
        var bits;
        bits, rem, keys := OneKey(key, input, oldDict, rem, keys, h, todo);
        r.m := r.m[key := Fields(false, bits)];
        todo := todo - {key};
      }
      AllDone(rem, keys, h, todo);
    }

    /** The body of the loop over the keys of the input. */
    static method OneKey(key: Key, input: map<Key, Fields>, oldDict: map<Key, Fields>,
                         rem0: map<RemKey, int>, keys0: map<Key, set<RemKey>>, ghost h: History, ghost todo: set<Key>)
      returns (bits: seq<int>, rem: map<RemKey, int>, keys: map<Key, set<RemKey>>)
      requires |h| >= 2 && h[|h| - 2] == Nums(oldDict) && h[|h| - 1] == Nums(input)
      requires Indexable(h[|h| - 2], h[|h| - 1])
      requires key in todo && key in input && InProgress(rem0, keys0, h, todo)
      ensures InProgress(rem, keys, h, todo - {key})
      ensures bits == Output(h)[key]
    {
      hide InProgress, Summed;
      var inputTuple := input[key].nums;
      if key !in oldDict {
        NewKeyDone(rem0, keys0, h, todo, key);
        return inputTuple, rem0, keys0;
      }
      bits, rem, keys := SumTuple(key, inputTuple, oldDict[key].nums, rem0, keys0);
      KeyDone(rem0, keys0, rem, keys, h, todo, key);
    }

    method CacheClear(name: Option<Name>, ghost history: map<Name, History>)
      requires Follows(history)
      modifies this
      ensures Follows(Without(history, name))
      ensures name.None? ==> cache == map[] && reminders == map[] && reminderKeys == map[]
      ensures name.Some? ==>
                && cache == old(cache) - {name.value} && reminders == old(reminders) - {name.value}
                && reminderKeys == old(reminderKeys) - {name.value}
    {
      hide StateOk;
      DropEntryOk(Cached(), reminders, reminderKeys, history, name);
      match name {
        case None =>
          cache, reminders, reminderKeys := map[], map[], map[];
        case Some(n) =>
          cache, reminders, reminderKeys := cache - {n}, reminders - {n}, reminderKeys - {n};
      }
      assert Cached() == Without(old(Cached()), name);
    }
  }

  /** What `cache_clear` leaves of a dictionary: everything but one name, or nothing. */
  function Without<T>(m: map<Name, T>, name: Option<Name>): map<Name, T> {
    match name
    case None => map[]
    case Some(n) => m - {n}
  }

  /** The three dictionaries hold the same names, and every name's entries
      agree with its history. */
  ghost predicate StateOk(cached: map<Name, Counters>, reminders: map<Name, map<RemKey, int>>,
                          reminderKeys: map<Name, map<Key, set<RemKey>>>, history: map<Name, History>) {
    && cached.Keys == reminders.Keys == reminderKeys.Keys == history.Keys
    && forall n :: n in cached ==> EntryOk(cached[n], reminders[n], reminderKeys[n], history[n])
  }

  lemma Overwrite<T>(m: map<Name, T>, m': map<Name, T>, name: Name, t: T)
    requires name in m' && m' == m[name := m'[name]]
    ensures m'[name := t] == m[name := t]
  {
  }

  /** What holds between calls: the dictionaries hold the same names, a reminder
      is positive exactly when it is listed, and whatever is listed exists and
      belongs to a key of the cached input. */
  lemma TablesAgree(cached: map<Name, Counters>, reminders: map<Name, map<RemKey, int>>,
                    reminderKeys: map<Name, map<Key, set<RemKey>>>, history: map<Name, History>)
    requires StateOk(cached, reminders, reminderKeys, history)
    ensures cached.Keys == reminders.Keys == reminderKeys.Keys == history.Keys
    ensures forall n, r :: n in cached && Listed(reminderKeys[n], r) ==> r.key in cached[n] && r in reminders[n]
    ensures forall n, r :: n in cached && AllNonNegative(history[n]) ==>
              (Listed(reminderKeys[n], r) <==> Value(reminders[n], r) > 0)
  {
    forall n | n in cached
      ensures forall r :: Listed(reminderKeys[n], r) ==> r.key in cached[n] && r in reminders[n]
      ensures AllNonNegative(history[n]) ==>
                forall r :: Listed(reminderKeys[n], r) <==> Value(reminders[n], r) > 0
    {
      assert EntryOk(cached[n], reminders[n], reminderKeys[n], history[n]);
    }
  }

  lemma SameNames(cached: map<Name, Counters>, reminders: map<Name, map<RemKey, int>>,
                  reminderKeys: map<Name, map<Key, set<RemKey>>>, history: map<Name, History>)
    requires StateOk(cached, reminders, reminderKeys, history)
    ensures cached.Keys == reminders.Keys == reminderKeys.Keys == history.Keys
  {
  }

  lemma FirstOutput(m: Counters)
    ensures Output([m]) == m
  {
    assert forall k :: k in m ==> Output([m])[k] == m[k];
  }

  lemma DropEntryOk(cached: map<Name, Counters>, reminders: map<Name, map<RemKey, int>>,
                    reminderKeys: map<Name, map<Key, set<RemKey>>>, history: map<Name, History>, name: Option<Name>)
    requires StateOk(cached, reminders, reminderKeys, history)
    ensures StateOk(Without(cached, name), Without(reminders, name), Without(reminderKeys, name),
                    Without(history, name))
  {
    hide EntryOk;
  }

  lemma SetEntryOk(cached: map<Name, Counters>, reminders: map<Name, map<RemKey, int>>,
                   reminderKeys: map<Name, map<Key, set<RemKey>>>, history: map<Name, History>,
                   name: Name, rem: map<RemKey, int>, keys: map<Key, set<RemKey>>, h: History)
    requires StateOk(cached, reminders, reminderKeys, history)
    requires h != [] && EntryOk(Last(h), rem, keys, h)
    ensures StateOk(cached[name := Last(h)], reminders[name := rem], reminderKeys[name := keys], history[name := h])
  {
    hide EntryOk;
  }

  lemma GetEntryOk(cached: map<Name, Counters>, reminders: map<Name, map<RemKey, int>>,
                   reminderKeys: map<Name, map<Key, set<RemKey>>>, history: map<Name, History>, name: Name)
    requires StateOk(cached, reminders, reminderKeys, history) && name in cached
    ensures name in reminders && name in reminderKeys && name in history
    ensures EntryOk(cached[name], reminders[name], reminderKeys[name], history[name])
    ensures history[name] != [] && Last(history[name]) == cached[name] && WellFormed(history[name])
    ensures forall k, r :: k in reminderKeys[name] && r in reminderKeys[name][k] ==> r.key == k && r in reminders[name]
  {
    hide Carry;
  }

  /** One name's entries in the three dictionaries against its history. */
  ghost predicate EntryOk(cached: Counters, rem: map<RemKey, int>, keys: map<Key, set<RemKey>>, h: History) {
    && h != []
    && WellFormed(h)
    && Last(h) == cached
    && TablesOk(rem, keys, h)
  }

  // ----- the callers

  datatype Answer = Nothing | PerDevice(d: Dict) | Totals(sums: seq<int>)

  /** `sum(x) for x in zip(*rawdict.values())`: one sum per column that every
      device has. */
  method SumColumns(m: map<Key, Fields>) returns (sums: seq<int>)
    requires m != map[]
    ensures ColumnSums(Nums(m), m.Keys, sums)
  {
    hide ColumnSums;
    var todo := m.Keys;
    var first :| first in todo;
    sums, todo := m[first].nums, todo - {first};
    SumsOfOne(Nums(m), first);
    assert m.Keys - todo == {first};
    while todo != {}
      invariant todo < m.Keys && ColumnSums(Nums(m), m.Keys - todo, sums)
      decreases todo
    {
      var key :| key in todo;
      var nums := m[key].nums;
      var width := if |nums| < |sums| then |nums| else |sums|;
      var added := seq(width, i requires 0 <= i < width => nums[i] + sums[i]);
      AddToSums(Nums(m), m.Keys - todo, sums, key, added);
      assert m.Keys - todo + {key} == m.Keys - (todo - {key});
      sums, todo := added, todo - {key};
    }
    assert m.Keys - todo == m.Keys;
  }

  /** `rawdict[disk] = sdiskio(*fields)` for every key, in place. */
  method Rewrap(d: Dict)
    modifies d
    ensures Nums(d.m) == old(Nums(d.m)) && forall k :: k in d.m ==> d.m[k].named
  {
    d.m := map k | k in d.m :: Fields(true, d.m[k].nums);
  }

  /** The tail of `disk_io_counters` and `net_io_counters`: per device, or summed up. */
  method Present(d: Dict, perDevice: bool) returns (answer: Answer)
    requires d.m != map[]
    modifies d
    ensures Nums(d.m) == old(Nums(d.m))
    ensures Shows(answer, perDevice, Nums(d.m))
  {
    if perDevice {
      Rewrap(d);
      answer := PerDevice(d);
    } else {
      var sums := SumColumns(d.m);
      answer := Totals(sums);
    }
  }

  /** `answer` presents the numbers `expected`. */
  ghost predicate Shows(answer: Answer, perDevice: bool, expected: Counters)
    reads match answer case PerDevice(d) => {d} case _ => {}
  {
    match answer
    case Nothing => expected == map[]
    case PerDevice(d) => perDevice && Nums(d.m) == expected && forall k :: k in d.m ==> d.m[k].named
    case Totals(sums) => !perDevice && ColumnSums(expected, expected.Keys, sums)
  }

  /** `disk_io_counters` and `net_io_counters`, which differ only in their names.
      On a first call the dictionary rewrapped in place is the cached one. */
  method IoCounters(wn: WrapNumbers, raw: Dict, name: Name, perDevice: bool, nowrap: bool,
                    ghost history: map<Name, History>)
    returns (answer: Answer)
    requires wn.Follows(history)
    requires nowrap && name in wn.cache ==> Indexable(Nums(wn.cache[name].m), Nums(raw.m))
    modifies wn, raw
    ensures wn.Follows(After(history, name, old(Nums(raw.m)), nowrap))
    ensures Shows(answer, perDevice, Expected(history, name, old(Nums(raw.m)), nowrap))
    ensures answer.Nothing? <==> old(raw.m) == map[]
  {
    hide StateOk, Output, Past, ColumnSums;
    if raw.m == map[] {
      return Nothing;
    }
    var d := raw;
    ghost var nums := Nums(raw.m);
    if nowrap {
      ghost var rem, keys;
      d, rem, keys := wn.Run(raw, name, history);
    }
    answer := wn.PresentFrom(d, perDevice);
  }

  ghost function Expected(history: map<Name, History>, name: Name, nums: Counters, nowrap: bool): Counters {
    if nowrap && nums != map[] then Output(Past(history, name) + [nums]) else nums
  }

  ghost function After(history: map<Name, History>, name: Name, nums: Counters, nowrap: bool): map<Name, History> {
    if nowrap && nums != map[] then history[name := Past(history, name) + [nums]] else history
  }

  ghost function Past(history: map<Name, History>, name: Name): History {
    if name in history then history[name] else []
  }

  // ----- the two reminder tables of one name

  predicate Listed(keys: map<Key, set<RemKey>>, r: RemKey) {
    r.key in keys && r in keys[r.key]
  }

  /** `defaultdict(int)` lookup. */
  function Value(rem: map<RemKey, int>, r: RemKey): int {
    if r in rem then rem[r] else 0
  }

  /** `defaultdict(set)` lookup. */
  function Get(keys: map<Key, set<RemKey>>, k: Key): set<RemKey> {
    if k in keys then keys[k] else {}
  }

  /** The reminders of one name say what the history says, every listed reminder
      exists and belongs to a cached key, and a reminder is listed exactly when
      it is positive (the counters being non-negative). */
  ghost predicate TablesOk(rem: map<RemKey, int>, keys: map<Key, set<RemKey>>, h: History)
    requires h != []
  {
    && ListingOk(rem, keys, Last(h).Keys)
    && (AllNonNegative(h) ==> forall r :: Value(rem, r) >= 0 && (Listed(keys, r) ==> Value(rem, r) > 0))
    && (forall k, i {:trigger Carry(h, k, i)} :: k in Last(h) && 0 <= i < |Last(h)[k]| ==>
          Value(rem, RemKey(k, i)) == Carry(h, k, i))
  }

  ghost predicate ListingOk(rem: map<RemKey, int>, keys: map<Key, set<RemKey>>, cached: set<Key>) {
    && (forall r :: Value(rem, r) != 0 ==> Listed(keys, r))
    && (forall k, r :: k in keys && r in keys[k] ==> r.key == k && k in cached && r in rem)
  }

  lemma EmptyEntryOk(m: Counters)
    ensures EntryOk(m, map[], map[], [m])
  {
  }

  // ----- what one call of `run` does to them

  function WithoutDead(rem: map<RemKey, int>, keys: map<Key, set<RemKey>>, gone: set<Key>): map<RemKey, int> {
    map r | r in rem && !(r.key in gone && Listed(keys, r)) :: rem[r]
  }

  /** The first `n` counters of `key` have been compared with the previous call. */
  ghost predicate Summed(key: Key, input: seq<int>, old_: seq<int>, n: nat,
                         rem0: map<RemKey, int>, keys0: map<Key, set<RemKey>>,
                         rem: map<RemKey, int>, keys: map<Key, set<RemKey>>)
    requires n <= |input| <= |old_|
  {
    && rem0.Keys <= rem.Keys
    && (forall r :: Value(rem, r) == Value(rem0, r)
                    + if r.key == key && r.i < n && input[r.i] < old_[r.i] then old_[r.i] else 0)
    && (forall r :: Listed(keys, r) <==>
                    Listed(keys0, r) || (r.key == key && r.i < n && input[r.i] < old_[r.i]))
    && (forall r: RemKey :: r.key == key && r.i < n ==> r in rem)
    && (forall k, r :: k in keys && r in keys[k] ==> (k in keys0 && r in keys0[k]) || k == r.key == key)
  }

  lemma SumStep(key: Key, input: seq<int>, old_: seq<int>, n: nat,
                rem0: map<RemKey, int>, keys0: map<Key, set<RemKey>>,
                rem: map<RemKey, int>, keys: map<Key, set<RemKey>>)
    requires n < |input| <= |old_| && Summed(key, input, old_, n, rem0, keys0, rem, keys)
    ensures var r, drop := RemKey(key, n), input[n] < old_[n];
            var rem' := rem[r := Value(rem, r) + if drop then old_[n] else 0];
            var keys' := if drop then keys[key := Get(keys, key) + {r}] else keys;
            && Summed(key, input, old_, n + 1, rem0, keys0, rem', keys')
            && forall j: nat :: j < n ==> Value(rem', RemKey(key, j)) == Value(rem, RemKey(key, j))
  {
    var r, drop := RemKey(key, n), input[n] < old_[n];
    var keys' := if drop then keys[key := Get(keys, key) + {r}] else keys;
    forall q
      ensures Listed(keys', q) <==> Listed(keys, q) || (drop && q == r)
    {
    }
  }

  lemma SumNone(key: Key, input: seq<int>, old_: seq<int>, rem0: map<RemKey, int>, keys0: map<Key, set<RemKey>>)
    requires |input| <= |old_|
    ensures Summed(key, input, old_, 0, rem0, keys0, rem0, keys0)
  {
  }

  lemma DropListed(rem: map<RemKey, int>, keys: map<Key, set<RemKey>>, done: set<Key>, k: Key)
    requires k !in done
    requires forall j, r :: j in keys && r in keys[j] ==> r.key == j
    ensures WithoutDead(rem, keys, done) - Get(keys, k) == WithoutDead(rem, keys, done + {k})
  {
  }

  /** `run` has dealt with every key of the input but `todo`. */
  ghost predicate InProgress(rem: map<RemKey, int>, keys: map<Key, set<RemKey>>, h: History, todo: set<Key>)
    requires |h| >= 2
  {
    var was, now := h[|h| - 2], h[|h| - 1];
    && ListingOk(rem, keys, now.Keys)
    && (AllNonNegative(h) ==> forall r :: Value(rem, r) >= 0 && (Listed(keys, r) ==> Value(rem, r) > 0))
    && (forall k, i {:trigger Carry(h, k, i)} :: k in now && 0 <= i < |now[k]| ==>
          Value(rem, RemKey(k, i)) ==
          if k !in was then 0
          else if k in todo then Carry(h[..|h| - 1], k, i)
          else Carry(h, k, i))
  }

  lemma DeadRemoved(rem: map<RemKey, int>, keys: map<Key, set<RemKey>>, h: History, was: Counters, now: Counters)
    requires EntryOk(was, rem, keys, h) && Indexable(was, now)
    ensures h != [] && Last(h) == was && WellFormed(h)
    ensures var gone := was.Keys - now.Keys;
            InProgress(WithoutDead(rem, keys, gone), keys - gone, h + [now], now.Keys)
  {
    var h', gone := h + [now], was.Keys - now.Keys;
    var rem', keys' := WithoutDead(rem, keys, gone), keys - gone;
    assert h'[..|h'| - 1] == h && h'[|h'| - 2] == Last(h);
    assert AllNonNegative(h') ==> AllNonNegative(h) by {
      if AllNonNegative(h') {
        assert forall t :: 0 <= t < |h| ==> h'[t] == h[t];
      }
    }
    forall r
      ensures Listed(keys', r) <==> Listed(keys, r) && r.key !in gone
      ensures Value(rem', r) == if r.key in gone then 0 else Value(rem, r)
    {
    }
    forall k: Key, r: RemKey | k in keys' && r in keys'[k]
      ensures r.key == k && k in now && r in rem'
    {
      assert Listed(keys, r) && r.key == k && k in Last(h) && k !in gone;
    }
    forall k, i | k in now && 0 <= i < |now[k]|
      ensures Value(rem', RemKey(k, i)) == if k !in Last(h) then 0 else Carry(h, k, i)
    {
      if k in Last(h) {
        assert |now[k]| <= |Last(h)[k]|;
      } else {
        assert !Listed(keys, RemKey(k, i));
      }
    }
  }

  lemma KeyListed(rem0: map<RemKey, int>, keys0: map<Key, set<RemKey>>,
                  rem: map<RemKey, int>, keys: map<Key, set<RemKey>>,
                  key: Key, input: seq<int>, old_: seq<int>, cached: set<Key>)
    requires key in cached && |input| <= |old_| && Summed(key, input, old_, |input|, rem0, keys0, rem, keys)
    requires ListingOk(rem0, keys0, cached)
    ensures ListingOk(rem, keys, cached)
    ensures (forall r :: Value(rem0, r) >= 0 && (Listed(keys0, r) ==> Value(rem0, r) > 0))
            && (forall i :: 0 <= i < |input| ==> input[i] >= 0) ==>
              forall r :: Value(rem, r) >= 0 && (Listed(keys, r) ==> Value(rem, r) > 0)
  {
    forall k, r | k in keys && r in keys[k]
      ensures r.key == k && k in cached && r in rem
    {
      if !(k in keys0 && r in keys0[k]) {
        assert Listed(keys, r);
      }
    }
  }

  lemma KeyDone(rem0: map<RemKey, int>, keys0: map<Key, set<RemKey>>,
                rem: map<RemKey, int>, keys: map<Key, set<RemKey>>, h: History, todo: set<Key>, key: Key)
    requires |h| >= 2 && Indexable(h[|h| - 2], h[|h| - 1])
    requires InProgress(rem0, keys0, h, todo)
    requires key in todo && key in h[|h| - 1] && key in h[|h| - 2]
    requires |h[|h| - 1][key]| <= |h[|h| - 2][key]|
    requires Summed(key, h[|h| - 1][key], h[|h| - 2][key], |h[|h| - 1][key]|, rem0, keys0, rem, keys)
    ensures InProgress(rem, keys, h, todo - {key})
    ensures forall i: nat :: i < |h[|h| - 1][key]| ==> Value(rem, RemKey(key, i)) == Carry(h, key, i)
  {
    hide ListingOk, Listed;
    var was, now := h[|h| - 2], h[|h| - 1];
    KeyListed(rem0, keys0, rem, keys, key, now[key], was[key], now.Keys);
    if AllNonNegative(h) {
      assert NonNegative(now);
    }
    forall k, i: nat | k in now && i < |now[k]|
      ensures Value(rem, RemKey(k, i)) ==
              if k !in was then 0
              else if k in todo - {key} then Carry(h[..|h| - 1], k, i)
              else Carry(h, k, i)
    {
      var before := Carry(h, k, i);
      assert Value(rem, RemKey(k, i)) == Value(rem0, RemKey(k, i))
             + if k == key && now[key][i] < was[key][i] then was[key][i] else 0;
    }
  }

  lemma NewKeyDone(rem: map<RemKey, int>, keys: map<Key, set<RemKey>>, h: History, todo: set<Key>, key: Key)
    requires |h| >= 2 && InProgress(rem, keys, h, todo) && key in h[|h| - 1] && key !in h[|h| - 2]
    ensures InProgress(rem, keys, h, todo - {key})
    ensures forall i :: Carry(h, key, i) == 0
  {
    var now := h[|h| - 1];
    forall k, i: nat | k in now && i < |now[k]|
      ensures Value(rem, RemKey(k, i)) ==
              if k !in h[|h| - 2] then 0
              else if k in todo - {key} then Carry(h[..|h| - 1], k, i)
              else Carry(h, k, i)
    {
      var before := Carry(h, k, i);
    }
  }

  lemma AllDone(rem: map<RemKey, int>, keys: map<Key, set<RemKey>>, h: History, todo: set<Key>)
    requires |h| >= 2 && InProgress(rem, keys, h, todo) && todo == {}
    requires WellFormed(h[..|h| - 1]) && Indexable(h[|h| - 2], h[|h| - 1])
    ensures EntryOk(Last(h), rem, keys, h)
  {
    forall t | 0 < t < |h|
      ensures CallOk(h, t)
    {
      assert t < |h| - 1 ==> CallOk(h[..|h| - 1], t);
    }
    forall k, i: nat | k in Last(h) && i < |Last(h)[k]|
      ensures Value(rem, RemKey(k, i)) == Carry(h, k, i)
    {
      var c := Carry(h, k, i);
    }
  }
}
