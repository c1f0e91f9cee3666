/** One pass of `process_iter`, whatever stands for a Process instance. */
module PassSpec {
  import opened Wrappers

  type Pid = nat

  /** An entry of the sorted list `ls`: a cached instance, or a PID to make one for. */
  datatype Item<I> = Item(pid: Pid, proc: Option<I>)

  /** A generator that has started: its own `pmap`, and what is left of `ls`. */
  datatype Gen<I> = Gen(pmap: map<Pid, I>, ls: seq<Item<I>>)

  ghost predicate Increasing<I>(ls: seq<Item<I>>) {
    forall i, j :: 0 <= i < j < |ls| ==> ls[i].pid < ls[j].pid
  }

  /** What the code before the loop makes of the cache, the PIDs flagged as
      reused and a snapshot of the running PIDs. New PIDs are computed from the
      cache as it was before flagged ones are removed. */
  ghost predicate Begins<I>(cached: map<Pid, I>, reused: set<Pid>, snapshot: set<Pid>, gen: Gen<I>) {
    && gen.pmap == cached - (cached.Keys - snapshot) - reused
    && Increasing(gen.ls)
    && (forall i :: 0 <= i < |gen.ls| ==>
          var pid := gen.ls[i].pid;
          match gen.ls[i].proc
          case Some(proc) => pid in gen.pmap && gen.pmap[pid] == proc
          case None => pid in snapshot && pid !in cached)
    && (forall pid :: pid in gen.pmap || (pid in snapshot && pid !in cached) ==> Listed(gen.ls, pid))
  }

  predicate Listed<I>(ls: seq<Item<I>>, pid: Pid) {
    exists i :: 0 <= i < |ls| && ls[i].pid == pid
  }

  /** How the loop body ends for one entry: an instance is made, a cached one is
      yielded, or the process turns out to be gone (NoSuchProcess). */
  datatype Outcome<I> = Made(proc: I) | Kept | Vanished

  predicate Fits<I>(gen: Gen<I>, outcome: Outcome<I>) {
    gen.ls != [] && (outcome.Made? ==> gen.ls[0].proc.None?) && (outcome.Kept? ==> gen.ls[0].proc.Some?)
  }

  function Advance<I>(gen: Gen<I>, outcome: Outcome<I>): Gen<I>
    requires Fits(gen, outcome)
  {
    var pid := gen.ls[0].pid;
    match outcome
    case Made(proc) => Gen(gen.pmap[pid := proc], gen.ls[1..])
    case Kept => Gen(gen.pmap, gen.ls[1..])
    case Vanished => Gen(gen.pmap - {pid}, gen.ls[1..])
  }

  function Yielded<I>(gen: Gen<I>, outcome: Outcome<I>): Option<I>
    requires Fits(gen, outcome)
  {
    match outcome
    case Made(proc) => Some(proc)
    case Kept => gen.ls[0].proc
    case Vanished => None
  }

  // ----- a whole pass

  datatype Pass<I> = Pass(gen: Gen<I>, pids: seq<Pid>, procs: seq<I>)

  ghost predicate AllFit<I>(gen: Gen<I>, outcomes: seq<Outcome<I>>)
    decreases |outcomes|
  {
    outcomes == [] || (Fits(gen, outcomes[0]) && AllFit(Advance(gen, outcomes[0]), outcomes[1..]))
  }

  /** The generator after these turns, and what it has yielded. */
  ghost function Play<I>(gen: Gen<I>, outcomes: seq<Outcome<I>>): Pass<I>
    requires AllFit(gen, outcomes)
    decreases |outcomes|
  {
    if outcomes == [] then Pass(gen, [], [])
    else
      var y := Yielded(gen, outcomes[0]);
      var rest := Play(Advance(gen, outcomes[0]), outcomes[1..]);
      if y.None? then rest
      else Pass(rest.gen, [gen.ls[0].pid] + rest.pids, [y.value] + rest.procs)
  }

  /** An unfinished pass: `ls` is sorted and agrees with its `pmap`. */
  ghost predicate Coherent<I>(gen: Gen<I>) {
    && Increasing(gen.ls)
    && forall i :: 0 <= i < |gen.ls| && gen.ls[i].proc.Some? ==>
         gen.ls[i].pid in gen.pmap && gen.pmap[gen.ls[i].pid] == gen.ls[i].proc.value
  }

  /** Whatever is yielded comes from an entry of `ls`: the cached instance itself
      where there is one. */
  lemma {:induction false} PlayFrom<I>(gen: Gen<I>, outcomes: seq<Outcome<I>>, i: nat)
    requires AllFit(gen, outcomes) && i < |Play(gen, outcomes).pids|
    ensures |Play(gen, outcomes).procs| == |Play(gen, outcomes).pids|
    ensures ComesFrom(gen.ls, Play(gen, outcomes).pids[i], Play(gen, outcomes).procs[i])
    decreases |outcomes|
  {
    var next := Advance(gen, outcomes[0]);
    var rest := Play(next, outcomes[1..]);
    SameLength(next, outcomes[1..]);
    if outcomes[0].Vanished? {
      PlayFrom(next, outcomes[1..], i);
      Later(gen.ls, rest.pids[i], rest.procs[i]);
    } else if i > 0 {
      PlayFrom(next, outcomes[1..], i - 1);
      Later(gen.ls, rest.pids[i - 1], rest.procs[i - 1]);
    } else {
      assert gen.ls[0].pid == Play(gen, outcomes).pids[0];
    }
  }

  lemma {:induction false} SameLength<I>(gen: Gen<I>, outcomes: seq<Outcome<I>>)
    requires AllFit(gen, outcomes)
    ensures |Play(gen, outcomes).procs| == |Play(gen, outcomes).pids|
    decreases |outcomes|
  {
    if outcomes != [] {
      SameLength(Advance(gen, outcomes[0]), outcomes[1..]);
    }
  }

  lemma Later<I>(ls: seq<Item<I>>, pid: Pid, proc: I)
    requires ls != [] && ComesFrom(ls[1..], pid, proc)
    ensures ComesFrom(ls, pid, proc)
    ensures Increasing(ls) ==> ls[0].pid < pid
  {
  }

  lemma {:induction false} PlayIncreasing<I>(gen: Gen<I>, outcomes: seq<Outcome<I>>, i: nat, j: nat)
    requires Increasing(gen.ls) && AllFit(gen, outcomes) && i < j < |Play(gen, outcomes).pids|
    ensures Play(gen, outcomes).pids[i] < Play(gen, outcomes).pids[j]
    decreases |outcomes|
  {
    var next := Advance(gen, outcomes[0]);
    var rest := Play(next, outcomes[1..]);
    SameLength(next, outcomes[1..]);
    if outcomes[0].Vanished? {
      PlayIncreasing(next, outcomes[1..], i, j);
    } else if i > 0 {
      PlayIncreasing(next, outcomes[1..], i - 1, j - 1);
    } else {
      PlayFrom(next, outcomes[1..], j - 1);
      Later(gen.ls, rest.pids[j - 1], rest.procs[j - 1]);
    }
  }

  ghost predicate ComesFrom<I>(ls: seq<Item<I>>, pid: Pid, proc: I) {
    exists k :: 0 <= k < |ls| && ls[k].pid == pid && (ls[k].proc.Some? ==> ls[k].proc.value == proc)
  }

  /** Of a snapshot, a pass yields in PID order: the very same instance for a PID
      that was cached and not flagged, a new one for a PID that was not cached,
      and none for a PID that was cached and flagged. */
  lemma PassYields<I>(cached: map<Pid, I>, reused: set<Pid>, snapshot: set<Pid>, gen: Gen<I>,
                      outcomes: seq<Outcome<I>>, i: nat)
    requires Begins(cached, reused, snapshot, gen) && AllFit(gen, outcomes)
    requires i < |Play(gen, outcomes).pids|
    ensures |Play(gen, outcomes).procs| == |Play(gen, outcomes).pids|
    ensures var p := Play(gen, outcomes);
            && (forall j :: i < j < |p.pids| ==> p.pids[i] < p.pids[j])
            && p.pids[i] in snapshot
            && (p.pids[i] in cached ==> p.pids[i] !in reused && p.procs[i] == cached[p.pids[i]])
  {
    SameLength(gen, outcomes);
    PlayFrom(gen, outcomes, i);
    forall j | i < j < |Play(gen, outcomes).pids|
      ensures Play(gen, outcomes).pids[i] < Play(gen, outcomes).pids[j]
    {
      PlayIncreasing(gen, outcomes, i, j);
    }
  }

  /** A pass run past entry `k` yields it, unless that process turned out to be
      gone, and leaves it in the cache; a cached instance stays the same one. */
  lemma {:induction false} EntryYielded<I>(gen: Gen<I>, outcomes: seq<Outcome<I>>, k: nat)
    requires Coherent(gen) && AllFit(gen, outcomes) && k < |outcomes| && k < |gen.ls|
    requires !outcomes[k].Vanished?
    ensures var p := Play(gen, outcomes);
            && gen.ls[k].pid in p.pids && gen.ls[k].pid in p.gen.pmap
            && (gen.ls[k].proc.Some? ==> p.gen.pmap[gen.ls[k].pid] == gen.ls[k].proc.value)
    decreases |outcomes|
  {
    var next := Advance(gen, outcomes[0]);
    if k > 0 {
      EntryYielded(next, outcomes[1..], k - 1);
    } else {
      StaysCached(next, outcomes[1..], gen.ls[0].pid);
    }
  }

  /** An entry whose process is lost is not yielded, and its PID is forgotten,
      whether its instance was cached or has just been made. */
  lemma {:induction false} LostForgotten<I>(gen: Gen<I>, outcomes: seq<Outcome<I>>, k: nat)
    requires Increasing(gen.ls) && AllFit(gen, outcomes) && k < |outcomes| && k < |gen.ls|
    requires outcomes[k].Vanished?
    ensures gen.ls[k].pid !in Play(gen, outcomes).pids
    ensures gen.ls[k].pid !in Play(gen, outcomes).gen.pmap
    decreases |outcomes|
  {
    var next := Advance(gen, outcomes[0]);
    if k > 0 {
      LostForgotten(next, outcomes[1..], k - 1);
    } else {
      var pid := gen.ls[0].pid;
      forall i | 0 <= i < |next.ls|
        ensures next.ls[i].pid != pid
      {
        assert gen.ls[i + 1].pid != pid;
      }
      StaysCached(next, outcomes[1..], pid);
      NotYielded(next, outcomes[1..], pid);
    }
  }

  lemma NotYielded<I>(gen: Gen<I>, outcomes: seq<Outcome<I>>, pid: Pid)
    requires AllFit(gen, outcomes) && !Listed(gen.ls, pid)
    ensures pid !in Play(gen, outcomes).pids
  {
    forall i | 0 <= i < |Play(gen, outcomes).pids|
      ensures Play(gen, outcomes).pids[i] != pid
    {
      PlayFrom(gen, outcomes, i);
    }
  }

  /** So if the PID is running when the next pass begins, whoever holds it then
      gets a new instance. */
  lemma LostMadeAnew<I>(gen: Gen<I>, outcomes: seq<Outcome<I>>, k: nat, reused': set<Pid>, snapshot': set<Pid>,
                        gen': Gen<I>)
    requires Increasing(gen.ls) && AllFit(gen, outcomes) && k < |outcomes| && k < |gen.ls|
    requires outcomes[k].Vanished? && gen.ls[k].pid in snapshot'
    requires Begins(Play(gen, outcomes).gen.pmap, reused', snapshot', gen')
    ensures exists i :: 0 <= i < |gen'.ls| && gen'.ls[i] == Item(gen.ls[k].pid, None)
  {
    LostForgotten(gen, outcomes, k);
    assert Listed(gen'.ls, gen.ls[k].pid);
  }

  /** A cached PID that is still in the snapshot and not flagged survives: if the
      pass runs to its end and prefetching does not lose the process, the pass
      yields the cached instance itself and leaves it cached. */
  lemma SurvivorYielded<I>(cached: map<Pid, I>, reused: set<Pid>, snapshot: set<Pid>, gen: Gen<I>,
                           outcomes: seq<Outcome<I>>, pid: Pid)
    requires Begins(cached, reused, snapshot, gen) && AllFit(gen, outcomes) && |outcomes| == |gen.ls|
    requires pid in cached && pid in snapshot && pid !in reused
    requires forall k :: 0 <= k < |gen.ls| && gen.ls[k].pid == pid ==> !outcomes[k].Vanished?
    ensures var p := Play(gen, outcomes);
            && |p.procs| == |p.pids|
            && (exists i :: 0 <= i < |p.pids| && p.pids[i] == pid && p.procs[i] == cached[pid])
            && pid in p.gen.pmap && p.gen.pmap[pid] == cached[pid]
  {
    var p := Play(gen, outcomes);
    assert pid in gen.pmap;
    var k :| 0 <= k < |gen.ls| && gen.ls[k].pid == pid;
    EntryYielded(gen, outcomes, k);
    var i :| 0 <= i < |p.pids| && p.pids[i] == pid;
    PassYields(cached, reused, snapshot, gen, outcomes, i);
  }

  /** Turns only touch the cache entries of their own PIDs. */
  lemma {:induction false} StaysCached<I>(gen: Gen<I>, outcomes: seq<Outcome<I>>, pid: Pid)
    requires AllFit(gen, outcomes) && !Listed(gen.ls, pid)
    ensures pid in Play(gen, outcomes).gen.pmap <==> pid in gen.pmap
    ensures pid in gen.pmap ==> Play(gen, outcomes).gen.pmap[pid] == gen.pmap[pid]
    decreases |outcomes|
  {
    if outcomes != [] {
      assert gen.ls[0].pid != pid;
      var next := Advance(gen, outcomes[0]);
      forall i | 0 <= i < |next.ls|
        ensures next.ls[i].pid != pid
      {
        assert gen.ls[i + 1].pid != pid;
      }
      StaysCached(next, outcomes[1..], pid);
    }
  }

  /** A cached PID that was flagged is left out of the pass, and whatever the
      turns were, the next pass makes a new instance for it if it still runs. */
  lemma FreshOnePassLater<I>(cached: map<Pid, I>, reused: set<Pid>, snapshot: set<Pid>, gen: Gen<I>,
                             outcomes: seq<Outcome<I>>, reused': set<Pid>, snapshot': set<Pid>, gen': Gen<I>,
                             pid: Pid)
    requires Begins(cached, reused, snapshot, gen) && AllFit(gen, outcomes)
    requires Begins(Play(gen, outcomes).gen.pmap, reused', snapshot', gen')
    requires pid in cached && pid in reused && pid in snapshot'
    ensures pid !in Play(gen, outcomes).pids
    ensures exists i :: 0 <= i < |gen'.ls| && gen'.ls[i] == Item(pid, None)
  {
    var p := Play(gen, outcomes);
    forall i | 0 <= i < |p.pids|
      ensures p.pids[i] != pid
    {
      SameLength(gen, outcomes);
      PlayFrom(gen, outcomes, i);
    }
    StaysCached(gen, outcomes, pid);
    assert Listed(gen'.ls, pid);
  }
}

/** `process_iter` on the objects it works with. */
module ProcessIter {
  import opened Wrappers
  import opened Kernel
  import opened Identity
  import opened PassSpec

  /** `sorted()` of a set of PIDs. */
  method Sorted(pids: set<Pid>) returns (q: seq<Pid>)
    ensures forall i, j :: 0 <= i < j < |q| ==> q[i] < q[j]
    ensures forall p :: p in q <==> p in pids
  {
    q := [];
    var todo := pids;
    while todo != {}
      invariant todo <= pids
      invariant forall i, j :: 0 <= i < j < |q| ==> q[i] < q[j]
      invariant forall p :: p in q <==> p in pids - todo
      invariant forall p, r :: p in q && r in todo ==> p < r
      decreases todo
    {
      var least :| least in todo;
      var rest := todo - {least};
      while rest != {}
        invariant least in todo && rest <= todo
        invariant forall r :: r in todo && r !in rest ==> least <= r
        decreases rest
      {
        var r :| r in rest;
        if r < least {
          least := r;
        }
        rest := rest - {r};
      }
      assert forall r :: r in todo - {least} ==> least < r;
      assert forall i :: 0 <= i < |q| ==> q[i] in q;
      q := q + [least];
      todo := todo - {least};
    }
  }

  class Iteration {
    const g: Globals
    var pmap: map<Pid, Process>
    var ls: seq<Item<Process>>

    ghost function Value(): Gen<Process>
      reads this
    {
      Gen(pmap, ls)
    }

    /** Everything up to the loop. */
    constructor (g: Globals, snapshot: set<Pid>)
      modifies g`pidsReused
      ensures this.g == g
      ensures Begins(g.pmap, old(g.pidsReused), snapshot, Value())
      ensures g.pidsReused == {}
    {
      var pm := g.pmap;
      var newPids, gonePids := snapshot - pm.Keys, pm.Keys - snapshot;
      pm := pm - gonePids;
      var flagged := g.pidsReused;
      ghost var before := pm;
      while flagged != {}
        invariant flagged <= g.pidsReused
        invariant pm == before - (g.pidsReused - flagged)
        decreases flagged
      {
        var pid :| pid in flagged;
        flagged := flagged - {pid};
        pm := pm - {pid};
      }
      var pids := Sorted(pm.Keys + newPids);
      this.g := g;
      pmap := pm;
      ls := seq(|pids|, i requires 0 <= i < |pids| => Item(pids[i], if pids[i] in pm then Some(pm[pids[i]]) else None));
      new;
      forall pid | pid in pids
        ensures Listed(ls, pid)
      {
        var i :| 0 <= i < |pids| && pids[i] == pid;
        assert ls[i].pid == pid;
      }
      g.pidsReused := {};
    }

    /** One turn of the loop. `lost` says that prefetching the attributes raised
        NoSuchProcess. */
    method Step(t: Table, lost: bool) returns (proc: Option<Process>, ghost outcome: Outcome<Process>)
      requires ls != []
      modifies this
      ensures Fits(old(Value()), outcome)
      ensures Value() == Advance(old(Value()), outcome) && proc == Yielded(old(Value()), outcome)
      ensures outcome.Made? ==>
                fresh(outcome.proc) && outcome.proc.pid == old(ls[0].pid)
                && Open(t, old(ls[0].pid), false) == Ok(outcome.proc.Value())
      ensures outcome.Vanished? <==>
                lost || (old(ls[0].proc.None?) && (old(ls[0].pid) !in t || old(ls[0].pid) > MAX_PID))
    {
      var item := ls[0];
      ls := ls[1..];
      proc := item.proc;
      outcome := Kept;
      if proc.None? {
        var result := Open(t, item.pid, false);
        if result.Err? {
          pmap := pmap - {item.pid};
          return None, Vanished;
        }
        var made := new Process(result.value);
        pmap := pmap[item.pid := made];
        proc, outcome := Some(made), Made(made);
      }
      if lost {
        pmap := pmap - {item.pid};
        proc, outcome := None, Vanished;
      }
    }

    /** The `finally` clause: on exhaustion, on `close()` and on any exception. */
    method Finish()
      modifies g`pmap
      ensures g.pmap == pmap
    {
      g.pmap := pmap;
    }
  }
}

/** Every run of passes, with instances being flagged, made and the cache being
    cleared in between. Instances are numbered in the order they are made. */
module PassRuns {
  import opened Wrappers
  import opened PassSpec

  type Id = nat

  /** `pids[x]` is the PID of instance `x`; `flagged` are the instances whose
      `_pid_reused` is set; `gens` are the generators that have started and not
      finished; `issued` is everything ever yielded. */
  datatype World = World(
    pmap: map<Pid, Id>, reused: set<Pid>, pids: seq<Pid>, flagged: set<Id>,
    gens: map<nat, Gen<Id>>, issued: seq<Id>)

  const START := World(map[], {}, [], {}, map[], [])

  datatype Event =
    | MakeHandle(pid: Pid)
    | Flag(x: Id)
    | ClearCache
    | Begin(g: nat, snapshot: set<Pid>, gen: Gen<Id>)
    | Turn(g: nat, outcome: Outcome<Id>)
    | Finish(g: nat)

  /** `pids()` never comes back empty: it would raise IndexError. */
  ghost predicate Enabled(w: World, e: Event) {
    match e
    case MakeHandle(_) => true
    case Flag(x) => x < |w.pids| && x !in w.flagged
    case ClearCache => true
    case Begin(g, snapshot, gen) => g !in w.gens && snapshot != {} && Begins(w.pmap, w.reused, snapshot, gen)
    case Turn(g, outcome) =>
      g in w.gens && Fits(w.gens[g], outcome) && (outcome.Made? ==> outcome.proc == |w.pids|)
    case Finish(g) => g in w.gens
  }

  ghost function Step(w: World, e: Event): World
    requires Enabled(w, e)
  {
    match e
    case MakeHandle(pid) => w.(pids := w.pids + [pid])
    case Flag(x) => w.(flagged := w.flagged + {x}, reused := w.reused + {w.pids[x]})
    case ClearCache => w.(pmap := map[])
    case Begin(g, snapshot, gen) => w.(gens := w.gens[g := gen], reused := {})
    case Turn(g, outcome) =>
      var gen := w.gens[g];
      var y := Yielded(gen, outcome);
      w.(gens := w.gens[g := Advance(gen, outcome)],
         pids := if outcome.Made? then w.pids + [gen.ls[0].pid] else w.pids,
         issued := if y.Some? then w.issued + [y.value] else w.issued)
    case Finish(g) => w.(pmap := w.gens[g].pmap, gens := w.gens - {g})
  }

  /** A run; unless `overlap` is set, no generator begins before the previous one
      has finished. */
  ghost predicate Runs(w: World, es: seq<Event>, overlap: bool, w': World)
    decreases |es|
  {
    if es == [] then w' == w
    else
      && Enabled(w, es[0])
      && (es[0].Begin? && !overlap ==> w.gens == map[])
      && Runs(Step(w, es[0]), es[1..], overlap, w')
  }

  /** The instances of a cache exist and sit under their own PID. */
  ghost predicate OwnPid(w: World, cache: map<Pid, Id>) {
    forall pid :: pid in cache ==> cache[pid] < |w.pids| && w.pids[cache[pid]] == pid
  }

  /** A generator's cache is fine, and so are the entries still to come. */
  ghost predicate GenOk(w: World, gen: Gen<Id>) {
    && OwnPid(w, gen.pmap)
    && Increasing(gen.ls)
    && (forall i :: 0 <= i < |gen.ls| ==>
          var pid := gen.ls[i].pid;
          match gen.ls[i].proc
          case Some(x) => pid in gen.pmap && gen.pmap[pid] == x
          case None => pid !in gen.pmap)
  }

  /** What every run keeps, overlapping or not. */
  ghost predicate Inv(w: World) {
    && OwnPid(w, w.pmap)
    && forall g :: g in w.gens ==> GenOk(w, w.gens[g])
  }

  lemma BeginKeeps(w: World, snapshot: set<Pid>, gen: Gen<Id>)
    requires OwnPid(w, w.pmap) && Begins(w.pmap, w.reused, snapshot, gen)
    ensures GenOk(w, gen)
  {
  }

  lemma TurnKeeps(w: World, w': World, gen: Gen<Id>, outcome: Outcome<Id>)
    requires GenOk(w, gen) && Fits(gen, outcome)
    requires w'.pids == if outcome.Made? then w.pids + [gen.ls[0].pid] else w.pids
    requires outcome.Made? ==> outcome.proc == |w.pids|
    ensures GenOk(w', Advance(gen, outcome))
  {
  }

  /** More instances, and nothing else that matters to a generator. */
  lemma GenStays(w: World, w': World, gen: Gen<Id>)
    requires GenOk(w, gen) && w.pids <= w'.pids
    ensures GenOk(w', gen)
  {
  }

  lemma StepKeeps(w: World, e: Event)
    requires Inv(w) && Enabled(w, e)
    ensures Inv(Step(w, e))
  {
    hide GenOk, Begins;
    var w' := Step(w, e);
    forall g | g in w'.gens
      ensures GenOk(w', w'.gens[g])
    {
      if e.Begin? && g == e.g {
        BeginKeeps(w, e.snapshot, e.gen);
        GenStays(w, w', e.gen);
      } else if e.Turn? && g == e.g {
        TurnKeeps(w, w', w.gens[g], e.outcome);
      } else {
        GenStays(w, w', w.gens[g]);
      }
    }
    if e.Finish? {
      GenCache(w, w.gens[e.g]);
    }
  }

  lemma GenCache(w: World, gen: Gen<Id>)
    requires GenOk(w, gen)
    ensures OwnPid(w, gen.pmap)
  {
  }

  lemma {:induction false} RunKeeps(w: World, es: seq<Event>, overlap: bool, w': World)
    requires Inv(w) && Runs(w, es, overlap, w')
    ensures Inv(w')
    decreases |es|
  {
    hide Inv;
    if es != [] {
      StepKeeps(w, es[0]);
      RunKeeps(Step(w, es[0]), es[1..], overlap, w');
    }
  }

  /** In every run, overlapping or not, the cache and every generator's own cache
      hold each instance under its own PID, at all times. */
  lemma CacheAlwaysOk(es: seq<Event>, overlap: bool, w: World)
    requires Runs(START, es, overlap, w)
    ensures OwnPid(w, w.pmap) && forall g :: g in w.gens ==> OwnPid(w, w.gens[g].pmap)
  {
    RunKeeps(START, es, overlap, w);
  }

  // ----- which instances can come out of `process_iter` again

  /** Some continuation of the run yields instance `x`. */
  ghost predicate CanYield(w: World, x: Id, overlap: bool) {
    exists es, w' :: Runs(w, es, overlap, w') && YieldedSince(w, w', x)
  }

  ghost predicate YieldedSince(w: World, w': World, x: Id) {
    |w.issued| <= |w'.issued| && x in w'.issued[|w.issued|..]
  }

  /** `x` is in the cache, or a generator that has started still knows it. */
  ghost predicate Held(w: World, x: Id) {
    (exists pid :: pid in w.pmap && w.pmap[pid] == x) || exists g :: g in w.gens && !Absent(w.gens[g], x)
  }

  ghost predicate Absent(gen: Gen<Id>, x: Id) {
    && (forall pid :: pid in gen.pmap ==> gen.pmap[pid] != x)
    && (forall i :: 0 <= i < |gen.ls| ==> gen.ls[i].proc != Some(x))
  }

  /** `x` exists and no non-overlapping pass can yield it: no generator knows it,
      and between passes it is either not cached or due for removal. */
  ghost predicate Retired(w: World, x: Id) {
    && x < |w.pids|
    && (forall g :: g in w.gens ==> Absent(w.gens[g], x))
    && (w.gens == map[] ==> forall pid :: pid in w.pmap && w.pmap[pid] == x ==> pid in w.reused)
  }

  /** No event makes an instance out of reach come back, nor yields it. */
  lemma OutOfReachStep(w: World, e: Event, x: Id, overlap: bool)
    requires Enabled(w, e) && x < |w.pids| && (e.Begin? && !overlap ==> w.gens == map[])
    requires if overlap then !Held(w, x) else Retired(w, x)
    ensures if overlap then !Held(Step(w, e), x) else Retired(Step(w, e), x)
    ensures x < |Step(w, e).pids| && w.issued <= Step(w, e).issued && !YieldedSince(w, Step(w, e), x)
  {
    var w' := Step(w, e);
    forall g | g in w'.gens
      ensures Absent(w'.gens[g], x)
    {
      if e.Turn? && g == e.g {
        TurnAbsent(w.gens[g], e.outcome, x);
      } else if !(e.Begin? && g == e.g) {
        assert Absent(w.gens[g], x);
      }
    }
    if e.Turn? {
      TurnAbsent(w.gens[e.g], e.outcome, x);
    } else if e.Finish? {
      assert Absent(w.gens[e.g], x);
    }
  }

  lemma TurnAbsent(gen: Gen<Id>, outcome: Outcome<Id>, x: Id)
    requires Absent(gen, x) && Fits(gen, outcome) && outcome != Made(x)
    ensures Absent(Advance(gen, outcome), x) && Yielded(gen, outcome) != Some(x)
  {
  }

  lemma {:induction false} OutOfReach(w: World, es: seq<Event>, overlap: bool, w': World, x: Id)
    requires Runs(w, es, overlap, w') && x < |w.pids|
    requires if overlap then !Held(w, x) else Retired(w, x)
    ensures w.issued <= w'.issued && !YieldedSince(w, w', x)
    decreases |es|
  {
    hide Held, Retired;
    if es != [] {
      var next := Step(w, es[0]);
      OutOfReachStep(w, es[0], x, overlap);
      OutOfReach(next, es[1..], overlap, w', x);
      assert w'.issued[|w.issued|..] == next.issued[|w.issued|..] + w'.issued[|next.issued|..];
    }
  }

  lemma YieldLater(w: World, e: Event, x: Id, overlap: bool)
    requires Enabled(w, e) && (e.Begin? && !overlap ==> w.gens == map[])
    requires CanYield(Step(w, e), x, overlap)
    ensures CanYield(w, x, overlap)
  {
    var next := Step(w, e);
    var es, w' :| Runs(next, es, overlap, w') && YieldedSince(next, w', x);
    assert ([e] + es)[1..] == es;
    assert Runs(w, [e] + es, overlap, w');
    var i :| 0 <= i < |w'.issued[|next.issued|..]| && w'.issued[|next.issued|..][i] == x;
    assert w'.issued[|w.issued|..][|next.issued| - |w.issued| + i] == x;
  }

  /** A cached instance that is not due for removal is yielded by the next pass
      over a snapshot of its PID. */
  lemma YieldCached(w: World, g: nat, pid: Pid, overlap: bool)
    requires pid in w.pmap && pid !in w.reused && g !in w.gens && (overlap || w.gens == map[])
    ensures CanYield(w, w.pmap[pid], overlap)
  {
    var x := w.pmap[pid];
    var gen := Gen(map[pid := x], [Item(pid, Some(x))]);
    assert Listed(gen.ls, pid) by {
      assert gen.ls[0].pid == pid;
    }
    assert w.pmap - (w.pmap.Keys - {pid}) - w.reused == gen.pmap;
    var w1 := Step(w, Begin(g, {pid}, gen));
    var w2 := Step(w1, Turn(g, Kept));
    assert Runs(w2, [], overlap, w2) && Runs(w1, [Turn(g, Kept)], overlap, w2) by {
      assert [Turn(g, Kept)][1..] == [];
    }
    assert w2.issued[|w1.issued|..] == [x];
    assert YieldedSince(w1, w2, x);
    YieldLater(w, Begin(g, {pid}, gen), x, overlap);
  }

  /** One that is due for removal takes a second pass, begun while the first one,
      which has done the removing, is under way. */
  lemma YieldDue(w: World, pid: Pid)
    requires pid in w.pmap
    ensures CanYield(w, w.pmap[pid], true)
  {
    var g := FreshGen(w.gens.Keys);
    if pid !in w.reused {
      YieldCached(w, g, pid, true);
      return;
    }
    var empty: Gen<Id> := Gen(map[], []);
    assert w.pmap - (w.pmap.Keys - {pid}) - w.reused == map[];
    assert Begins(w.pmap, w.reused, {pid}, empty);
    var w1 := Step(w, Begin(g, {pid}, empty));
    var g1 := FreshGen(w1.gens.Keys);
    YieldCached(w1, g1, pid, true);
    YieldLater(w, Begin(g, {pid}, empty), w.pmap[pid], true);
  }

  /** A number no generator has. */
  lemma {:induction false} FreshGen(gens: set<nat>) returns (g: nat)
    ensures g !in gens && forall n :: n in gens ==> n < g
    decreases gens
  {
    g := 0;
    if gens != {} {
      var n :| n in gens;
      g := FreshGen(gens - {n});
      g := if g <= n then n + 1 else g;
      assert forall m :: m in gens ==> m == n || m in gens - {n};
    }
  }

  /** Whatever the generators do, an instance can be yielded again exactly when
      it is cached or known to a generator that has started, flagged or not. */
  lemma OverlappingExactly(es: seq<Event>, w: World, x: Id)
    requires Runs(START, es, true, w) && x < |w.pids|
    ensures CanYield(w, x, true) <==> Held(w, x)
  {
    if !Held(w, x) {
      forall es', w' | Runs(w, es', true, w')
        ensures !YieldedSince(w, w', x)
      {
        OutOfReach(w, es', true, w', x);
      }
    } else if exists pid :: pid in w.pmap && w.pmap[pid] == x {
      var pid :| pid in w.pmap && w.pmap[pid] == x;
      YieldDue(w, pid);
    } else {
      RunKeeps(START, es, true, w);
      var g :| g in w.gens && !Absent(w.gens[g], x);
      var w1 := Step(w, Finish(g));
      var pid := StillCached(w, w.gens[g], x);
      YieldDue(w1, pid);
      YieldLater(w, Finish(g), x, true);
    }
  }

  lemma StillCached(w: World, gen: Gen<Id>, x: Id) returns (pid: Pid)
    requires GenOk(w, gen) && !Absent(gen, x)
    ensures pid in gen.pmap && gen.pmap[pid] == x
  {
    if exists i :: 0 <= i < |gen.ls| && gen.ls[i].proc == Some(x) {
      var i :| 0 <= i < |gen.ls| && gen.ls[i].proc == Some(x);
      pid := gen.ls[i].pid;
    } else {
      pid :| pid in gen.pmap && gen.pmap[pid] == x;
    }
  }

  /** With passes that do not overlap, an instance can be yielded by a later pass
      exactly when it is cached and its PID is not due for removal. */
  lemma SequentialExactly(es: seq<Event>, w: World, x: Id)
    requires Runs(START, es, false, w) && w.gens == map[] && x < |w.pids|
    ensures CanYield(w, x, false) <==> w.pids[x] in w.pmap && w.pmap[w.pids[x]] == x && w.pids[x] !in w.reused
  {
    RunKeeps(START, es, false, w);
    if w.pids[x] in w.pmap && w.pmap[w.pids[x]] == x && w.pids[x] !in w.reused {
      YieldCached(w, 0, w.pids[x], false);
    } else {
      forall es', w' | Runs(w, es', false, w')
        ensures !YieldedSince(w, w', x)
      {
        OutOfReach(w, es', false, w', x);
      }
    }
  }

  // ----- flagged instances

  /** A cached instance that is flagged is due for removal, in the cache and in
      the cache of the one generator under way. */
  ghost predicate DueOk(w: World) {
    && (forall x :: x in w.flagged ==> x < |w.pids|)
    && (w.gens == map[] ==> Due(w, w.pmap))
    && (forall g :: g in w.gens ==> Due(w, w.gens[g].pmap))
    && (forall g, g' :: g in w.gens && g' in w.gens ==> g == g')
  }

  ghost predicate Due(w: World, cache: map<Pid, Id>) {
    forall pid :: pid in cache && cache[pid] in w.flagged ==> pid in w.reused
  }

  lemma DueStep(w: World, e: Event)
    requires Inv(w) && DueOk(w) && Enabled(w, e) && (e.Begin? ==> w.gens == map[])
    ensures DueOk(Step(w, e))
  {
    var w' := Step(w, e);
    forall g | g in w'.gens
      ensures Due(w', w'.gens[g].pmap)
    {
      if e.Begin? {
        assert Due(w, w.pmap);
      } else {
        assert Due(w, w.gens[g].pmap) && GenOk(w, w.gens[g]);
      }
    }
    if e.Finish? {
      assert w.gens - {e.g} == map[] && Due(w, w.gens[e.g].pmap);
    }
  }

  lemma {:induction false} DueAlways(w: World, es: seq<Event>, w': World)
    requires Inv(w) && DueOk(w) && Runs(w, es, false, w')
    ensures Inv(w') && DueOk(w')
    decreases |es|
  {
    hide Inv, DueOk;
    if es != [] {
      DueStep(w, es[0]);
      StepKeeps(w, es[0]);
      DueAlways(Step(w, es[0]), es[1..], w');
    }
  }

  /** An instance that is flagged when no pass is under way is yielded by no
      later pass, however the run goes on without overlapping. */
  lemma FlaggedNeverYieldedAgain(es: seq<Event>, w: World, es': seq<Event>, w': World, x: Id)
    requires Runs(START, es, false, w) && w.gens == map[] && x in w.flagged
    requires Runs(w, es', false, w')
    ensures w.issued <= w'.issued && x !in w'.issued[|w.issued|..]
  {
    DueAlways(START, es, w);
    OutOfReach(w, es', false, w', x);
  }

  /** A cached instance whose process a pass has lost is yielded by no turn from
      then on, however the run goes on without overlapping. */
  lemma LostNeverYieldedAgain(es: seq<Event>, w: World, g: nat, x: Id, es': seq<Event>, w': World)
    requires Runs(START, es, false, w) && g in w.gens && w.gens[g].ls != [] && w.gens[g].ls[0].proc == Some(x)
    requires Runs(Step(w, Turn(g, Vanished)), es', false, w')
    ensures w.issued <= w'.issued && x !in w'.issued[|w.issued|..]
  {
    DueAlways(START, es, w);
    var gen, next := w.gens[g], Step(w, Turn(g, Vanished));
    assert GenOk(w, gen);
    LostAbsent(w, gen, x);
    assert forall g' :: g' in next.gens ==> g' == g;
    assert next.gens[g] == Advance(gen, Vanished);
    OutOfReach(next, es', false, w', x);
  }

  lemma LostAbsent(w: World, gen: Gen<Id>, x: Id)
    requires GenOk(w, gen) && gen.ls != [] && gen.ls[0].proc == Some(x)
    ensures x < |w.pids| && Absent(Advance(gen, Vanished), x)
  {
    var next := Advance(gen, Vanished);
    assert w.pids[x] == gen.ls[0].pid;
    forall i | 0 <= i < |next.ls|
      ensures next.ls[i].proc != Some(x)
    {
      assert next.ls[i] == gen.ls[i + 1] && gen.ls[0].pid < gen.ls[i + 1].pid;
    }
  }

  /** With overlapping generators it can come back: after one pass over PID 5 and
      the flagging of the instance it made. */
  lemma OverlapBringsItBack() returns (es: seq<Event>, w: World)
    ensures Runs(START, es, false, w) && w.gens == map[] && 0 in w.flagged
    ensures !CanYield(w, 0, false) && CanYield(w, 0, true)
  {
    hide CanYield, Runs;
    var made := Gen(map[], [Item(5, None)]);
    assert Listed(made.ls, 5) by {
      assert made.ls[0].pid == 5;
    }
    var w1 := Step(START, Begin(1, {5}, made));
    var w2 := Step(w1, Turn(1, Made(0)));
    var w3 := Step(w2, Finish(1));
    w := Step(w3, Flag(0));
    Nothing(w);
    Then(w3, Flag(0), [], w);
    assert [Flag(0)] + [] == [Flag(0)];
    Then(w2, Finish(1), [Flag(0)], w);
    Then(w1, Turn(1, Made(0)), [Finish(1)] + [Flag(0)], w);
    Then(START, Begin(1, {5}, made), [Turn(1, Made(0))] + ([Finish(1)] + [Flag(0)]), w);
    es := [Begin(1, {5}, made)] + ([Turn(1, Made(0))] + ([Finish(1)] + [Flag(0)]));
    SequentialExactly(es, w, 0);
    assert w.pmap[5] == 0 && 5 in w.reused;
    YieldDue(w, 5);
  }

  lemma Nothing(w: World)
    ensures Runs(w, [], false, w)
  {
  }

  lemma Then(w: World, e: Event, es: seq<Event>, w': World)
    requires Enabled(w, e) && (e.Begin? ==> w.gens == map[]) && Runs(Step(w, e), es, false, w')
    ensures Runs(w, [e] + es, false, w')
  {
    assert ([e] + es)[1..] == es;
  }
}
