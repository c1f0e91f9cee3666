/** Handles and `process_iter` in one world: the runs of `IdentityRuns` and of
    `PassRuns` side by side, on the same Process instances. */
module ReuseRuns {
  import opened Wrappers
  import opened Kernel
  import opened Identity
  import opened PassSpec
  import I = IdentityRuns
  import P = PassRuns

  /** Handle `x` of `id` is instance `x` of `it`. */
  datatype World = World(id: I.World, it: P.World)

  const BOOT := World(I.BOOT, P.START)

  /** What the kernel and the users of handles do; `process_iter.cache_clear()`;
      and a generator starting, taking one turn (`lost` says that prefetching
      raises NoSuchProcess) and finishing. */
  datatype Event =
    | Direct(e: I.Event)
    | ClearCache
    | Begin(g: nat, gen: Gen<nat>)
    | Turn(g: nat, lost: bool)
    | Finish(g: nat)

  /** A generator starts from the PIDs running at that moment. */
  ghost predicate Enabled(w: World, e: Event) {
    match e
    case Direct(e) => I.Enabled(w.id, e)
    case ClearCache => true
    case Begin(g, gen) => P.Enabled(w.it, P.Begin(g, w.id.table.Keys, gen))
    case Turn(g, _) => g in w.it.gens && w.it.gens[g].ls != []
    case Finish(g) => g in w.it.gens
  }

  /** The event has set `_pid_reused` of handle `x`. */
  ghost predicate Detects(w: I.World, e: I.Event, x: nat)
    requires I.Enabled(w, e)
  {
    x < |w.handles| && !w.handles[x].pidReused
    && (e == I.AskRunning(x) || e == I.Send(x)) && I.Step(w, e).handles[x].pidReused
  }

  /** What an event of `IdentityRuns` is to `process_iter`. */
  ghost function Effects(w: I.World, e: I.Event): seq<P.Event>
    requires I.Enabled(w, e)
  {
    match e
    case Construct(pid) => if Open(w.table, pid, false).Ok? then [P.MakeHandle(pid)] else []
    case AskRunning(x) => if Detects(w, e, x) then [P.Flag(x)] else []
    case Send(x) => if Detects(w, e, x) then [P.Flag(x)] else []
    case _ => []
  }

  /** What one turn of a generator is to `process_iter`, and to the handles: an
      entry without an instance makes one. */
  ghost function TurnEffects(w: World, g: nat, lost: bool): (seq<I.Event>, seq<P.Event>)
    requires Enabled(w, Turn(g, lost))
  {
    var item := w.it.gens[g].ls[0];
    if item.proc.Some? then ([], [P.Turn(g, if lost then Vanished else Kept)])
    else if item.pid !in w.id.table || item.pid > MAX_PID then ([], [P.Turn(g, Vanished)])
    else if lost then ([I.Construct(item.pid)], [P.MakeHandle(item.pid), P.Turn(g, Vanished)])
    else ([I.Construct(item.pid)], [P.Turn(g, Made(|w.it.pids|))])
  }

  ghost function IdEvents(w: World, e: Event): seq<I.Event>
    requires Enabled(w, e)
  {
    match e
    case Direct(e) => [e]
    case Turn(g, lost) => TurnEffects(w, g, lost).0
    case _ => []
  }

  ghost function ItEvents(w: World, e: Event): seq<P.Event>
    requires Enabled(w, e)
  {
    match e
    case Direct(e) => Effects(w.id, e)
    case ClearCache => [P.ClearCache]
    case Begin(g, gen) => [P.Begin(g, w.id.table.Keys, gen)]
    case Turn(g, lost) => TurnEffects(w, g, lost).1
    case Finish(g) => [P.Finish(g)]
  }

  /** The event takes both worlds one or more of their own steps further. */
  ghost predicate Next(w: World, e: Event, overlap: bool, w': World) {
    && Enabled(w, e)
    && I.Runs(w.id, IdEvents(w, e), w'.id)
    && P.Runs(w.it, ItEvents(w, e), overlap, w'.it)
  }

  ghost predicate Runs(w: World, es: seq<Event>, overlap: bool, w': World)
    decreases |es|
  {
    if es == [] then w' == w
    else exists next :: Next(w, es[0], overlap, next) && Runs(next, es[1..], overlap, w')
  }

  /** Both worlds talk about the same instances, and agree on which are flagged. */
  ghost predicate Coupled(w: World) {
    && |w.id.handles| == |w.it.pids|
    && (forall x: nat :: x < |w.it.pids| ==> w.it.pids[x] == w.id.handles[x].ident.pid)
    && (forall x: nat :: x in w.it.flagged <==> x < |w.id.handles| && w.id.handles[x].pidReused)
  }

  // ----- single steps

  lemma OneId(w: I.World, e: I.Event, w': I.World)
    requires I.Runs(w, [e], w')
    ensures I.Enabled(w, e) && w' == I.Step(w, e)
  {
    assert [e][1..] == [];
  }

  lemma OneIt(w: P.World, e: P.Event, overlap: bool, w': P.World)
    requires P.Runs(w, [e], overlap, w')
    ensures P.Enabled(w, e) && w' == P.Step(w, e) && (e.Begin? && !overlap ==> w.gens == map[])
  {
    assert [e][1..] == [];
  }

  lemma TwoIt(w: P.World, e: P.Event, f: P.Event, overlap: bool, w': P.World)
    requires P.Runs(w, [e, f], overlap, w')
    ensures P.Enabled(w, e) && P.Enabled(P.Step(w, e), f) && w' == P.Step(P.Step(w, e), f)
  {
    assert [e, f][1..] == [f];
    OneIt(P.Step(w, e), f, overlap, w');
  }

  lemma {:induction false} IdAppend(w: I.World, a: seq<I.Event>, w1: I.World, b: seq<I.Event>, w2: I.World)
    requires I.Runs(w, a, w1) && I.Runs(w1, b, w2)
    ensures I.Runs(w, a + b, w2)
    decreases |a|
  {
    hide I.Enabled, I.Step;
    if a == [] {
      assert a + b == b;
    } else {
      assert (a + b)[1..] == a[1..] + b;
      IdAppend(I.Step(w, a[0]), a[1..], w1, b, w2);
    }
  }

  lemma {:induction false} ItAppend(w: P.World, a: seq<P.Event>, overlap: bool, w1: P.World, b: seq<P.Event>,
                                   w2: P.World)
    requires P.Runs(w, a, overlap, w1) && P.Runs(w1, b, overlap, w2)
    ensures P.Runs(w, a + b, overlap, w2)
    decreases |a|
  {
    hide P.Enabled, P.Step;
    if a == [] {
      assert a + b == b;
    } else {
      assert (a + b)[1..] == a[1..] + b;
      ItAppend(P.Step(w, a[0]), a[1..], overlap, w1, b, w2);
    }
  }

  // ----- what every run keeps

  lemma DirectKeeps(w: World, e: I.Event, overlap: bool, w': World)
    requires Coupled(w) && Next(w, Direct(e), overlap, w')
    ensures Coupled(w')
  {
    OneId(w.id, e, w'.id);
    if Effects(w.id, e) == [] {
      assert w'.it == w.it;
    } else {
      OneIt(w.it, Effects(w.id, e)[0], overlap, w'.it);
    }
  }

  lemma TurnKeeps(w: World, g: nat, lost: bool, overlap: bool, w': World)
    requires Coupled(w) && Next(w, Turn(g, lost), overlap, w')
    ensures Coupled(w')
  {
    var (ids, its) := TurnEffects(w, g, lost);
    if ids == [] {
      assert w'.id == w.id;
    } else {
      OneId(w.id, ids[0], w'.id);
    }
    if |its| == 1 {
      OneIt(w.it, its[0], overlap, w'.it);
    } else {
      TwoIt(w.it, its[0], its[1], overlap, w'.it);
    }
  }

  lemma NextKeeps(w: World, e: Event, overlap: bool, w': World)
    requires Coupled(w) && Next(w, e, overlap, w')
    ensures Coupled(w')
  {
    match e {
      case Direct(f) => DirectKeeps(w, f, overlap, w');
      case Turn(g, lost) => TurnKeeps(w, g, lost, overlap, w');
      case _ => OneIt(w.it, ItEvents(w, e)[0], overlap, w'.it);
    }
  }

  /** Every run of the two together is a run of each of them. */
  lemma {:induction false} Projects(w: World, es: seq<Event>, overlap: bool, w': World)
    returns (ids: seq<I.Event>, its: seq<P.Event>)
    requires Coupled(w) && Runs(w, es, overlap, w')
    ensures Coupled(w') && I.Runs(w.id, ids, w'.id) && P.Runs(w.it, its, overlap, w'.it)
    decreases |es|
  {
    hide Coupled, I.Runs, P.Runs;
    if es == [] {
      NoId(w.id);
      NoIt(w.it, overlap);
      ids, its := [], [];
    } else {
      var next :| Next(w, es[0], overlap, next) && Runs(next, es[1..], overlap, w');
      NextKeeps(w, es[0], overlap, next);
      ids, its := Projects(next, es[1..], overlap, w');
      IdAppend(w.id, IdEvents(w, es[0]), next.id, ids, w'.id);
      ItAppend(w.it, ItEvents(w, es[0]), overlap, next.it, its, w'.it);
      ids, its := IdEvents(w, es[0]) + ids, ItEvents(w, es[0]) + its;
    }
  }

  lemma NoId(w: I.World)
    ensures I.Runs(w, [], w)
  {
  }

  lemma NoIt(w: P.World, overlap: bool)
    ensures P.Runs(w, [], overlap, w)
  {
  }

  lemma Reached(es: seq<Event>, overlap: bool, w: World)
    requires Runs(BOOT, es, overlap, w)
    ensures Coupled(w) && I.Reachable(w.id) && exists its :: P.Runs(P.START, its, overlap, w.it)
  {
    var ids, its := Projects(BOOT, es, overlap, w);
  }

  /** Whatever is enabled can happen: nothing in one world stands in the way of
      the other. */
  lemma Possible(w: World, e: Event, overlap: bool) returns (w': World)
    requires Coupled(w) && Enabled(w, e) && (e.Begin? && !overlap ==> w.it.gens == map[])
    ensures Next(w, e, overlap, w')
  {
    var ids, its := IdEvents(w, e), ItEvents(w, e);
    var id, it := w.id, w.it;
    NoId(w.id);
    NoIt(w.it, overlap);
    if ids != [] {
      id := I.Step(w.id, ids[0]);
      NoId(id);
      assert ids[1..] == [];
    }
    if |its| == 1 {
      it := P.Step(w.it, its[0]);
      NoIt(it, overlap);
      assert its[1..] == [];
    } else if its != [] {
      var mid := P.Step(w.it, its[0]);
      it := P.Step(mid, its[1]);
      NoIt(it, overlap);
      assert its[1..] == [its[1]] && its[1..][1..] == [];
      assert P.Runs(mid, its[1..], overlap, it);
    }
    w' := World(id, it);
  }

  lemma {:induction false} RunsThen(w: World, es: seq<Event>, overlap: bool, w': World, e: Event, w'': World)
    requires Runs(w, es, overlap, w') && Next(w', e, overlap, w'')
    ensures Runs(w, es + [e], overlap, w'')
    decreases |es|
  {
    hide Next;
    if es == [] {
      assert es + [e] == [e] && [e][1..] == [];
      assert Runs(w'', [e][1..], overlap, w'');
    } else {
      var next :| Next(w, es[0], overlap, next) && Runs(next, es[1..], overlap, w');
      RunsThen(next, es[1..], overlap, w', e, w'');
      assert (es + [e])[1..] == es[1..] + [e];
    }
  }

  // ----- from detection to the fresh instance

  /** `is_running` sets `_pid_reused` exactly when another process holds the PID
      and creation times can tell. */
  lemma DetectsExactly(w: I.World, x: nat)
    requires I.Reachable(w) && x < |w.handles|
    ensures |w.owners| == |w.handles|
    ensures Detects(w, I.AskRunning(x), x) <==>
            var h := w.handles[x];
            && !h.gone && !h.pidReused && h.ident.pid in w.table
            && !I.Alive(w, x) && !I.Impostor(w, x)
  {
    I.ReachableInv(w);
    assert I.HandleOk(w, x);
  }

  /** Once `is_running` has detected, between passes, that a handle's PID has been
      reused, no later pass yields that handle, whatever else happens. */
  lemma DetectedNeverYielded(es: seq<Event>, w: World, x: nat, w1: World, es': seq<Event>, w': World)
    requires Runs(BOOT, es, false, w) && w.it.gens == map[] && x < |w.id.handles|
    requires Detects(w.id, I.AskRunning(x), x) && Next(w, Direct(I.AskRunning(x)), false, w1)
    requires Runs(w1, es', false, w')
    ensures x < |w1.id.handles| && w1.id.handles[x].pidReused && w.id.handles[x].ident.pid in w1.it.reused
    ensures w1.it.issued <= w'.it.issued && x !in w'.it.issued[|w1.it.issued|..]
  {
    Reached(es, false, w);
    RunsThen(BOOT, es, false, w, Direct(I.AskRunning(x)), w1);
    Reached(es + [Direct(I.AskRunning(x))], false, w1);
    OneId(w.id, I.AskRunning(x), w1.id);
    OneIt(w.it, P.Flag(x), false, w1.it);
    assert x in w1.it.flagged && w1.it.gens == map[];
    var its0 :| P.Runs(P.START, its0, false, w1.it);
    var ids, its := Projects(w1, es', false, w');
    P.FlaggedNeverYieldedAgain(its0, w1.it, its, w'.it, x);
  }

  /** No generator will yield PID `p`, and between passes it is not cached. */
  ghost predicate Out(w: P.World, p: Pid) {
    && (forall g :: g in w.gens ==> p !in w.gens[g].pmap && !Listed(w.gens[g].ls, p))
    && (w.gens == map[] ==> p !in w.pmap)
  }

  /** From `w` to `w'` nothing has been yielded for PID `p`. */
  ghost predicate NoneFor(w: P.World, w': P.World, p: Pid) {
    && w.issued <= w'.issued && w.pids <= w'.pids
    && forall k :: |w.issued| <= k < |w'.issued| ==>
                     w'.issued[k] < |w'.pids| && w'.pids[w'.issued[k]] != p
  }

  lemma OutStep(w: P.World, e: P.Event, p: Pid)
    requires P.Inv(w) && Out(w, p) && P.Enabled(w, e) && !e.Begin?
    ensures Out(P.Step(w, e), p) && NoneFor(w, P.Step(w, e), p)
  {
    if e.Turn? {
      var gen := w.gens[e.g];
      assert P.GenOk(w, gen);
      assert gen.ls[0].pid != p;
      forall i | 0 <= i < |gen.ls[1..]|
        ensures gen.ls[1..][i].pid != p
      {
        assert gen.ls[i + 1].pid != p;
      }
    }
  }

  lemma {:induction false} OutRuns(w: P.World, its: seq<P.Event>, w': P.World, p: Pid)
    requires P.Inv(w) && Out(w, p) && P.Runs(w, its, false, w') && forall f :: f in its ==> !f.Begin?
    ensures P.Inv(w') && Out(w', p) && NoneFor(w, w', p)
    decreases |its|
  {
    hide P.Inv, Out, P.Enabled, P.Step;
    if its != [] {
      assert its[0] in its;
      var next := P.Step(w, its[0]);
      OutStep(w, its[0], p);
      P.StepKeeps(w, its[0]);
      OutRuns(next, its[1..], w', p);
    }
  }

  lemma {:induction false} OutAlong(w: World, es: seq<Event>, w': World, p: Pid)
    requires P.Inv(w.it) && Out(w.it, p) && Runs(w, es, false, w') && forall e :: e in es ==> !e.Begin?
    ensures P.Inv(w'.it) && Out(w'.it, p) && NoneFor(w.it, w'.it, p)
    decreases |es|
  {
    hide P.Inv, Out, P.Runs, Enabled, ItEvents, NoneFor;
    NoneYet(w.it, p);
    if es != [] {
      assert es[0] in es;
      NoBegin(w, es[0]);
      var next :| Next(w, es[0], false, next) && Runs(next, es[1..], false, w');
      OutRuns(w.it, ItEvents(w, es[0]), next.it, p);
      OutAlong(next, es[1..], w', p);
      NoneAfter(w.it, next.it, w'.it, p);
    }
  }

  lemma NoBegin(w: World, e: Event)
    ensures Enabled(w, e) && !e.Begin? ==> forall f :: f in ItEvents(w, e) ==> !f.Begin?
  {
  }

  lemma NoneYet(w: P.World, p: Pid)
    ensures NoneFor(w, w, p)
  {
  }

  lemma NoneAfter(w: P.World, w1: P.World, w2: P.World, p: Pid)
    requires NoneFor(w, w1, p) && NoneFor(w1, w2, p)
    ensures NoneFor(w, w2, p)
  {
    forall k | |w.issued| <= k < |w2.issued|
      ensures w2.issued[k] < |w2.pids| && w2.pids[w2.issued[k]] != p
    {
      if k < |w1.issued| {
        assert w2.issued[k] == w1.issued[k];
        assert w2.pids[w1.issued[k]] == w1.pids[w1.issued[k]];
      }
    }
  }

  lemma BeginRemoves(w: P.World, g: nat, snapshot: set<Pid>, gen: Gen<nat>, p: Pid)
    requires w.gens == map[] && p in w.pmap && p in w.reused && P.Enabled(w, P.Begin(g, snapshot, gen))
    ensures Out(P.Step(w, P.Begin(g, snapshot, gen)), p)
  {
  }

  lemma BeginLists(w: P.World, g: nat, snapshot: set<Pid>, gen: Gen<nat>, p: Pid)
    requires w.gens == map[] && Out(w, p) && p in snapshot && P.Enabled(w, P.Begin(g, snapshot, gen))
    ensures exists i :: 0 <= i < |gen.ls| && gen.ls[i] == Item(p, None)
  {
    assert Listed(gen.ls, p);
  }

  lemma StartOk()
    ensures P.Inv(P.START)
  {
  }

  /** A PID due for removal is left out of the next pass, in which nothing is
      yielded for it, and gets a new entry in the pass after that if some process
      holds it then, however the first pass goes and whatever happens meanwhile. */
  lemma FreshOnePassLater(es0: seq<Event>, w: World, g1: nat, gen1: Gen<nat>, w1: World, es: seq<Event>, w2: World,
                          g2: nat, gen2: Gen<nat>, p: Pid)
    requires Runs(BOOT, es0, false, w) && w.it.gens == map[] && p in w.it.pmap && p in w.it.reused
    requires Next(w, Begin(g1, gen1), false, w1) && Runs(w1, es, false, w2) && forall e :: e in es ==> !e.Begin?
    requires w2.it.gens == map[] && Enabled(w2, Begin(g2, gen2)) && p in w2.id.table
    ensures NoneFor(w1.it, w2.it, p)
    ensures exists i :: 0 <= i < |gen2.ls| && gen2.ls[i] == Item(p, None)
  {
    hide Out, NoneFor, P.Runs, P.Inv, P.Enabled, P.Step, Coupled, Runs;
    Reached(es0, false, w);
    var its0 :| P.Runs(P.START, its0, false, w.it);
    StartOk();
    P.RunKeeps(P.START, its0, false, w.it);
    var begin := P.Begin(g1, w.id.table.Keys, gen1);
    OneIt(w.it, begin, false, w1.it);
    P.StepKeeps(w.it, begin);
    BeginRemoves(w.it, g1, w.id.table.Keys, gen1, p);
    OutAlong(w1, es, w2, p);
    BeginLists(w2.it, g2, w2.id.table.Keys, gen2, p);
  }

  /** And that entry's turn makes and yields an instance of the present holder. */
  lemma EntryMakesHolder(w: World, g: nat, overlap: bool, w': World)
    requires Coupled(w) && |w.id.owners| == |w.id.handles| && Next(w, Turn(g, false), overlap, w')
    requires var item := w.it.gens[g].ls[0]; item.proc.None? && item.pid in w.id.table && item.pid <= MAX_PID
    ensures var x, pid := |w.it.pids|, w.it.gens[g].ls[0].pid;
            && w'.it.issued == w.it.issued + [x]
            && |w'.id.handles| == |w'.id.owners| == x + 1
            && w'.id.owners[x] == w.id.table[pid].serial && I.Alive(w'.id, x)
            && !w'.id.handles[x].gone && !w'.id.handles[x].pidReused
  {
    var (ids, its) := TurnEffects(w, g, false);
    OneId(w.id, ids[0], w'.id);
    OneIt(w.it, its[0], overlap, w'.it);
  }
}
