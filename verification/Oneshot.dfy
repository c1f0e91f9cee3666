/** `Process.oneshot`: the caches of the Process object and of its platform
    object, and the getters that go through them. */
module Oneshot {
  import opened Wrappers

  datatype File = Stat | Status | Smaps | Statm

  type Content = nat

  datatype Error = NoSuchProcess | AccessDenied

  datatype Getter =
    | CpuTimes | MemoryInfo | Ppid | Uids
    | Terminal | CpuNum | PageFaults | StatusLetter | NumThreads | CtxSwitches | Gids | MemoryMaps

  /** What a getter makes of a file's content. */
  datatype Value = Project(getter: Getter, content: Content)

  type Answer = Result<Value, Error>

  function Source(g: Getter): File {
    match g
    case MemoryInfo => Statm
    case Uids | NumThreads | CtxSwitches | Gids => Status
    case MemoryMaps => Smaps
    case _ => Stat
  }

  /** Getters of the Process object decorated with `memoize_when_activated`. */
  predicate FrontMemo(g: Getter) {
    g.CpuTimes? || g.MemoryInfo? || g.Ppid? || g.Uids?
  }

  /** Readers of the platform object decorated with it. */
  predicate PlatformMemo(f: File) {
    !f.Statm?
  }

  datatype Read = Read(file: File, answer: Result<Content, Error>)

  /** The two `_cache` attributes, the `with` blocks entered and not left (true
      for one that activated the caches), and all reads and results so far. */
  datatype World = World(
    front: Option<map<Getter, Value>>, platform: Option<map<File, Content>>, frames: seq<bool>,
    log: seq<Read>, results: seq<(Getter, Answer)>)

  const IDLE := World(None, None, [], [], [])

  /** How the `k`-th read of the process's life ends. */
  type Oracle = (File, nat) -> Result<Content, Error>

  datatype Event = Enter | Exit | Get(g: Getter)

  predicate Enabled(w: World, e: Event) {
    e.Exit? ==> w.frames != []
  }

  /** A platform reader: the file's content, from the cache or by reading it. */
  function Load(w: World, f: File, os: Oracle): (World, Result<Content, Error>) {
    if PlatformMemo(f) && w.platform.Some? && f in w.platform.value then (w, Ok(w.platform.value[f]))
    else
      var answer := os(f, |w.log|);
      var w1 := w.(log := w.log + [Read(f, answer)]);
      if answer.Ok? && PlatformMemo(f) && w.platform.Some? then
        (w1.(platform := Some(w.platform.value[f := answer.value])), answer)
      else (w1, answer)
  }

  function Call(w: World, g: Getter, os: Oracle): (World, Answer) {
    if FrontMemo(g) && w.front.Some? && g in w.front.value then (w, Ok(w.front.value[g]))
    else
      var (w1, content) := Load(w, Source(g), os);
      if content.Err? then (w1, Err(content.error))
      else
        var v := Project(g, content.value);
        if FrontMemo(g) && w.front.Some? then (w1.(front := Some(w.front.value[g := v])), Ok(v))
        else (w1, Ok(v))
  }

  function Step(w: World, e: Event, os: Oracle): World
    requires Enabled(w, e)
  {
    match e
    case Enter =>
      if w.front.Some? then w.(frames := w.frames + [false])
      else w.(front := Some(map[]), platform := Some(map[]), frames := w.frames + [true])
    case Exit =>
      var n := |w.frames| - 1;
      if w.frames[n] then w.(front := None, platform := None, frames := w.frames[..n])
      else w.(frames := w.frames[..n])
    case Get(g) =>
      var (w1, answer) := Call(w, g, os);
      w1.(results := w1.results + [(g, answer)])
  }

  // ----- the objects

  class Process {
    const os: Oracle
    var front: Option<map<Getter, Value>>
    var platform: Option<map<File, Content>>
    var frames: seq<bool>
    ghost var log: seq<Read>
    var readCount: nat
    ghost var results: seq<(Getter, Answer)>

    ghost function State(): World
      reads this
    {
      World(front, platform, frames, log, results)
    }

    ghost predicate Valid()
      reads this
    {
      readCount == |log|
    }

    constructor (os: Oracle)
      ensures Valid() && State() == IDLE && this.os == os
    {
      this.os := os;
      front, platform, frames, log, readCount, results := None, None, [], [], 0, [];
    }

    method Enter()
      requires Valid()
      modifies this
      ensures Valid() && State() == Step(old(State()), Event.Enter, os)
    {
      if front.Some? {
        frames := frames + [false];
      } else {
        front := Some(map[]);
        platform := Some(map[]);
        frames := frames + [true];
      }
    }

    method Exit()
      requires Valid() && frames != []
      modifies this
      ensures Valid() && State() == Step(old(State()), Event.Exit, os)
    {
      var owner := frames[|frames| - 1];
      frames := frames[..|frames| - 1];
      if owner {
        front := None;
        platform := None;
      }
    }

    /** `wrapper` of `memoize_when_activated`, around a reader of the platform object. */
    method ReadFile(f: File) returns (r: Result<Content, Error>)
      requires Valid()
      modifies this
      ensures Valid() && (State(), r) == Load(old(State()), f, os)
    {
      if PlatformMemo(f) && platform.Some? && f in platform.value {
        return Ok(platform.value[f]);
      }
      r := os(f, readCount);
      log, readCount := log + [Read(f, r)], readCount + 1;
      if r.Ok? && PlatformMemo(f) && platform.Some? {
        platform := Some(platform.value[f := r.value]);
      }
    }

    /** A getter of the Process object, wrapped likewise if it is decorated. */
    method Get(g: Getter) returns (r: Answer)
      requires Valid()
      modifies this
      ensures Valid() && State() == Step(old(State()), Event.Get(g), os)
      ensures r == Call(old(State()), g, os).1
    {
      if FrontMemo(g) && front.Some? && g in front.value {
        r := Ok(front.value[g]);
      } else {
        var content := ReadFile(Source(g));
        if content.Err? {
          r := Err(content.error);
        } else {
          var v := Project(g, content.value);
          r := Ok(v);
          if FrontMemo(g) && front.Some? {
            front := Some(front.value[g := v]);
          }
        }
      }
      results := results + [(g, r)];
    }
  }

  // ----- runs

  ghost predicate Runs(w: World, es: seq<Event>, os: Oracle, w': World)
    decreases |es|
  {
    if es == [] then w' == w
    else Enabled(w, es[0]) && Runs(Step(w, es[0], os), es[1..], os, w')
  }

  /** The outermost block owns the caches and is the only one that does; both
      caches exist exactly while there is a block. */
  ghost predicate Nested(w: World) {
    && (w.front.Some? <==> w.frames != [])
    && (w.platform.Some? <==> w.frames != [])
    && (forall i :: 0 <= i < |w.frames| ==> (w.frames[i] <==> i == 0))
  }

  lemma {:induction false} CachesExistWhileInside(w: World, es: seq<Event>, os: Oracle, w': World)
    requires Nested(w) && Runs(w, es, os, w')
    ensures Nested(w')
    decreases |es|
  {
    if es != [] {
      CachesExistWhileInside(Step(w, es[0], os), es[1..], os, w');
    }
  }

  // ----- one outermost block

  /** A run that does not leave the outermost block. */
  ghost predicate Inside(w: World, es: seq<Event>, os: Oracle, w': World)
    decreases |es|
  {
    w.frames != []
    && if es == [] then w' == w
       else Enabled(w, es[0]) && Inside(Step(w, es[0], os), es[1..], os, w')
  }

  /** The content this block works with for file `f`, if any has been read. */
  ghost function Snapshot(w: World, f: File): Option<Content> {
    match f
    case Statm =>
      if w.front.Some? && MemoryInfo in w.front.value then Some(w.front.value[MemoryInfo].content) else None
    case _ =>
      if w.platform.Some? && f in w.platform.value then Some(w.platform.value[f]) else None
  }

  /** What holds in a block that began with `log0` and `res0` behind it. */
  ghost predicate InBlock(w: World, log0: nat, res0: nat) {
    && w.front.Some? && w.platform.Some? && log0 <= |w.log| && res0 <= |w.results|
    && (forall g :: g in w.front.value ==>
          w.front.value[g].getter == g && Snapshot(w, Source(g)) == Some(w.front.value[g].content))
    && (forall g :: g in w.front.value ==> FrontMemo(g))
    && (forall i :: log0 <= i < |w.log| && w.log[i].answer.Ok? ==>
          Snapshot(w, w.log[i].file) == Some(w.log[i].answer.value))
    && (forall i, j :: log0 <= i < j < |w.log| && w.log[i].answer.Ok? && w.log[j].answer.Ok? ==>
          w.log[i].file != w.log[j].file)
    && (forall f :: Snapshot(w, f).Some? ==> ReadInBlock(w, log0, f, Snapshot(w, f).value))
    && (forall i :: res0 <= i < |w.results| ==> ResultOk(w, i))
  }

  ghost predicate ReadInBlock(w: World, log0: nat, f: File, c: Content) {
    exists i :: log0 <= i < |w.log| && w.log[i] == Read(f, Ok(c))
  }

  ghost predicate ResultOk(w: World, i: nat)
    requires i < |w.results|
  {
    var (g, answer) := w.results[i];
    answer.Ok? ==> answer.value.getter == g && Snapshot(w, Source(g)) == Some(answer.value.content)
  }

  /** A read that failed leaves both caches as they are. */
  lemma FailedRead(w: World, f: File, e: Error, log0: nat, res0: nat)
    requires InBlock(w, log0, res0)
    ensures InBlock(w.(log := w.log + [Read(f, Err(e))]), log0, res0)
  {
    var w' := w.(log := w.log + [Read(f, Err(e))]);
    forall h | Snapshot(w', h).Some?
      ensures ReadInBlock(w', log0, h, Snapshot(w', h).value)
    {
      assert ReadInBlock(w, log0, h, Snapshot(w, h).value);
      var i :| log0 <= i < |w.log| && w.log[i] == Read(h, Ok(Snapshot(w, h).value));
      assert w'.log[i] == w.log[i];
    }
    forall i | res0 <= i < |w'.results|
      ensures ResultOk(w', i)
    {
      assert ResultOk(w, i);
    }
  }

  /** A first successful read of `f` becomes the block's content for it. */
  lemma FirstRead(w: World, w': World, f: File, c: Content, log0: nat, res0: nat)
    requires InBlock(w, log0, res0) && Snapshot(w, f).None?
    requires w'.log == w.log + [Read(f, Ok(c))] && w'.results == w.results
    requires w'.front.Some? && w'.platform.Some?
    requires forall h :: Snapshot(w', h) == if h == f then Some(c) else Snapshot(w, h)
    requires forall g :: g in w'.front.value ==>
               FrontMemo(g) && w'.front.value[g].getter == g
               && Snapshot(w', Source(g)) == Some(w'.front.value[g].content)
    ensures InBlock(w', log0, res0)
  {
    assert w'.log[|w.log|] == Read(f, Ok(c));
    forall h | Snapshot(w', h).Some?
      ensures ReadInBlock(w', log0, h, Snapshot(w', h).value)
    {
      if h != f {
        assert ReadInBlock(w, log0, h, Snapshot(w, h).value);
        var i :| log0 <= i < |w.log| && w.log[i] == Read(h, Ok(Snapshot(w, h).value));
        assert w'.log[i] == w.log[i];
      }
    }
    forall i | res0 <= i < |w'.results|
      ensures ResultOk(w', i)
    {
      assert ResultOk(w, i);
    }
  }

  lemma LoadInBlock(w: World, f: File, os: Oracle, log0: nat, res0: nat)
    requires InBlock(w, log0, res0) && PlatformMemo(f)
    ensures var (w1, r) := Load(w, f, os);
            InBlock(w1, log0, res0) && (r.Ok? ==> Snapshot(w1, f) == Some(r.value))
    ensures Load(w, f, os).0.front == w.front && Load(w, f, os).0.results == w.results
  {
    var (w1, r) := Load(w, f, os);
    if Snapshot(w, f).None? {
      var answer := os(f, |w.log|);
      if answer.Err? {
        FailedRead(w, f, answer.error, log0, res0);
      } else {
        FirstRead(w, w1, f, answer.value, log0, res0);
      }
    }
  }

  /** Putting a value the block already has the content of into the front cache. */
  lemma StoreInBlock(w: World, g: Getter, c: Content, log0: nat, res0: nat)
    requires InBlock(w, log0, res0) && FrontMemo(g) && g != MemoryInfo && Snapshot(w, Source(g)) == Some(c)
    ensures InBlock(w.(front := Some(w.front.value[g := Project(g, c)])), log0, res0)
  {
    var w' := w.(front := Some(w.front.value[g := Project(g, c)]));
    assert forall f :: Snapshot(w', f) == Snapshot(w, f);
    forall f | Snapshot(w', f).Some?
      ensures ReadInBlock(w', log0, f, Snapshot(w', f).value)
    {
      assert ReadInBlock(w, log0, f, Snapshot(w, f).value);
    }
    forall i | res0 <= i < |w'.results|
      ensures ResultOk(w', i)
    {
      assert ResultOk(w, i);
    }
  }

  lemma CallInBlock(w: World, g: Getter, os: Oracle, log0: nat, res0: nat)
    requires InBlock(w, log0, res0)
    ensures var (w1, r) := Call(w, g, os);
            InBlock(w1, log0, res0)
            && (r.Ok? ==> r.value.getter == g && Snapshot(w1, Source(g)) == Some(r.value.content))
  {
    if g in w.front.value {
    } else if g == MemoryInfo {
      var answer := os(Statm, |w.log|);
      if answer.Err? {
        FailedRead(w, Statm, answer.error, log0, res0);
      } else {
        FirstRead(w, Call(w, g, os).0, Statm, answer.value, log0, res0);
      }
    } else {
      LoadInBlock(w, Source(g), os, log0, res0);
      var (w1, content) := Load(w, Source(g), os);
      if content.Ok? && FrontMemo(g) {
        StoreInBlock(w1, g, content.value, log0, res0);
      }
    }
  }

  lemma GetInBlock(w: World, g: Getter, os: Oracle, log0: nat, res0: nat)
    requires InBlock(w, log0, res0)
    ensures InBlock(Step(w, Get(g), os), log0, res0)
  {
    CallInBlock(w, g, os, log0, res0);
    var w1 := Call(w, g, os).0;
    var w' := Step(w, Get(g), os);
    assert forall f :: Snapshot(w', f) == Snapshot(w1, f);
    forall f | Snapshot(w', f).Some?
      ensures ReadInBlock(w', log0, f, Snapshot(w', f).value)
    {
      assert ReadInBlock(w1, log0, f, Snapshot(w1, f).value);
    }
    forall i | res0 <= i < |w'.results|
      ensures ResultOk(w', i)
    {
      assert i < |w1.results| ==> ResultOk(w1, i);
    }
  }

  lemma {:induction false} BlockRun(w: World, es: seq<Event>, os: Oracle, w': World, log0: nat, res0: nat)
    requires InBlock(w, log0, res0) && Nested(w) && Inside(w, es, os, w')
    ensures InBlock(w', log0, res0)
    decreases |es|
  {
    hide InBlock;
    if es != [] {
      var next := Step(w, es[0], os);
      if es[0].Get? {
        GetInBlock(w, es[0].g, os, log0, res0);
      } else {
        FramesOnly(w, es[0], os, next, log0, res0);
      }
      CachesExistWhileInside(w, [es[0]], os, next);
      BlockRun(next, es[1..], os, w', log0, res0);
    }
  }

  lemma FramesOnly(w: World, e: Event, os: Oracle, next: World, log0: nat, res0: nat)
    requires InBlock(w, log0, res0) && Nested(w) && !e.Get? && Enabled(w, e) && next == Step(w, e, os)
    requires next.frames != []
    ensures InBlock(next, log0, res0)
  {
    assert forall f :: Snapshot(next, f) == Snapshot(w, f);
    forall f | Snapshot(next, f).Some?
      ensures ReadInBlock(next, log0, f, Snapshot(next, f).value)
    {
      assert ReadInBlock(w, log0, f, Snapshot(w, f).value);
    }
    forall i | res0 <= i < |next.results|
      ensures ResultOk(next, i)
    {
      assert ResultOk(w, i);
    }
  }

  /** Two results that come from the same file. */
  predicate SameSource(a: (Getter, Answer), b: (Getter, Answer)) {
    a.1.Ok? && b.1.Ok? && Source(a.0) == Source(b.0)
  }

  /** In one outermost block, however it nests and whatever is called in it: each
      file is read successfully at most once, and what all the results that come
      from one file show is that one reading of it. */
  lemma OneReading(w: World, es: seq<Event>, os: Oracle, w': World)
    requires Nested(w) && w.frames == [] && Inside(Step(w, Enter, os), es, os, w')
    ensures |w.log| <= |w'.log| && |w.results| <= |w'.results|
    ensures forall i, j :: |w.log| <= i < j < |w'.log| && w'.log[i].answer.Ok? && w'.log[j].answer.Ok? ==>
              w'.log[i].file != w'.log[j].file
    ensures forall i :: |w.results| <= i < |w'.results| && w'.results[i].1.Ok? ==>
              var (g, answer) := w'.results[i];
              answer.value.getter == g && ReadInBlock(w', |w.log|, Source(g), answer.value.content)
    ensures forall i, j :: |w.results| <= i < j < |w'.results| && SameSource(w'.results[i], w'.results[j]) ==>
              w'.results[i].1.value.content == w'.results[j].1.value.content
  {
    var w0 := Step(w, Enter, os);
    assert InBlock(w0, |w.log|, |w.results|);
    CachesExistWhileInside(w, [Enter], os, w0);
    BlockRun(w0, es, os, w', |w.log|, |w.results|);
    forall i | |w.results| <= i < |w'.results| && w'.results[i].1.Ok?
      ensures w'.results[i].1.value.getter == w'.results[i].0
      ensures Snapshot(w', Source(w'.results[i].0)) == Some(w'.results[i].1.value.content)
      ensures ReadInBlock(w', |w.log|, Source(w'.results[i].0), w'.results[i].1.value.content)
    {
      assert ResultOk(w', i);
    }
  }

  /** A call that fails has just tried to read the file: failures are not cached. */
  lemma FailuresNotCached(w: World, g: Getter, os: Oracle)
    requires Call(w, g, os).1.Err?
    ensures var (w1, r) := Call(w, g, os);
            && w1.log == w.log + [Read(Source(g), Err(r.error))]
            && w1.front == w.front && w1.platform == w.platform
  {
  }

  /** Outside any block every call reads its file anew, once, and answers what it
      has just read. */
  lemma FreshOutside(w: World, g: Getter, os: Oracle)
    requires Nested(w) && w.frames == []
    ensures var w', now := Step(w, Get(g), os), os(Source(g), |w.log|);
            && w'.log == w.log + [Read(Source(g), now)]
            && w'.results == w.results + [(g, if now.Ok? then Ok(Project(g, now.value)) else Err(now.error))]
            && w'.front == None && w'.platform == None && w'.frames == []
  {
  }

  // ----- against no caching at all

  /** The results of the getter calls alone, every one of them reading its file. */
  ghost function Uncached(es: seq<Event>, os: Oracle): seq<(Getter, Answer)>
    decreases |es|
  {
    if es == [] then []
    else
      var rest := Uncached(es[1..], os);
      match es[0]
      case Get(g) =>
        var c := os(Source(g), 0);
        [(g, if c.Ok? then Ok(Project(g, c.value)) else Err(c.error))] + rest
      case _ => rest
  }

  /** The files do not change. */
  ghost predicate Steady(os: Oracle) {
    forall f, k :: os(f, k) == os(f, 0)
  }

  ghost predicate CachesRight(w: World, os: Oracle) {
    && (w.front.Some? ==> forall g :: g in w.front.value ==>
          os(Source(g), 0) == Ok(w.front.value[g].content) && w.front.value[g].getter == g)
    && (w.platform.Some? ==> forall f :: f in w.platform.value ==> os(f, 0) == Ok(w.platform.value[f]))
  }

  /** While the files do not change, blocks make no difference: any run of enters,
      exits and calls gives the results the calls would give without caching. */
  lemma {:induction false} Transparent(w: World, es: seq<Event>, os: Oracle, w': World)
    requires Steady(os) && CachesRight(w, os) && Runs(w, es, os, w')
    ensures w'.results == w.results + Uncached(es, os)
    decreases |es|
  {
    hide CachesRight, Steady, Step, Enabled;
    if es != [] {
      var next := Step(w, es[0], os);
      StepRight(w, es[0], os);
      UncachedCons(es, os);
      Transparent(next, es[1..], os, w');
    }
  }

  lemma UncachedCons(es: seq<Event>, os: Oracle)
    requires es != []
    ensures Uncached(es, os) == Uncached([es[0]], os) + Uncached(es[1..], os)
  {
    assert [es[0]][1..] == [];
  }

  lemma StepRight(w: World, e: Event, os: Oracle)
    requires Steady(os) && CachesRight(w, os) && Enabled(w, e)
    ensures CachesRight(Step(w, e, os), os)
    ensures Step(w, e, os).results == w.results + Uncached([e], os)
  {
    assert Uncached([], os) == [];
    if e.Get? {
      assert os(Source(e.g), |w.log|) == os(Source(e.g), 0);
    }
  }
}
