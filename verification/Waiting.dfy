/** The back-off of `wait_pid_posix`. */
module BackOff {
  import opened Wrappers

  const FIRST := 0.0001
  const MAX := 0.04

  function Min(a: real, b: real): real {
    if a < b then a else b
  }

  /** The interval in force after `k` sleeps. */
  function Interval(k: nat): real {
    if k == 0 then FIRST else Min(Interval(k - 1) * 2.0, MAX)
  }

  /** Time spent in the first `n` sleeps. */
  function Slept(n: nat): real {
    if n == 0 then 0.0 else Slept(n - 1) + Interval(n - 1)
  }

  function Intervals(n: nat): (r: seq<real>)
    ensures |r| == n
  {
    if n == 0 then [] else Intervals(n - 1) + [Interval(n - 1)]
  }

  function Pow2(k: nat): real {
    if k == 0 then 1.0 else 2.0 * Pow2(k - 1)
  }

  lemma NoSleep()
    ensures Interval(0) == FIRST && Slept(0) == 0.0 && Intervals(0) == []
  {
  }

  /** The `k`-th sleep lasts 0.0001 times two to the `k`, but no more than 0.04. */
  lemma {:induction false} IntervalClosed(k: nat)
    ensures Interval(k) == Min(FIRST * Pow2(k), MAX)
    ensures Pow2(k) >= 1.0
  {
    if k > 0 {
      IntervalClosed(k - 1);
    }
  }

  lemma {:induction false} IntervalBounds(k: nat)
    ensures 0.0 < Interval(k) <= MAX
  {
    if k > 0 {
      IntervalBounds(k - 1);
    }
  }

  lemma {:induction false} SleptGrows(m: nat, n: nat)
    requires m <= n
    ensures 0.0 <= Slept(m) <= Slept(n)
    decreases n
  {
    if m < n {
      IntervalBounds(n - 1);
      SleptGrows(m, n - 1);
    } else if n > 0 {
      IntervalBounds(n - 1);
      SleptGrows(m - 1, n - 1);
    }
  }

  lemma NinthInterval()
    ensures Slept(9) == 0.0511 && Interval(9) == MAX
  {
    assert Interval(3) == 0.0008 && Slept(3) == 0.0007;
    assert Interval(6) == 0.0064 && Slept(6) == 0.0063;
  }

  lemma {:induction false} SleptFromNine(n: nat)
    requires n >= 9
    ensures Interval(n) == MAX && Slept(n) == 0.0511 + MAX * ((n - 9) as real)
  {
    if n == 9 {
      NinthInterval();
    } else {
      SleptFromNine(n - 1);
    }
  }

  /** If the last of `n` sleeps began before `t`, then there were at most
      9 + 25 t of them and they ended before t + 0.04. */
  lemma SleepsBounded(n: nat, t: real)
    requires n > 0 && Slept(n - 1) < t
    ensures Slept(n) < t + MAX
    ensures n as real <= 9.0 + 25.0 * t
  {
    IntervalBounds(n - 1);
    SleptGrows(0, n - 1);
    if n > 9 {
      SleptFromNine(n - 1);
    }
  }

  /** What a sleep that only starts before the timeout makes of the whole wait. */
  lemma SleptInTime(timeout: Option<real>, n: nat)
    requires timeout.Some? && n > 0 ==> Slept(n - 1) < timeout.value
    ensures Slept(0) == 0.0 <= Slept(n)
    ensures timeout.Some? && timeout.value <= 0.0 ==> n == 0
    ensures timeout.Some? && timeout.value > 0.0 ==>
              Slept(n) < timeout.value + MAX && n as real <= 9.0 + 25.0 * timeout.value
  {
    SleptGrows(0, n);
    if timeout.Some? && n > 0 {
      SleptGrows(0, n - 1);
      SleepsBounded(n, timeout.value);
    }
  }
}

/** `wait_pid_posix`, `Process.wait` and `wait_procs`. */
module Waiting {
  import opened Wrappers
  import opened BackOff

  type Pid = nat

  /** What waitpid() answers; StillRunning only if it was told not to wait. */
  datatype WaitPid = NotChild | StillRunning | Exited(status: nat)

  /** A waitpid() that waits: for how long, and the status, if it is a child. */
  datatype Blocked = Blocked(took: real, status: Option<nat>)

  datatype Error = TimeoutExpired | ValueError

  datatype Moment = M(now: real, queries: nat, asked: nat)

  /** `convert_exit_code`: the macros of wait(2) on a status word. */
  function ConvertExitCode(status: nat): Result<int, Error> {
    var low := status % 128;
    if low == 0 then Ok(status / 256 % 256)
    else if low != 127 then Ok(-low)
    else Err(ValueError)
  }

  /** An exit code and a signal number come back, apart from one another, whatever
      the core-dump bit and the bits above say; a stopped process is an error. */
  lemma ExitCodeRoundTrip(code: nat, signal: int, high: nat, core: nat)
    requires code < 256 && 0 < signal < 127 && core < 2
    ensures ConvertExitCode(high * 65536 + code * 256) == Ok(code)
    ensures var r := ConvertExitCode(high * 256 + core * 128 + signal); r.Ok? && r.value == -signal
    ensures ConvertExitCode(high * 256 + core * 128 + 127) == Err(ValueError)
  {
    LowBits(high * 512 + code * 2, 0);
    SecondByte(high, code);
    LowBits(high * 2 + core, signal);
    LowBits(high * 2 + core, 127);
  }

  lemma LowBits(q: nat, r: nat)
    requires r < 128
    ensures (128 * q + r) % 128 == r
  {
  }

  lemma SecondByte(high: nat, code: nat)
    requires code < 256
    ensures (high * 65536 + code * 256) / 256 % 256 == code
  {
    assert (high * 65536 + code * 256) / 256 == high * 256 + code;
  }

  /** The system as the polling code sees it. The `k`-th query of a process may
      be answered in any way. Sleeping takes exactly as long as asked for, and a
      waitpid() that waits as long as it does; nothing else takes time. */
  class System {
    const waitpid: (Pid, nat) -> WaitPid
    const blocking: (Pid, nat) -> Blocked
    const pidExists: (Pid, nat) -> bool
    const isRunning: (Pid, nat) -> bool
    var now: real
    var queries: nat
    var asked: nat
    /** `_exitcode` of the Process objects that have one. */
    var exitcodes: map<Pid, Option<int>>
    /** Calls of the `wait_procs` callback, in order. */
    var callbacks: seq<Pid>
    ghost var sleeps: seq<real>

    constructor (waitpid: (Pid, nat) -> WaitPid, blocking: (Pid, nat) -> Blocked,
                 pidExists: (Pid, nat) -> bool, isRunning: (Pid, nat) -> bool)
      ensures this.waitpid == waitpid && this.blocking == blocking
      ensures this.pidExists == pidExists && this.isRunning == isRunning
      ensures now == 0.0 && queries == asked == 0 && exitcodes == map[] && callbacks == [] && sleeps == []
    {
      this.waitpid, this.blocking, this.pidExists, this.isRunning := waitpid, blocking, pidExists, isRunning;
      now, queries, asked, exitcodes, callbacks, sleeps := 0.0, 0, 0, map[], [], [];
    }

    /** From query `k` on, the process is found gone. */
    ghost predicate Settled(pid: Pid, k: nat) {
      forall m :: m >= k ==> !waitpid(pid, m).StillRunning? && !pidExists(pid, m)
    }

    /** `sleep_or_timeout`, after `n` sleeps that began at `start`; `before` are
        the sleeps of earlier calls. */
    method SleepOrTimeout(interval: real, timeout: Option<real>, start: real, ghost n: nat, ghost before: seq<real>)
      returns (expired: bool, next: real)
      requires interval == Interval(n) && now == start + Slept(n) && sleeps == before + Intervals(n)
      modifies this`now, this`sleeps
      ensures expired <==> timeout.Some? && Slept(n) >= timeout.value
      ensures expired ==> now == old(now) && sleeps == old(sleeps)
      ensures !expired ==>
                && now == start + Slept(n + 1) && sleeps == before + Intervals(n + 1)
                && next == Interval(n + 1)
                && (timeout.Some? ==> n < SleepLimit(timeout.value))
    {
      if timeout.Some? && now >= start + timeout.value {
        return true, interval;
      }
      now, sleeps := now + interval, sleeps + [interval];
      if timeout.Some? {
        SleepsBounded(n + 1, timeout.value);
      }
      return false, Min(interval * 2.0, MAX);
    }

    static ghost function SleepLimit(t: real): int {
      (9.0 + 25.0 * t).Floor
    }

    /** From query `k` on, no process has the PID. */
    ghost predicate Absent(pid: Pid, k: nat) {
      forall m :: m >= k ==> !pidExists(pid, m)
    }

    /** The answer of waitpid(), which without a timeout is called without WNOHANG. */
    function Answer(pid: Pid, k: nat, timeout: Option<real>): WaitPid {
      match timeout
      case Some(_) => waitpid(pid, k)
      case None =>
        match blocking(pid, k).status
        case Some(status) => Exited(status)
        case None => NotChild
    }

    /** Queries `a` to `b` were waitpid() calls that found a running child. */
    ghost predicate ChildRuns(pid: Pid, timeout: Option<real>, a: nat, b: nat) {
      forall k :: a <= k < b ==> Answer(pid, k, timeout).StillRunning?
    }

    /** Queries `a` to `b` were pid_exists() calls that found the process. */
    ghost predicate PidStays(pid: Pid, a: nat, b: nat) {
      forall k :: a <= k < b ==> pidExists(pid, k)
    }

    /** What the queries from `q0` to `q` were and said, for a wait that ended
        with `r` after `n` sleeps: waitpid() until it ends the wait or finds no
        child, at query `c`; pid_exists() from there on; one sleep after each
        answer that left the process there, and no other. */
    ghost predicate Polled(pid: Pid, timeout: Option<real>, q0: nat, q: nat, c: nat, n: nat,
                           r: Result<Option<int>, Error>) {
      && q0 <= c < q && ChildRuns(pid, timeout, q0, c)
      && if c == q - 1 then
           && q == q0 + n + 1
           && match Answer(pid, c, timeout)
              case NotChild => false
              case StillRunning => r == Err(TimeoutExpired)
              case Exited(status) =>
                match ConvertExitCode(status)
                case Ok(code) => r == Ok(Some(code))
                case Err(_) => r == Err(ValueError)
         else
           && q == q0 + n + 2 && Answer(pid, c, timeout).NotChild? && PidStays(pid, c + 1, q - 1)
           && r == if pidExists(pid, q - 1) then Err(TimeoutExpired) else Ok(None)
    }

    /** `wait_pid_posix`; `n` is the number of sleeps and `c` the last waitpid()
        query. */
    method WaitPidPosix(pid: Pid, timeout: Option<real>, ghost settled: nat)
      returns (r: Result<Option<int>, Error>, ghost n: nat, ghost c: nat)
      requires timeout.None? && blocking(pid, queries).status.None? ==> Absent(pid, settled)
      modifies this`now, this`queries, this`sleeps
      ensures sleeps == old(sleeps) + Intervals(n)
      ensures now == old(now) + Slept(n) + if timeout.None? then blocking(pid, old(queries)).took else 0.0
      ensures Polled(pid, timeout, old(queries), queries, c, n, r)
      ensures timeout.None? ==> c == old(queries)
      ensures r == Err(TimeoutExpired) ==> timeout.Some? && now >= old(now) + timeout.value
      ensures timeout.Some? && timeout.value <= 0.0 ==> n == 0 && now == old(now)
      ensures timeout.Some? && timeout.value > 0.0 ==>
                old(now) <= now < old(now) + timeout.value + MAX && n as real <= 9.0 + 25.0 * timeout.value
      ensures Settled(pid, old(queries)) ==> r != Err(TimeoutExpired) && n == 0
    {
      hide Slept, Interval, Intervals, Settled, Absent, SleepLimit, ConvertExitCode, ChildRuns, PidStays;
      var interval, start := FIRST, now;
      n, c := 0, queries;
      NoSleep();
      ChildRunsOn(pid, timeout, queries, queries);
      var status;
      while true
        invariant interval == Interval(n) && now == start + Slept(n) && sleeps == old(sleeps) + Intervals(n)
        invariant queries == old(queries) + n && ChildRuns(pid, timeout, old(queries), queries)
        invariant start == old(now) && (timeout.None? ==> n == 0)
        invariant timeout.Some? && n > 0 ==> Slept(n - 1) < timeout.value
        invariant Settled(pid, old(queries)) ==> n == 0
        decreases if timeout.Some? then SleepLimit(timeout.value) - n else 0
      {
        SettledAnswers(pid, old(queries), queries);
        status := Answer(pid, queries, timeout);
        if timeout.None? {
          now := now + blocking(pid, queries).took;
          start := now;
        }
        c := queries;
        ChildRunsOn(pid, timeout, old(queries), c);
        queries := queries + 1;
        if status.NotChild? {
          break;
        }
        if status.Exited? {
          var code := ConvertExitCode(status.status);
          r := if code.Ok? then Ok(Some(code.value)) else Err(ValueError);
          SleptInTime(timeout, n);
          return;
        }
        var expired;
        expired, interval := SleepOrTimeout(interval, timeout, start, n, old(sleeps));
        if expired {
          r := Err(TimeoutExpired);
          SleptInTime(timeout, n);
          return;
        }
        n := n + 1;
      }
      SettledLater(pid, old(queries), queries);
      r, n := PollUntilGone(pid, timeout, interval, start, n, old(sleeps), settled);
      SleptInTime(timeout, n);
    }

    lemma ChildRunsOn(pid: Pid, timeout: Option<real>, a: nat, b: nat)
      ensures ChildRuns(pid, timeout, a, a)
      ensures ChildRuns(pid, timeout, a, b) && Answer(pid, b, timeout).StillRunning? ==>
                ChildRuns(pid, timeout, a, b + 1)
    {
    }

    lemma PidStaysOn(pid: Pid, a: nat, b: nat)
      ensures PidStays(pid, a, a)
      ensures PidStays(pid, a, b) && pidExists(pid, b) ==> PidStays(pid, a, b + 1)
    {
    }

    lemma SettledAnswers(pid: Pid, k: nat, m: nat)
      ensures Settled(pid, k) && m >= k ==> !waitpid(pid, m).StillRunning? && !pidExists(pid, m)
    {
    }

    lemma AbsentAnswers(pid: Pid, k: nat, m: nat)
      ensures Absent(pid, k) && m >= k ==> !pidExists(pid, m)
    {
    }

    lemma SettledLater(pid: Pid, k: nat, m: nat)
      requires k <= m
      ensures Settled(pid, k) ==> Settled(pid, m)
    {
    }

    /** The inner loop, for a process that is not a child: `interval` goes on
        from where the outer loop left it, after `n0` sleeps. */
    method PollUntilGone(pid: Pid, timeout: Option<real>, first: real, start: real, ghost n0: nat,
                         ghost before: seq<real>, ghost settled: nat)
      returns (r: Result<Option<int>, Error>, ghost n: nat)
      requires timeout.None? ==> Absent(pid, settled)
      requires first == Interval(n0) && now == start + Slept(n0) && sleeps == before + Intervals(n0)
      requires timeout.Some? && n0 > 0 ==> Slept(n0 - 1) < timeout.value
      modifies this`now, this`queries, this`sleeps
      ensures n >= n0 && now == start + Slept(n) && sleeps == before + Intervals(n)
      ensures queries == old(queries) + (n - n0) + 1 && PidStays(pid, old(queries), queries - 1)
      ensures r == if pidExists(pid, queries - 1) then Err(TimeoutExpired) else Ok(None)
      ensures timeout.Some? && n > 0 ==> Slept(n - 1) < timeout.value
      ensures r.Err? ==> timeout.Some? && Slept(n) >= timeout.value
      ensures Settled(pid, old(queries)) ==> r.Ok? && n == n0
    {
      hide Slept, Interval, Intervals, Settled, Absent, SleepLimit, PidStays;
      var interval := first;
      n := n0;
      SettledAnswers(pid, old(queries), queries);
      PidStaysOn(pid, queries, queries);
      var exists_ := pidExists(pid, queries);
      queries := queries + 1;
      while exists_
        invariant n >= n0 && queries == old(queries) + (n - n0) + 1 && PidStays(pid, old(queries), queries - 1)
        invariant exists_ == pidExists(pid, queries - 1)
        invariant interval == Interval(n) && now == start + Slept(n) && sleeps == before + Intervals(n)
        invariant timeout.Some? && n > 0 ==> Slept(n - 1) < timeout.value
        invariant Settled(pid, old(queries)) ==> n == n0 && !exists_
        decreases if timeout.Some? then SleepLimit(timeout.value) - n else settled + 1 - queries
      {
        AbsentAnswers(pid, settled, queries - 1);
        var expired;
        expired, interval := SleepOrTimeout(interval, timeout, start, n, before);
        if expired {
          return Err(TimeoutExpired), n;
        }
        n := n + 1;
        PidStaysOn(pid, old(queries), queries - 1);
        exists_ := pidExists(pid, queries);
        queries := queries + 1;
      }
      r := Ok(None);
    }

    // ----- Process.wait and wait_procs

    /** waitpid() without WUNTRACED only reports processes that have ended. */
    ghost predicate EndsOnly() {
      forall pid, k :: waitpid(pid, k).Exited? ==> waitpid(pid, k).status % 128 != 127
    }

    /** The system has given this exit status, between two queries: the one of a
        child, or none for a process that was found gone. */
    ghost predicate Reported(pid: Pid, code: Option<int>, q0: nat, q: nat) {
      exists k :: q0 <= k < q &&
        match code
        case Some(c) => waitpid(pid, k).Exited? && ConvertExitCode(waitpid(pid, k).status) == Ok(c)
        case None => !pidExists(pid, k)
    }

    /** The process has been seen alive by one of the queries from `q0` to `q`
        or of the `is_running` calls from `a0` to `a`. */
    ghost predicate Seen(pid: Pid, q0: nat, a0: nat, q: nat, a: nat) {
      || (exists k :: q0 <= k < q && (waitpid(pid, k).StillRunning? || pidExists(pid, k)))
      || (exists k :: a0 <= k < a && isRunning(pid, k))
    }

    /** `Process.wait`, for a timeout that is not negative. */
    method Wait(pid: Pid, timeout: real) returns (r: Result<Option<int>, Error>)
      requires timeout >= 0.0 && EndsOnly()
      modifies this`now, this`queries, this`sleeps, this`exitcodes
      ensures r == Err(ValueError) <==> pid == 0
      ensures now >= old(now) && (if timeout == 0.0 then now == old(now) else now < old(now) + timeout + MAX)
      ensures r == Err(TimeoutExpired) ==>
                now >= old(now) + timeout && queries > old(queries) && !Settled(pid, old(queries))
      ensures queries >= old(queries)
      ensures exitcodes == if r.Ok? then old(exitcodes)[pid := r.value] else old(exitcodes)
      ensures pid in old(exitcodes) && pid != 0 ==> r == Ok(old(exitcodes)[pid])
      ensures r.Ok? && pid !in old(exitcodes) ==> Reported(pid, r.value, old(queries), queries)
      ensures r == Err(TimeoutExpired) ==> Seen(pid, old(queries), old(asked), queries, asked)
    {
      if pid == 0 {
        return Err(ValueError);
      }
      if pid in exitcodes {
        assert exitcodes == exitcodes[pid := exitcodes[pid]];
        return Ok(exitcodes[pid]);
      }
      ghost var n, c;
      r, n, c := WaitPidPosix(pid, Some(timeout), 0);
      if r.Ok? {
        exitcodes := exitcodes[pid := r.value];
      }
    }

    /** Why `wait_procs` may call a process gone: its wait returned, with an exit
        code or with one of the `is_running` calls from `a0` to `a` saying False. */
    ghost predicate Evidence(pid: Pid, codes: map<Pid, Option<int>>, a0: nat, a: nat) {
      pid in codes && (codes[pid].Some? || exists k :: a0 <= k < a && !isRunning(pid, k))
    }

    /** What later calls leave as it is. */
    twostate predicate Onward()
      reads this
    {
      && now >= old(now) && queries >= old(queries) && asked >= old(asked)
      && Extends(old(exitcodes), old(queries), exitcodes, queries)
    }

    /** Exit codes once known do not change, and new ones come from the system. */
    ghost predicate Extends(a: map<Pid, Option<int>>, qa: nat, b: map<Pid, Option<int>>, qb: nat) {
      && (forall p :: p in a ==> p in b && b[p] == a[p])
      && (forall p :: p in b && p !in a ==> Reported(p, b[p], qa, qb))
    }

    lemma ExtendsNothing(a: map<Pid, Option<int>>, q: nat)
      ensures Extends(a, q, a, q)
    {
    }

    lemma ExtendsOn(a: map<Pid, Option<int>>, qa: nat, b: map<Pid, Option<int>>, qb: nat,
                    c: map<Pid, Option<int>>, qc: nat)
      requires qa <= qb <= qc && Extends(a, qa, b, qb) && Extends(b, qb, c, qc)
      ensures Extends(a, qa, c, qc)
    {
    }

    lemma SeenMore(alive: set<Pid>, q0: nat, a0: nat, q: nat, a: nat, q': nat, a': nat)
      requires q <= q' && a <= a' && forall p :: p in alive ==> Seen(p, q0, a0, q, a)
      ensures forall p :: p in alive ==> Seen(p, q0, a0, q', a')
    {
    }

    /** There is evidence for each process in `gone`, and the callback was called
        for each of them once. */
    ghost predicate Found(gone: set<Pid>, called: seq<Pid>, codes: map<Pid, Option<int>>, a0: nat, a: nat) {
      Once(called, gone) && forall p :: p in gone ==> Evidence(p, codes, a0, a)
    }

    lemma FoundNone(codes: map<Pid, Option<int>>, a0: nat, a: nat)
      ensures Found({}, [], codes, a0, a)
    {
    }

    lemma FoundOneMore(gone: set<Pid>, called: seq<Pid>, codes: map<Pid, Option<int>>, a0: nat, a: nat, p: Pid, a1: nat)
      requires Found(gone, called, codes, a0, a) && p !in gone && a0 <= a1 && Evidence(p, codes, a1, a)
      ensures Found(gone + {p}, called + [p], codes, a0, a)
    {
    }

    lemma FoundStays(gone: set<Pid>, called: seq<Pid>, codes: map<Pid, Option<int>>, q: nat, a0: nat, a: nat,
                     codes': map<Pid, Option<int>>, q': nat, a': nat)
      requires Extends(codes, q, codes', q') && a <= a' && Found(gone, called, codes, a0, a)
      ensures Found(gone, called, codes', a0, a')
    {
    }

    lemma FoundJoin(gone: set<Pid>, called: seq<Pid>, found: set<Pid>, more: seq<Pid>,
                    codes: map<Pid, Option<int>>, a0: nat, a1: nat, a: nat)
      requires Found(gone, called, codes, a0, a) && Found(found, more, codes, a1, a) && a0 <= a1 && gone !! found
      ensures Found(gone + found, called + more, codes, a0, a)
    {
      OnceJoin(called, gone, more, found);
    }

    /** `check_gone`. */
    method CheckGone(pid: Pid, timeout: real) returns (r: Result<bool, Error>)
      requires timeout >= 0.0 && EndsOnly()
      modifies this
      ensures Onward()
      ensures r.Err? <==> pid == 0
      ensures if timeout == 0.0 then now == old(now) else now < old(now) + timeout + MAX
      ensures callbacks == old(callbacks) + if r == Ok(true) then [pid] else []
      ensures r == Ok(true) ==> Evidence(pid, exitcodes, old(asked), asked)
      ensures r == Ok(false) ==>
                && Seen(pid, old(queries), old(asked), queries, asked)
                && (|| (now >= old(now) + timeout && queries > old(queries) && asked == old(asked)
                        && !Settled(pid, old(queries)))
                    || (asked > old(asked) && isRunning(pid, old(asked))))
    {
      var waited := Wait(pid, timeout);
      if waited == Err(TimeoutExpired) {
        return Ok(false);
      }
      if waited.Err? {
        assert waited.error == ValueError;
        return Err(ValueError);
      }
      var running := false;
      if waited.value.None? {
        running := isRunning(pid, asked);
        asked := asked + 1;
      }
      if running {
        return Ok(false);
      }
      callbacks := callbacks + [pid];
      assert waited.value.None? ==> !isRunning(pid, asked - 1);
      return Ok(true);
    }

    /** The clock and the two query counters. */
    ghost function Moment(): Moment
      reads this
    {
      M(now, queries, asked)
    }

    /** From `m0` to `m` some of the processes have been waited for, for `spent`
        seconds in all, and none found gone: time has passed, or a process was
        still there to be polled, or `is_running` has said True. */
    ghost predicate Pending(alive: set<Pid>, tried: bool, deadline: Option<real>, m0: Moment, m: Moment, spent: real) {
      && m.asked >= m0.asked
      && if m.asked > m0.asked then exists p :: p in alive && isRunning(p, m0.asked)
         else
           match deadline
           case Some(d) => m.now >= d || m.now >= m0.now + spent
           case None => tried ==> m.queries > m0.queries && exists p :: p in alive && !Settled(p, m0.queries)
    }

    lemma StartPending(alive: set<Pid>, deadline: Option<real>, m: Moment)
      ensures Pending(alive, false, deadline, m, m, 0.0)
    {
    }

    lemma OutOfTime(alive: set<Pid>, tried: bool, deadline: Option<real>, m0: Moment, m: Moment, spent: real)
      requires deadline.Some? && m.now >= deadline.value
      ensures Pending(alive, tried, deadline, m0, m, spent) ==> Pending(alive, true, deadline, m0, m, 1.0)
    {
    }

    lemma PendingStep(alive: set<Pid>, tried: bool, deadline: Option<real>, m0: Moment, m: Moment, spent: real,
                      proc: Pid, m': Moment, timeout: real, share: real)
      requires Pending(alive, tried, deadline, m0, m, spent) && proc in alive
      requires m'.now >= m.now && m'.queries >= m.queries && m'.asked >= m.asked && m.queries >= m0.queries
      requires timeout == if deadline.Some? then Min(deadline.value - m.now, share) else share
      requires (m'.now >= m.now + timeout && m'.queries > m.queries && m'.asked == m.asked
                && !Settled(proc, m.queries))
               || (m'.asked > m.asked && isRunning(proc, m.asked))
      ensures Pending(alive, true, deadline, m0, m', spent + share)
    {
    }

    /** One process's turn within a pass; `called` are the callbacks made in the
        pass, after `before`. */
    method TryOne(proc: Pid, timeout: real, gone: set<Pid>, ghost called: seq<Pid>, ghost before: seq<Pid>,
                  ghost alive: set<Pid>, ghost deadline: Option<real>, ghost m0: Moment,
                  ghost tried: nat, ghost share: real)
      returns (gone': set<Pid>, failed: bool, ghost called': seq<Pid>)
      requires timeout > 0.0 && EndsOnly() && proc in alive && proc !in gone
      requires timeout == if deadline.Some? then Min(deadline.value - now, share) else share
      requires callbacks == before + called && Found(gone, called, exitcodes, m0.asked, asked)
      requires queries >= m0.queries && asked >= m0.asked
      requires gone == {} ==> Pending(alive, tried > 0, deadline, m0, Moment(), Times(tried, share))
      modifies this
      ensures Onward() && now < old(now) + timeout + MAX
      ensures failed <==> proc == 0
      ensures gone' == gone || (gone' == gone + {proc} && !failed)
      ensures callbacks == before + called' && Found(gone', called', exitcodes, m0.asked, asked)
      ensures gone' == {} && !failed ==> Pending(alive, true, deadline, m0, Moment(), Times(tried + 1, share))
    {
      hide Pending, Settled, Found, Evidence;
      gone', called' := gone, called;
      ghost var m := Moment();
      var r := CheckGone(proc, timeout);
      FoundStays(gone, called, old(exitcodes), old(queries), m0.asked, old(asked), exitcodes, queries, asked);
      failed := r.Err?;
      if r.Ok? && r.value {
        FoundOneMore(gone, called, exitcodes, m0.asked, asked, proc, m.asked);
        gone', called' := gone + {proc}, called + [proc];
      } else if r.Ok? && gone == {} {
        PendingStep(alive, tried > 0, deadline, m0, m, Times(tried, share), proc, Moment(), timeout, share);
        assert Times(tried + 1, share) == Times(tried, share) + share;
      }
    }

    /** One turn of the `while alive` loop. `left` is the last value given to
        `timeout`, `called` the callbacks made, and `requested` the sum of the
        timeouts asked for. */
    method Pass(alive: set<Pid>, deadline: Option<real>)
      returns (gone: set<Pid>, left: Option<real>, failed: bool, ghost called: seq<Pid>, ghost requested: real)
      requires alive != {} && EndsOnly()
      requires deadline.Some? ==> now < deadline.value + MAX
      modifies this
      ensures Onward()
      ensures gone <= alive && callbacks == old(callbacks) + called && Found(gone, called, exitcodes, old(asked), asked)
      ensures failed ==> 0 in alive
      ensures 0 !in gone
      ensures requested <= 1.0
      ensures left.Some? <==> deadline.Some?
      ensures deadline.Some? ==> now < deadline.value + MAX
      ensures 0 in alive && !failed ==> deadline.Some? && left.value <= 0.0
      ensures deadline.Some? && left.value <= 0.0 ==> now >= deadline.value
      ensures gone == {} && !failed ==> Pending(alive, true, deadline, old(Moment()), Moment(), 1.0)
      ensures deadline.Some? && old(now) >= deadline.value ==> left.value <= 0.0
    {
      hide Pending, Settled, Found, Turn, Times, Share, EndsOnly, Extends, Seen;
      gone, left, failed, called, requested := {}, None, false, [], 0.0;
      ExtendsNothing(exitcodes, queries);
      var todo := alive;
      var share := Share(|alive|);
      ghost var tried, m0 := 0, Moment();
      StartPending(alive, deadline, m0);
      FoundNone(exitcodes, asked, asked);
      FirstTurn(alive);
      SharesOfOne(|alive|, |alive|);
      while todo != {} && (left.None? || left.value > 0.0)
        invariant Onward() && Turn(alive, todo, gone, tried)
        invariant callbacks == old(callbacks) + called && Found(gone, called, exitcodes, old(asked), asked)
        invariant requested <= Times(tried, share)
        invariant deadline.Some? ==> now < deadline.value + MAX && (tried > 0 ==> left.Some?)
        invariant left.Some? ==> deadline.Some?
        invariant left.Some? && left.value <= 0.0 ==> now >= deadline.value
        invariant left.Some? && left.value > 0.0 ==> old(now) < deadline.value
        invariant !failed
        invariant gone == {} ==> Pending(alive, tried > 0, deadline, m0, Moment(), Times(tried, share))
        decreases |todo|, left.None? || left.value > 0.0
      {
        var proc :| proc in todo;
        NextTurn(alive, todo, gone, tried, proc);
        SharesOfOne(tried + 1, |alive|);
        var timeout := share;
        if deadline.Some? {
          timeout := Min(deadline.value - now, share);
          left := Some(timeout);
        }
        if timeout > 0.0 {
          requested := requested + timeout;
          ghost var codes, q := exitcodes, queries;
          gone, failed, called :=
            TryOne(proc, timeout, gone, called, old(callbacks), alive, deadline, m0, tried, share);
          ExtendsOn(old(exitcodes), old(queries), codes, q, exitcodes, queries);
          if failed {
            return;
          }
          todo := todo - {proc};
          tried := tried + 1;
        }
      }
      LastTurn(alive, todo, gone, tried);
      SharesOfOne(tried, |alive|);
      if todo != {} {
        OutOfTime(alive, tried > 0, deadline, m0, Moment(), Times(tried, share));
      }
    }

    /** `wait_procs`; `last` is a moment since which no time has passed and every
        survivor has been seen alive. The two assumptions make it come to an end:
        a wait that has returned None finds `is_running` True only finitely often,
        and without a timeout every process ends at some time. */
    method WaitProcs(procs: seq<Pid>, timeout: Option<real>, ghost stalls: nat, ghost settled: nat)
      returns (r: Result<(set<Pid>, set<Pid>), Error>, ghost called: seq<Pid>, ghost last: Moment)
      requires EndsOnly()
      requires forall p, k :: p in procs && k >= stalls ==> !isRunning(p, k)
      requires timeout.None? ==> forall p :: p in procs ==> Settled(p, settled)
      modifies this
      ensures Onward()
      ensures r.Err? <==> (timeout.Some? && timeout.value < 0.0) || 0 in procs
      ensures r == Err(ValueError) || r.Ok?
      ensures callbacks == old(callbacks) + called
      ensures r.Ok? ==>
                && (forall p :: p in procs <==> p in r.value.0 || p in r.value.1)
                && r.value.0 !! r.value.1
                && Once(called, r.value.0)
                && (forall p :: p in r.value.0 ==> Evidence(p, exitcodes, old(asked), asked))
                && last.now == now
                && (forall p :: p in r.value.1 ==> Seen(p, last.queries, last.asked, queries, asked))
                && (r.value.1 != {} ==> timeout.Some? && now >= old(now) + timeout.value)
      ensures timeout.Some? ==> InTime(timeout.value, old(now), now)
    {
      hide Settled, Evidence, Once, EndsOnly, Extends, Seen;
      called, last := [], Moment();
      ExtendsNothing(exitcodes, queries);
      if timeout.Some? && timeout.value < 0.0 {
        return Err(ValueError), called, last;
      }
      var all := set p | p in procs;
      var gone, alive, failed;
      gone, alive, failed, called := Rounds(all, timeout, stalls, settled);
      last := Moment();
      if !failed && alive != {} {
        var found;
        ghost var more;
        ghost var codes := exitcodes;
        found, failed, more := LastAttempt(alive);
        ExtendsOn(old(exitcodes), old(queries), codes, last.queries, exitcodes, queries);
        FoundStays(gone, called, codes, last.queries, old(asked), last.asked, exitcodes, queries, asked);
        FoundJoin(gone, called, found, more, exitcodes, old(asked), last.asked, asked);
        called := called + more;
        gone, alive := gone + found, alive - found;
      }
      r := if failed then Err(ValueError) else Ok((gone, alive));
    }

    /** The `while alive` loop. */
    method Rounds(all: set<Pid>, timeout: Option<real>, ghost stalls: nat, ghost settled: nat)
      returns (gone: set<Pid>, alive: set<Pid>, failed: bool, ghost called: seq<Pid>)
      requires EndsOnly() && (timeout.Some? ==> timeout.value >= 0.0)
      requires forall p, k :: p in all && k >= stalls ==> !isRunning(p, k)
      requires timeout.None? ==> forall p :: p in all ==> Settled(p, settled)
      modifies this
      ensures Onward()
      ensures failed ==> 0 in all
      ensures gone !! alive && gone + alive == all && 0 !in gone
      ensures callbacks == old(callbacks) + called && Found(gone, called, exitcodes, old(asked), asked)
      ensures !failed && alive != {} ==> timeout.Some? && now >= old(now) + timeout.value
      ensures timeout.Some? ==> InTime(timeout.value, old(now), now)
    {
      hide Pending, Settled, Found, EndsOnly, Remaining, InTime, Extends;
      gone, alive, failed, called := {}, all, false, [];
      ExtendsNothing(exitcodes, queries);
      var deadline := if timeout.Some? then Some(now + timeout.value) else None;
      var left := timeout;
      FoundNone(exitcodes, asked, asked);
      AtStart(timeout, now);
      while alive != {} && !failed && (left.None? || left.value > 0.0)
        invariant Onward()
        invariant gone !! alive && 0 !in gone && gone + alive == all
        invariant callbacks == old(callbacks) + called && Found(gone, called, exitcodes, old(asked), asked)
        invariant left.None? <==> timeout.None?
        invariant timeout.Some? ==> deadline == Some(old(now) + timeout.value)
        invariant left.Some? && left.value <= 0.0 ==> now >= deadline.value
        invariant left.Some? && left.value > 0.0 ==> timeout.value > 0.0
        invariant timeout.Some? ==> InTime(timeout.value, old(now), now)
        invariant failed ==> 0 in all
        decreases !failed, |alive|, if asked < stalls then stalls - asked else 0,
                  Remaining(deadline, Moment(), settled), left.None? || left.value > 0.0
      {
        ghost var codes, q := exitcodes, queries;
        InTimeMeans(timeout, old(now), now);
        gone, alive, left, failed, called :=
          Round(gone, alive, deadline, called, old(callbacks), old(asked), stalls, settled);
        InTimeMeans(timeout, old(now), now);
        ExtendsOn(old(exitcodes), old(queries), codes, q, exitcodes, queries);
      }
    }

    /** One pass, added to what earlier ones have found. */
    method Round(gone: set<Pid>, alive: set<Pid>, deadline: Option<real>, ghost called: seq<Pid>,
                 ghost before: seq<Pid>, ghost a0: nat, ghost stalls: nat, ghost settled: nat)
      returns (gone': set<Pid>, alive': set<Pid>, left: Option<real>, failed: bool, ghost called': seq<Pid>)
      requires EndsOnly() && alive != {} && gone !! alive && 0 !in gone && a0 <= asked
      requires deadline.Some? ==> now < deadline.value + MAX
      requires forall p, k :: p in alive && k >= stalls ==> !isRunning(p, k)
      requires deadline.None? ==> forall p :: p in alive ==> Settled(p, settled)
      requires callbacks == before + called && Found(gone, called, exitcodes, a0, asked)
      modifies this
      ensures Onward()
      ensures failed ==> 0 in alive
      ensures gone' !! alive' && gone' + alive' == gone + alive && 0 !in gone'
      ensures callbacks == before + called' && Found(gone', called', exitcodes, a0, asked)
      ensures left.None? <==> deadline.None?
      ensures left.Some? && left.value <= 0.0 ==> now >= deadline.value
      ensures deadline.Some? ==> now < deadline.value + MAX
      ensures |alive'| <= |alive|
      ensures |alive'| == |alive| && !failed ==>
                || (old(asked) < asked && old(asked) < stalls)
                || (asked == old(asked)
                    && Remaining(deadline, Moment(), settled) < Remaining(deadline, old(Moment()), settled))
                || (asked == old(asked)
                    && Remaining(deadline, Moment(), settled) == Remaining(deadline, old(Moment()), settled)
                    && left.Some? && left.value <= 0.0)
    {
      hide Pending, Settled, Found, EndsOnly, Remaining, Extends;
      var found;
      ghost var more, requested;
      found, left, failed, more, requested := Pass(alive, deadline);
      FoundStays(gone, called, old(exitcodes), old(queries), a0, old(asked), exitcodes, queries, asked);
      FoundJoin(gone, called, found, more, exitcodes, a0, old(asked), asked);
      Append(before, called, more);
      Move(gone + alive, gone, alive, found);
      called' := called + more;
      if found == {} && !failed {
        PassProgress(alive, deadline, old(Moment()), Moment(), stalls, settled);
      }
      Fewer(alive, found);
      gone', alive' := gone + found, alive - found;
    }

    /** A call with this timeout that began at `start` may be at `now`. */
    static ghost predicate InTime(timeout: real, start: real, now: real) {
      if timeout > 0.0 then now < start + timeout + MAX else now == start
    }

    static lemma AtStart(timeout: Option<real>, now: real)
      ensures timeout.Some? ==> InTime(timeout.value, now, now)
    {
    }

    static lemma InTimeMeans(timeout: Option<real>, start: real, now: real)
      requires timeout.Some? ==> timeout.value > 0.0
      ensures timeout.Some? ==> (InTime(timeout.value, start, now) <==> now < start + timeout.value + MAX)
    {
    }

    /** The last attempt at the survivors, which does not wait any further:
        whoever is left has been seen alive by it. */
    method LastAttempt(alive: set<Pid>) returns (found: set<Pid>, failed: bool, ghost called: seq<Pid>)
      requires EndsOnly()
      modifies this
      ensures Onward() && now == old(now)
      ensures failed <==> 0 in alive
      ensures found <= alive - {0}
      ensures !failed ==> forall p :: p in alive - found ==> Seen(p, old(queries), old(asked), queries, asked)
      ensures callbacks == old(callbacks) + called && Found(found, called, exitcodes, old(asked), asked)
    {
      hide Found, EndsOnly, Extends, Seen;
      found, failed, called := {}, false, [];
      FoundNone(exitcodes, asked, asked);
      ExtendsNothing(exitcodes, queries);
      var todo := alive;
      ghost var kept := {};
      while todo != {}
        invariant alive == todo + found + kept && todo !! found && 0 !in found + kept
        invariant Onward() && now == old(now) && !failed
        invariant callbacks == old(callbacks) + called && Found(found, called, exitcodes, old(asked), asked)
        invariant forall p :: p in kept ==> Seen(p, old(queries), old(asked), queries, asked)
        decreases todo
      {
        var proc :| proc in todo;
        ghost var codes, q := exitcodes, queries;
        found, kept, failed, called := LastTry(proc, found, kept, called, old(callbacks), old(queries), old(asked));
        ExtendsOn(old(exitcodes), old(queries), codes, q, exitcodes, queries);
        if failed {
          return;
        }
        todo := todo - {proc};
      }
    }

    /** One process's turn in the last attempt, which began with query `q0` and
        question `a0`; `kept` are those seen alive before. */
    method LastTry(proc: Pid, found: set<Pid>, ghost kept: set<Pid>, ghost called: seq<Pid>, ghost before: seq<Pid>,
                   ghost q0: nat, ghost a0: nat)
      returns (found': set<Pid>, ghost kept': set<Pid>, failed: bool, ghost called': seq<Pid>)
      requires EndsOnly() && proc !in found && q0 <= queries && a0 <= asked
      requires callbacks == before + called && Found(found, called, exitcodes, a0, asked)
      requires forall p :: p in kept ==> Seen(p, q0, a0, queries, asked)
      modifies this
      ensures Onward() && now == old(now)
      ensures failed <==> proc == 0
      ensures !failed ==> (found' == found + {proc} && kept' == kept) || (found' == found && kept' == kept + {proc})
      ensures callbacks == before + called' && Found(found', called', exitcodes, a0, asked)
      ensures failed ==> found' == found && kept' == kept
      ensures forall p :: p in kept' ==> Seen(p, q0, a0, queries, asked)
    {
      hide Found, Evidence, EndsOnly, Extends, Seen;
      found', kept', called' := found, kept, called;
      ghost var q, a := queries, asked;
      var r := CheckGone(proc, 0.0);
      FoundStays(found, called, old(exitcodes), old(queries), a0, old(asked), exitcodes, queries, asked);
      SeenMore(kept, q0, a0, q, a, queries, asked);
      failed := r.Err?;
      if r.Ok? && r.value {
        FoundOneMore(found, called, exitcodes, a0, asked, proc, a);
        found', called' := found + {proc}, called + [proc];
      } else if r.Ok? {
        SeenSooner(proc, q0, a0, q, a, queries, asked);
        kept' := kept + {proc};
      }
    }

    lemma SeenSooner(pid: Pid, q0: nat, a0: nat, q: nat, a: nat, q': nat, a': nat)
      requires q0 <= q && a0 <= a && Seen(pid, q, a, q', a')
      ensures Seen(pid, q0, a0, q', a')
    {
    }

    /** How many more passes without any process found gone there can be. */
    ghost function Remaining(deadline: Option<real>, m: Moment, settled: nat): nat {
      match deadline
      case Some(d) => if m.now >= d then 0 else (d - m.now).Floor + 1
      case None => if m.queries < settled then settled - m.queries else 0
    }

    lemma PassProgress(alive: set<Pid>, deadline: Option<real>, m0: Moment, m: Moment, stalls: nat, settled: nat)
      requires Pending(alive, true, deadline, m0, m, 1.0)
      requires forall p, k :: p in alive && k >= stalls ==> !isRunning(p, k)
      requires deadline.None? ==> forall p :: p in alive ==> Settled(p, settled)
      ensures m.asked >= m0.asked && (m.asked > m0.asked ==> m0.asked < stalls)
      ensures m.asked == m0.asked ==>
                || Remaining(deadline, m, settled) < Remaining(deadline, m0, settled)
                || (deadline.Some? && m0.now >= deadline.value && Remaining(deadline, m0, settled) == 0
                    && (m.now >= m0.now ==> Remaining(deadline, m, settled) == 0))
    {
    }
  }

  lemma Append(a: seq<Pid>, b: seq<Pid>, c: seq<Pid>)
    ensures a + b + c == a + (b + c)
  {
  }

  lemma Move(all: set<Pid>, gone: set<Pid>, alive: set<Pid>, found: set<Pid>)
    requires gone !! alive && gone + alive == all && found <= alive
    ensures gone + found !! alive - found && gone + found + (alive - found) == all
  {
  }

  lemma Fewer(alive: set<Pid>, found: set<Pid>)
    requires found <= alive
    ensures |alive - found| <= |alive| && (found != {} ==> |alive - found| < |alive|)
  {
  }

  lemma OnceJoin(called: seq<Pid>, gone: set<Pid>, more: seq<Pid>, found: set<Pid>)
    requires Once(called, gone) && Once(more, found) && gone !! found
    ensures Once(called + more, gone + found)
  {
    forall i, j | 0 <= i < |called| && 0 <= j < |more|
      ensures called[i] != more[j]
    {
      assert called[i] in gone && more[j] in found;
    }
  }

  /** `n` equal shares. */
  ghost function Times(n: nat, share: real): real {
    if n == 0 then 0.0 else Times(n - 1, share) + share
  }

  lemma {:induction false} TimesIsProduct(n: nat, share: real)
    ensures Times(n, share) == n as real * share
  {
    if n > 0 {
      TimesIsProduct(n - 1, share);
    }
  }

  /** Within a pass: `tried` processes have had their turn, and `todo` have not. */
  ghost predicate Turn(alive: set<Pid>, todo: set<Pid>, gone: set<Pid>, tried: nat) {
    todo <= alive && gone <= alive - todo - {0} && tried + |todo| == |alive| && (0 in alive ==> 0 in todo)
  }

  lemma FirstTurn(alive: set<Pid>)
    ensures Turn(alive, alive, {}, 0)
  {
  }

  lemma NextTurn(alive: set<Pid>, todo: set<Pid>, gone: set<Pid>, tried: nat, p: Pid)
    requires Turn(alive, todo, gone, tried) && p in todo
    ensures p in alive - gone && gone <= alive - {0} && tried < |alive| && |todo - {p}| < |todo|
    ensures p != 0 ==> Turn(alive, todo - {p}, gone, tried + 1) && Turn(alive, todo - {p}, gone + {p}, tried + 1)
  {
    assert gone + {p} <= alive;
  }

  lemma LastTurn(alive: set<Pid>, todo: set<Pid>, gone: set<Pid>, tried: nat)
    requires Turn(alive, todo, gone, tried)
    ensures gone <= alive && 0 !in gone && tried <= |alive| && (todo == {} ==> tried == |alive| && 0 !in alive)
  {
  }

  /** What each of `n` processes may wait for within one pass. */
  function Share(n: nat): real
    requires n > 0
  {
    1.0 / n as real
  }

  /** `n` of them make up one second, fewer no more than that. */
  lemma {:induction false} SharesOfOne(k: nat, n: nat)
    requires n > 0 && k <= n
    ensures Share(n) > 0.0
    ensures Times(n, Share(n)) == 1.0 && Times(k, Share(n)) <= 1.0
    ensures Times(0, Share(n)) == 0.0 && (k > 0 ==> Times(k, Share(n)) == Times(k - 1, Share(n)) + Share(n))
    decreases n - k
  {
    TimesIsProduct(n, Share(n));
    assert n as real * Share(n) == 1.0;
    if k < n {
      SharesOfOne(k + 1, n);
    }
  }

  ghost predicate Once(called: seq<Pid>, gone: set<Pid>) {
    && (forall i, j :: 0 <= i < j < |called| ==> called[i] != called[j])
    && (forall p :: p in called <==> p in gone)
  }
}
