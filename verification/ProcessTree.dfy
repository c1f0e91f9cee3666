/** One snapshot of the process table, and what it means to descend from a
    process in it. */
module ProcessTable {
  import opened Wrappers

  type Pid = nat

  datatype Error = NoSuchProcess | AccessDenied | ZombieProcess

  /** `ppid` is what `_ppid_map()` returned and `order` its insertion order; `age`
      answers `Process(pid).create_time()` for any PID. */
  datatype Snapshot = Snapshot(order: seq<Pid>, ppid: map<Pid, Pid>, age: Pid -> Result<int, Error>)

  ghost predicate NoDup(q: seq<Pid>) {
    forall i, j :: 0 <= i < j < |q| ==> q[i] != q[j]
  }

  /** `a` comes before `b`. */
  ghost predicate Before(q: seq<Pid>, a: Pid, b: Pid) {
    exists i, j :: 0 <= i < j < |q| && q[i] == a && q[j] == b
  }

  lemma BeforeNext(q: seq<Pid>, a: Pid, n: nat)
    requires n < |q| && a in q[..n]
    ensures Before(q, a, q[n])
  {
    var i :| 0 <= i < n && q[..n][i] == a;
    assert q[i] == a;
  }

  lemma NotBothBefore(q: seq<Pid>, a: Pid, b: Pid)
    requires NoDup(q) && Before(q, a, b)
    ensures a != b && !Before(q, b, a)
  {
  }

  ghost predicate Valid(s: Snapshot) {
    NoDup(s.order) && forall p :: p in s.order <==> p in s.ppid
  }

  predicate Edge(s: Snapshot, parent: Pid, child: Pid) {
    child in s.ppid && s.ppid[child] == parent
  }

  /** The process exists and was not created before `ctime`. */
  predicate InTime(s: Snapshot, ctime: int, pid: Pid) {
    s.age(pid).Ok? && ctime <= s.age(pid).value
  }

  predicate Denied(s: Snapshot, pid: Pid) {
    s.age(pid) == Err(AccessDenied)
  }

  /** `path` leads from `root` down to its last element, one parent-child edge at
      a time, through live processes no older than `ctime`. */
  ghost predicate Path(s: Snapshot, root: Pid, ctime: int, path: seq<Pid>)
    decreases |path|
  {
    var n := |path| - 1;
    && path != []
    && InTime(s, ctime, path[n])
    && if n == 0 then Edge(s, root, path[0])
       else Edge(s, path[n - 1], path[n]) && Path(s, root, ctime, path[..n])
  }

  ghost predicate Descends(s: Snapshot, root: Pid, ctime: int, pid: Pid) {
    exists path :: Path(s, root, ctime, path) && path[|path| - 1] == pid
  }

  /** The processes whose children a recursive search has to look at. */
  ghost predicate Visited(s: Snapshot, root: Pid, ctime: int, pid: Pid) {
    pid == root || Descends(s, root, ctime, pid)
  }

  lemma DescendsStep(s: Snapshot, root: Pid, ctime: int, parent: Pid, child: Pid)
    requires Visited(s, root, ctime, parent) && Edge(s, parent, child) && InTime(s, ctime, child)
    ensures Descends(s, root, ctime, child)
  {
    if parent == root {
      assert Path(s, root, ctime, [child]);
    } else {
      var path :| Path(s, root, ctime, path) && path[|path| - 1] == parent;
      var longer := path + [child];
      assert longer[..|longer| - 1] == path;
      assert Path(s, root, ctime, longer);
    }
  }

  /** The children of `p` among `order`, in that order. */
  function Kids(order: seq<Pid>, ppid: map<Pid, Pid>, p: Pid): seq<Pid> {
    if order == [] then []
    else
      var rest, c := Kids(order[..|order| - 1], ppid, p), order[|order| - 1];
      if c in ppid && ppid[c] == p then rest + [c] else rest
  }

  lemma {:induction false} KidsInOrder(order: seq<Pid>, ppid: map<Pid, Pid>, p: Pid, i: nat, j: nat)
    requires i < j < |Kids(order, ppid, p)|
    ensures Before(order, Kids(order, ppid, p)[i], Kids(order, ppid, p)[j])
    decreases |order|
  {
    var n := |order| - 1;
    var kids, rest := Kids(order, ppid, p), Kids(order[..n], ppid, p);
    if j < |rest| {
      KidsInOrder(order[..n], ppid, p, i, j);
    } else {
      KidsFrom(order[..n], ppid, p, i);
      var k :| 0 <= k < n && order[..n][k] == kids[i];
      assert order[k] == kids[i] && order[n] == kids[j];
    }
  }

  lemma {:induction false} KidsFrom(order: seq<Pid>, ppid: map<Pid, Pid>, p: Pid, i: nat)
    requires i < |Kids(order, ppid, p)|
    ensures Kids(order, ppid, p)[i] in order
    decreases |order|
  {
    var n := |order| - 1;
    if i < |Kids(order[..n], ppid, p)| {
      KidsFrom(order[..n], ppid, p, i);
    }
  }

  lemma {:induction false} KidsExactly(order: seq<Pid>, ppid: map<Pid, Pid>, p: Pid)
    requires NoDup(order)
    ensures NoDup(Kids(order, ppid, p))
    ensures forall c :: c in Kids(order, ppid, p) <==> c in order && c in ppid && ppid[c] == p
  {
    if order != [] {
      var n := |order| - 1;
      assert order == order[..n] + [order[n]];
      KidsExactly(order[..n], ppid, p);
    }
  }
}

/** `Process.children`. */
module Children {
  import opened Wrappers
  import opened ProcessTable

  /** `reverse_ppid_map`: every PID's children. */
  method ReverseMap(s: Snapshot) returns (rev: map<Pid, seq<Pid>>)
    requires Valid(s)
    ensures forall p :: Kids(s.order, s.ppid, p) == if p in rev then rev[p] else []
  {
    rev := map[];
    for n := 0 to |s.order|
      invariant forall p :: Kids(s.order[..n], s.ppid, p) == if p in rev then rev[p] else []
    {
      var pid := s.order[n];
      var ppid := s.ppid[pid];
      assert s.order[..n + 1][..n] == s.order[..n];
      rev := rev[ppid := (if ppid in rev then rev[ppid] else []) + [pid]];
    }
    assert s.order[..|s.order|] == s.order;
  }

  /** Every process comes after its own parent, unless that is the root. */
  ghost predicate ParentsFirst(s: Snapshot, root: Pid, ret: seq<Pid>) {
    forall i :: 0 <= i < |ret| ==> ParentBefore(s, root, ret, i)
  }

  ghost predicate ParentBefore(s: Snapshot, root: Pid, ret: seq<Pid>, i: nat)
    requires i < |ret|
  {
    ret[i] in s.ppid && (s.ppid[ret[i]] == root || s.ppid[ret[i]] in ret[..i])
  }

  /** What the search keeps. `seen` are the PIDs whose children have been looked
      at, all of them except those of `now`, where the first `done` have. */
  ghost predicate Inv(s: Snapshot, root: Pid, ctime: int, seen: set<Pid>, stack: seq<Pid>, ret: seq<Pid>,
                      probed: seq<Pid>, now: Option<Pid>, done: nat) {
    && (forall p :: p in stack || p in seen ==> p == root || p in ret)
    && (forall p :: p == root || p in ret ==> p in seen || p in stack)
    && (forall c :: c in probed <==> Looked(s, seen, now, done, c))
    && (forall c :: c in ret <==> c in probed && InTime(s, ctime, c))
    && (forall c :: c in probed ==> !Denied(s, c))
    && (forall c :: c in ret ==> Descends(s, root, ctime, c))
    && NoDup(probed) && NoDup(ret)
  }

  /** Children of one process come out next to each other. */
  ghost predicate SiblingsTogether(s: Snapshot, ret: seq<Pid>) {
    forall i, j, k :: 0 <= i < j < k < |ret| && Siblings(s, ret[i], ret[k]) ==> Siblings(s, ret[i], ret[j])
  }

  predicate Siblings(s: Snapshot, a: Pid, b: Pid) {
    a in s.ppid && b in s.ppid && s.ppid[a] == s.ppid[b]
  }

  /** Children of one process come out in the order of the parent map. */
  ghost predicate SiblingsInOrder(s: Snapshot, ret: seq<Pid>) {
    forall i, j :: 0 <= i < j < |ret| && Siblings(s, ret[i], ret[j]) ==> Before(s.order, ret[i], ret[j])
  }

  /** What the search keeps about the order; the children of `now` come last. */
  ghost predicate Ordered(s: Snapshot, root: Pid, ret: seq<Pid>, now: Option<Pid>) {
    && ParentsFirst(s, root, ret)
    && SiblingsTogether(s, ret)
    && SiblingsInOrder(s, ret)
    && (now.Some? ==>
          forall i, j :: 0 <= i < j < |ret| && Edge(s, now.value, ret[i]) ==> Edge(s, now.value, ret[j]))
  }

  lemma OrderedStep(s: Snapshot, root: Pid, ret: seq<Pid>, now: Pid, c: Pid)
    requires Ordered(s, root, ret, Some(now)) && Edge(s, now, c) && (now == root || now in ret)
    requires forall d :: d in ret && Edge(s, now, d) ==> Before(s.order, d, c)
    ensures Ordered(s, root, ret + [c], Some(now))
  {
    var ret' := ret + [c];
    assert ret'[..|ret|] == ret;
    forall i | 0 <= i < |ret|
      ensures ParentBefore(s, root, ret', i)
    {
      assert ParentBefore(s, root, ret, i);
      assert ret'[..i] == ret[..i];
    }
    assert ParentBefore(s, root, ret', |ret|);
  }

  lemma OrderedTurn(s: Snapshot, root: Pid, ctime: int, seen: set<Pid>, stack: seq<Pid>, ret: seq<Pid>,
                    probed: seq<Pid>, pid: Pid)
    requires Inv(s, root, ctime, seen, stack, ret, probed, None, 0) && pid !in seen && Ordered(s, root, ret, None)
    ensures Ordered(s, root, ret, Some(pid))
  {
    forall c | c in ret
      ensures !Edge(s, pid, c)
    {
      assert Looked(s, seen, None, 0, c);
    }
  }

  ghost predicate Looked(s: Snapshot, seen: set<Pid>, now: Option<Pid>, done: nat, c: Pid) {
    && c in s.ppid && s.ppid[c] in seen
    && (now == Some(s.ppid[c]) ==>
          var kids := Kids(s.order, s.ppid, s.ppid[c]); done <= |kids| && c in kids[..done])
  }

  /** One child process has been looked at. */
  lemma LookAt(s: Snapshot, root: Pid, ctime: int, seen: set<Pid>, stack: seq<Pid>, ret: seq<Pid>,
               probed: seq<Pid>, now: Pid, done: nat)
    requires Valid(s) && Inv(s, root, ctime, seen, stack, ret, probed, Some(now), done)
    requires now in seen && done < |Kids(s.order, s.ppid, now)|
    requires !Denied(s, Kids(s.order, s.ppid, now)[done])
    ensures var c := Kids(s.order, s.ppid, now)[done];
            var found := if InTime(s, ctime, c) then [c] else [];
            && Inv(s, root, ctime, seen, stack + found, ret + found, probed + [c], Some(now), done + 1)
            && Edge(s, now, c) && (now == root || now in ret)
  {
    hide InTime, Denied, Descends, Kids;
    KidsExactly(s.order, s.ppid, now);
    var kids := Kids(s.order, s.ppid, now);
    var c := kids[done];
    assert kids[..done + 1] == kids[..done] + [c];
    assert c !in kids[..done];
    assert !Looked(s, seen, Some(now), done, c);
    forall d
      ensures d in probed + [c] <==> Looked(s, seen, Some(now), done + 1, d)
    {
      assert d in probed <==> Looked(s, seen, Some(now), done, d);
    }
    if InTime(s, ctime, c) {
      DescendsStep(s, root, ctime, now, c);
    } else {
      assert ret + [] == ret && stack + [] == stack;
    }
  }

  /** Turning to an unseen PID, and being done with it. */
  lemma TurnTo(s: Snapshot, root: Pid, ctime: int, seen: set<Pid>, stack: seq<Pid>, ret: seq<Pid>,
               probed: seq<Pid>, pid: Pid)
    requires Valid(s) && Inv(s, root, ctime, seen, stack + [pid], ret, probed, None, 0) && pid !in seen
    ensures Inv(s, root, ctime, seen + {pid}, stack, ret, probed, Some(pid), 0)
  {
  }

  lemma DoneWith(s: Snapshot, root: Pid, ctime: int, seen: set<Pid>, stack: seq<Pid>, ret: seq<Pid>,
                 probed: seq<Pid>, now: Pid)
    requires Valid(s) && Inv(s, root, ctime, seen, stack, ret, probed, Some(now), |Kids(s.order, s.ppid, now)|)
    ensures Inv(s, root, ctime, seen, stack, ret, probed, None, 0)
  {
    KidsExactly(s.order, s.ppid, now);
    var kids := Kids(s.order, s.ppid, now);
    assert kids[..|kids|] == kids;
    forall c
      ensures c in probed <==> Looked(s, seen, None, 0, c)
    {
      assert c in probed <==> Looked(s, seen, Some(now), |kids|, c);
    }
  }

  /** With the stack empty, nothing that can be reached has been left out. */
  lemma {:induction false} Complete(s: Snapshot, root: Pid, ctime: int, seen: set<Pid>, ret: seq<Pid>,
                                    probed: seq<Pid>, path: seq<Pid>)
    requires Inv(s, root, ctime, seen, [], ret, probed, None, 0) && Path(s, root, ctime, path)
    ensures path[|path| - 1] in ret
    decreases |path|
  {
    var n := |path| - 1;
    if n > 0 {
      Complete(s, root, ctime, seen, ret, probed, path[..n]);
      assert path[..n][n - 1] == path[n - 1];
    }
    assert Looked(s, seen, None, 0, path[n]);
  }

  lemma Start(s: Snapshot, root: Pid, ctime: int)
    ensures Inv(s, root, ctime, {}, [root], [], [], None, 0) && Ordered(s, root, [], None)
  {
  }

  lemma PopSeen(s: Snapshot, root: Pid, ctime: int, seen: set<Pid>, stack: seq<Pid>, ret: seq<Pid>,
                probed: seq<Pid>, pid: Pid)
    requires Inv(s, root, ctime, seen, stack + [pid], ret, probed, None, 0) && pid in seen
    ensures Inv(s, root, ctime, seen, stack, ret, probed, None, 0)
  {
  }

  lemma InUniverse(s: Snapshot, root: Pid, ctime: int, seen: set<Pid>, stack: seq<Pid>, ret: seq<Pid>,
                   probed: seq<Pid>, pid: Pid)
    requires Inv(s, root, ctime, seen, stack, ret, probed, None, 0) && pid in stack
    ensures pid == root || pid in s.ppid
  {
  }

  lemma FoundDenied(s: Snapshot, root: Pid, ctime: int, seen: set<Pid>, stack: seq<Pid>, ret: seq<Pid>,
                    probed: seq<Pid>, now: Pid, done: nat)
    requires Valid(s) && Inv(s, root, ctime, seen, stack, ret, probed, Some(now), done)
    requires now in seen && done < |Kids(s.order, s.ppid, now)|
    requires Denied(s, Kids(s.order, s.ppid, now)[done])
    ensures NoDup(probed + [Kids(s.order, s.ppid, now)[done]]) && forall p :: p in probed ==> !Denied(s, p)
    ensures AnyDenied(s, root, ctime)
  {
    var kids := Kids(s.order, s.ppid, now);
    var c := kids[done];
    KidsExactly(s.order, s.ppid, now);
    assert !Looked(s, seen, Some(now), done, c) by {
      assert c !in kids[..done];
    }
    assert c in s.ppid && Visited(s, root, ctime, s.ppid[c]) && Denied(s, c);
  }

  /** The children of `now` that have been listed come before the next one. */
  lemma EarlierKids(s: Snapshot, root: Pid, ctime: int, seen: set<Pid>, stack: seq<Pid>, ret: seq<Pid>,
                    probed: seq<Pid>, now: Pid, done: nat)
    requires Inv(s, root, ctime, seen, stack, ret, probed, Some(now), done)
    requires now in seen && done < |Kids(s.order, s.ppid, now)|
    ensures forall d :: d in ret && Edge(s, now, d) ==> Before(s.order, d, Kids(s.order, s.ppid, now)[done])
  {
    hide Kids, Before;
    var kids := Kids(s.order, s.ppid, now);
    forall d | d in ret && Edge(s, now, d)
      ensures Before(s.order, d, kids[done])
    {
      assert Looked(s, seen, Some(now), done, d);
      var i :| 0 <= i < done && kids[..done][i] == d;
      KidsInOrder(s.order, s.ppid, now, i, done);
    }
  }

  /** The search has to read a creation time it may not read. */
  ghost predicate AnyDenied(s: Snapshot, root: Pid, ctime: int) {
    exists c :: c in s.ppid && Visited(s, root, ctime, s.ppid[c]) && Denied(s, c)
  }

  lemma Finished(s: Snapshot, root: Pid, ctime: int, seen: set<Pid>, ret: seq<Pid>, probed: seq<Pid>)
    requires Inv(s, root, ctime, seen, [], ret, probed, None, 0)
    ensures NoDup(probed) && NoDup(ret) && forall c :: c in probed ==> !Denied(s, c)
    ensures forall c :: c in ret <==> Descends(s, root, ctime, c)
    ensures forall c :: c in probed <==> c in s.ppid && Visited(s, root, ctime, s.ppid[c])
    ensures !AnyDenied(s, root, ctime)
  {
    forall c
      ensures c in ret <==> Descends(s, root, ctime, c)
    {
      if Descends(s, root, ctime, c) {
        var path :| Path(s, root, ctime, path) && path[|path| - 1] == c;
        Complete(s, root, ctime, seen, ret, probed, path);
      }
    }
    forall c
      ensures c in probed <==> c in s.ppid && Visited(s, root, ctime, s.ppid[c])
    {
      assert c in probed <==> Looked(s, seen, None, 0, c);
    }
  }

  // ----- when the result is in the order of the method's own example

  /** Every listed process that has listed children is followed at once by one of
      them. The root, which a cycle can list as well, is left out of account. */
  ghost predicate DepthFirst(s: Snapshot, root: Pid, ret: seq<Pid>) {
    forall i, c :: 0 <= i < |ret| && ret[i] != root && c in ret && Edge(s, ret[i], c) ==>
                     i + 1 < |ret| && Edge(s, ret[i], ret[i + 1])
  }

  /** Among the descendants, none that has children of its own comes before a
      sibling in the parent map. */
  ghost predicate OneBranch(s: Snapshot, root: Pid, ctime: int) {
    forall a, b, c ::
      && Descends(s, root, ctime, a) && Descends(s, root, ctime, b) && Descends(s, root, ctime, c)
      && a != root && Siblings(s, a, b) && Before(s.order, a, b)
      ==> !Edge(s, a, c)
  }

  /** The same of a list: none that has listed children has a later sibling. */
  ghost predicate LastBranches(s: Snapshot, root: Pid, ret: seq<Pid>) {
    forall i, j, c :: 0 <= i < j < |ret| && ret[i] != root && Siblings(s, ret[i], ret[j]) && c in ret ==>
                        !Edge(s, ret[i], c)
  }

  lemma NotOwnParent(s: Snapshot, root: Pid, ret: seq<Pid>, i: nat)
    requires NoDup(ret) && ParentsFirst(s, root, ret) && i < |ret| && ret[i] != root
    ensures !Edge(s, ret[i], ret[i])
  {
    assert ParentBefore(s, root, ret, i);
  }

  /** Then whatever comes next is a child of the one before, or its sibling. */
  lemma {:induction false} NextOrSibling(s: Snapshot, root: Pid, ret: seq<Pid>, i: nat)
    requires NoDup(ret) && ParentsFirst(s, root, ret) && SiblingsTogether(s, ret) && LastBranches(s, root, ret)
    requires i + 1 < |ret|
    ensures Edge(s, ret[i], ret[i + 1]) || Siblings(s, ret[i], ret[i + 1])
    decreases i
  {
    var y := ret[i + 1];
    assert ParentBefore(s, root, ret, i + 1);
    var p := s.ppid[y];
    if p != ret[i] {
      var first := 0;
      if p == root {
        assert ParentBefore(s, root, ret, 0);
      } else {
        var h :| 0 <= h < i + 1 && ret[..i + 1][h] == p;
        NextOrSibling(s, root, ret, h);
        assert y in ret && Edge(s, ret[h], y);
        assert Edge(s, ret[h], ret[h + 1]);
        first := h + 1;
      }
      assert Siblings(s, ret[first], y);
    }
  }

  lemma FollowedAtOnce(s: Snapshot, root: Pid, ret: seq<Pid>, i: nat, c: Pid)
    requires NoDup(ret) && ParentsFirst(s, root, ret) && SiblingsTogether(s, ret) && LastBranches(s, root, ret)
    requires i < |ret| && ret[i] != root && c in ret && Edge(s, ret[i], c)
    ensures i + 1 < |ret| && Edge(s, ret[i], ret[i + 1])
  {
    var k :| 0 <= k < |ret| && ret[k] == c;
    assert ParentBefore(s, root, ret, k);
    NextOrSibling(s, root, ret, i);
  }

  lemma NoLaterSibling(s: Snapshot, root: Pid, ret: seq<Pid>, i: nat, j: nat, c: Pid)
    requires NoDup(ret) && ParentsFirst(s, root, ret) && SiblingsTogether(s, ret) && DepthFirst(s, root, ret)
    requires i < j < |ret| && ret[i] != root && Siblings(s, ret[i], ret[j]) && c in ret
    ensures !Edge(s, ret[i], c)
  {
    NotOwnParent(s, root, ret, i);
    assert Siblings(s, ret[i], ret[i + 1]);
  }

  /** Where the result is depth-first, all that follows a process with listed
      children descends from it: its subtree comes next, with no gap. */
  lemma {:induction false} SubtreeFollows(s: Snapshot, root: Pid, ctime: int, ret: seq<Pid>, i: nat, j: nat, c: Pid)
    requires NoDup(ret) && ParentsFirst(s, root, ret) && SiblingsTogether(s, ret) && DepthFirst(s, root, ret)
    requires i < j < |ret| && ret[i] != root && c in ret && Edge(s, ret[i], c)
    requires forall p :: p in ret ==> InTime(s, ctime, p)
    ensures ret[j] in s.ppid && Visited(s, ret[i], ctime, s.ppid[ret[j]]) && Descends(s, ret[i], ctime, ret[j])
    decreases j
  {
    hide Descends;
    if j > i + 1 {
      SubtreeFollows(s, root, ctime, ret, i, j - 1, c);
      forall a, b, d | 0 <= a < b < |ret| && ret[a] != root && Siblings(s, ret[a], ret[b]) && d in ret
        ensures !Edge(s, ret[a], d)
      {
        NoLaterSibling(s, root, ret, a, b, d);
      }
      NextOrSibling(s, root, ret, j - 1);
    }
    DescendsStep(s, ret[i], ctime, s.ppid[ret[j]], ret[j]);
  }

  /** A result of the search is depth-first exactly when in the parent map no
      descendant with children of its own comes before a sibling. */
  lemma DepthFirstExactly(s: Snapshot, root: Pid, ctime: int, ret: seq<Pid>)
    requires Valid(s) && NoDup(ret) && forall c :: c in ret <==> Descends(s, root, ctime, c)
    requires ParentsFirst(s, root, ret) && SiblingsTogether(s, ret) && SiblingsInOrder(s, ret)
    ensures DepthFirst(s, root, ret) <==> OneBranch(s, root, ctime)
  {
    hide Descends, Edge, Siblings, ParentsFirst, SiblingsTogether;
    if OneBranch(s, root, ctime) {
      assert LastBranches(s, root, ret);
      forall i, c | 0 <= i < |ret| && ret[i] != root && c in ret && Edge(s, ret[i], c)
        ensures i + 1 < |ret| && Edge(s, ret[i], ret[i + 1])
      {
        FollowedAtOnce(s, root, ret, i, c);
      }
    }
    if DepthFirst(s, root, ret) {
      forall a, b, c |
        && Descends(s, root, ctime, a) && Descends(s, root, ctime, b) && Descends(s, root, ctime, c)
        && a != root && Siblings(s, a, b) && Before(s.order, a, b)
        ensures !Edge(s, a, c)
      {
        var i :| 0 <= i < |ret| && ret[i] == a;
        var j :| 0 <= j < |ret| && ret[j] == b;
        InMapOrder(s, ret, i, j);
        NoLaterSibling(s, root, ret, i, j, c);
      }
    }
  }

  lemma InMapOrder(s: Snapshot, ret: seq<Pid>, i: nat, j: nat)
    requires Valid(s) && SiblingsInOrder(s, ret) && i < |ret| && j < |ret|
    requires Siblings(s, ret[i], ret[j]) && Before(s.order, ret[i], ret[j])
    ensures i < j
  {
    hide Before;
    NotBothBefore(s.order, ret[i], ret[j]);
    assert Siblings(s, ret[j], ret[i]);
  }

  /** `children(recursive=True)`, given the root's own creation time. `probed`
      lists the PIDs whose creation time was read, in that order. */
  method Search(s: Snapshot, root: Pid, ctime: int) returns (r: Result<seq<Pid>, Error>, ghost probed: seq<Pid>)
    requires Valid(s)
    ensures NoDup(probed)
    ensures r.Ok? ==> forall c :: c in r.value <==> Descends(s, root, ctime, c)
    ensures r.Ok? ==> NoDup(r.value) && ParentsFirst(s, root, r.value)
    ensures r.Ok? ==> SiblingsTogether(s, r.value) && SiblingsInOrder(s, r.value)
    ensures r.Ok? ==> (DepthFirst(s, root, r.value) <==> OneBranch(s, root, ctime))
    ensures r.Ok? ==> forall c :: c in probed <==> c in s.ppid && Visited(s, root, ctime, s.ppid[c])
    ensures r.Err? <==> AnyDenied(s, root, ctime)
    ensures r.Err? ==> r.error == AccessDenied && probed != [] && Denied(s, probed[|probed| - 1])
    ensures forall i :: 0 <= i < |probed| && Denied(s, probed[i]) ==> r.Err? && i == |probed| - 1
  {
    hide Inv, Kids, Descends, Valid, ParentsFirst, SiblingsTogether, SiblingsInOrder, Before, DepthFirst, OneBranch;
    var rev := ReverseMap(s);
    var seen: set<Pid>, stack, ret := {}, [root], [];
    probed := [];
    Start(s, root, ctime);
    ghost var universe := s.ppid.Keys + {root};
    while stack != []
      invariant Inv(s, root, ctime, seen, stack, ret, probed, None, 0)
      invariant Ordered(s, root, ret, None)
      invariant seen <= universe
      decreases universe - seen, |stack|
    {
      var pid := stack[|stack| - 1];
      assert stack == stack[..|stack| - 1] + [pid];
      stack := stack[..|stack| - 1];
      if pid in seen {
        PopSeen(s, root, ctime, seen, stack, ret, probed, pid);
        continue;
      }
      InUniverse(s, root, ctime, seen, stack + [pid], ret, probed, pid);
      OrderedTurn(s, root, ctime, seen, stack + [pid], ret, probed, pid);
      TurnTo(s, root, ctime, seen, stack, ret, probed, pid);
      ghost var seen0 := seen;
      seen := seen + {pid};
      assert universe - seen < universe - seen0 by {
        assert pid in universe - seen0;
      }
      var kids := if pid in rev then rev[pid] else [];
      assert kids == Kids(s.order, s.ppid, pid);
      for i := 0 to |kids|
        invariant Inv(s, root, ctime, seen, stack, ret, probed, Some(pid), i)
        invariant Ordered(s, root, ret, Some(pid))
      {
        var child := kids[i];
        var age := s.age(child);
        if age == Err(AccessDenied) {
          FoundDenied(s, root, ctime, seen, stack, ret, probed, pid, i);
          return Err(AccessDenied), probed + [child];
        }
        EarlierKids(s, root, ctime, seen, stack, ret, probed, pid, i);
        LookAt(s, root, ctime, seen, stack, ret, probed, pid, i);
        probed := probed + [child];
        if age.Ok? && ctime <= age.value {
          OrderedStep(s, root, ret, pid, child);
          ret := ret + [child];
          stack := stack + [child];
        } else {
          assert stack + [] == stack && ret + [] == ret;
        }
      }
      DoneWith(s, root, ctime, seen, stack, ret, probed, pid);
    }
    Finished(s, root, ctime, seen, ret, probed);
    DepthFirstExactly(s, root, ctime, ret);
    r := Ok(ret);
  }

  /** `children(recursive=False)`, given the root's own creation time. */
  method DirectChildren(s: Snapshot, root: Pid, ctime: int) returns (r: Result<seq<Pid>, Error>)
    requires Valid(s)
    ensures r.Ok? ==> NoDup(r.value) && forall c :: c in r.value <==> Edge(s, root, c) && InTime(s, ctime, c)
    ensures r.Ok? ==> forall i, j :: 0 <= i < j < |r.value| ==> Before(s.order, r.value[i], r.value[j])
    ensures r.Err? <==> exists c :: Edge(s, root, c) && Denied(s, c)
    ensures r.Err? ==> r.error == AccessDenied
  {
    hide Before;
    var ret := [];
    for n := 0 to |s.order|
      invariant forall c :: c in ret <==> c in s.order[..n] && Edge(s, root, c) && InTime(s, ctime, c)
      invariant forall c :: c in s.order[..n] && Edge(s, root, c) ==> !Denied(s, c)
      invariant NoDup(ret)
      invariant forall i, j :: 0 <= i < j < |ret| ==> Before(s.order, ret[i], ret[j])
    {
      var pid := s.order[n];
      assert s.order[..n + 1] == s.order[..n] + [pid] && pid !in s.order[..n];
      if s.ppid[pid] == root {
        var age := s.age(pid);
        if age == Err(AccessDenied) {
          assert Edge(s, root, pid) && Denied(s, pid);
          return Err(AccessDenied);
        }
        if age.Ok? && ctime <= age.value {
          forall i | 0 <= i < |ret|
            ensures Before(s.order, ret[i], pid)
          {
            assert ret[i] in ret;
            BeforeNext(s.order, ret[i], n);
          }
          ret := ret + [pid];
        }
      }
    }
    assert s.order[..|s.order|] == s.order;
    r := Ok(ret);
  }

  lemma FlatOrder(s: Snapshot, root: Pid, ret: seq<Pid>)
    requires forall c :: c in ret ==> Edge(s, root, c)
    requires forall i, j :: 0 <= i < j < |ret| ==> Before(s.order, ret[i], ret[j])
    ensures ParentsFirst(s, root, ret) && SiblingsTogether(s, ret) && SiblingsInOrder(s, ret)
  {
    hide Before;
    assert forall i :: 0 <= i < |ret| ==> ret[i] in ret && Edge(s, root, ret[i]);
  }

  /** `reused` is what the check that `children()` begins with finds. */
  method ChildrenOf(s: Snapshot, root: Pid, recursive: bool, reused: bool) returns (r: Result<seq<Pid>, Error>)
    requires Valid(s)
    ensures reused ==> r == Err(NoSuchProcess)
    ensures !reused && s.age(root).Err? ==> r == Err(s.age(root).error)
    ensures !reused && s.age(root).Ok? && r.Ok? ==>
              && NoDup(r.value) && SiblingsInOrder(s, r.value) && SiblingsTogether(s, r.value)
              && ParentsFirst(s, root, r.value)
              && forall c :: c in r.value <==>
                             if recursive then Descends(s, root, s.age(root).value, c)
                             else Edge(s, root, c) && InTime(s, s.age(root).value, c)
    ensures !reused && s.age(root).Ok? && r.Ok? && recursive ==>
              (DepthFirst(s, root, r.value) <==> OneBranch(s, root, s.age(root).value))
    ensures !reused && s.age(root).Ok? && r.Err? ==> r.error == AccessDenied
    ensures !reused && s.age(root).Ok? ==>
              (r.Err? <==> if recursive then AnyDenied(s, root, s.age(root).value)
                           else exists c :: Edge(s, root, c) && Denied(s, c))
  {
    hide Descends, DepthFirst, OneBranch, Before;
    if reused {
      return Err(NoSuchProcess);
    }
    var age := s.age(root);
    if age.Err? {
      return Err(age.error);
    }
    if recursive {
      ghost var probed;
      r, probed := Search(s, root, age.value);
    } else {
      r := DirectChildren(s, root, age.value);
      if r.Ok? {
        FlatOrder(s, root, r.value);
      }
    }
  }

  /** So it is never depth-first where a child of the root with a child of its own
      comes before another child of the root. */
  lemma BranchBeforeSibling(s: Snapshot, root: Pid, ctime: int, b: Pid, c: Pid, x: Pid)
    requires Edge(s, root, b) && Edge(s, root, c) && Edge(s, b, x) && b != root && Before(s.order, b, c)
    requires InTime(s, ctime, b) && InTime(s, ctime, c) && InTime(s, ctime, x)
    ensures !OneBranch(s, root, ctime)
  {
    DescendsStep(s, root, ctime, root, b);
    DescendsStep(s, root, ctime, root, c);
    DescendsStep(s, root, ctime, b, x);
    assert Siblings(s, b, c);
  }

  /** That is the case in the method's own example, 1 with children 2, 5 and 6, 2
      with child 3 and 3 with child 4, whose documented order is depth-first. */
  lemma ExampleOrderNotProduced(s: Snapshot, ctime: int, ret: seq<Pid>)
    requires Valid(s) && s.ppid == map[2 := 1, 5 := 1, 6 := 1, 3 := 2, 4 := 3] && Before(s.order, 2, 5)
    requires forall p :: p in s.ppid ==> InTime(s, ctime, p)
    requires NoDup(ret) && forall c :: c in ret <==> Descends(s, 1, ctime, c)
    requires ParentsFirst(s, 1, ret) && SiblingsTogether(s, ret) && SiblingsInOrder(s, ret)
    ensures DepthFirst(s, 1, [2, 3, 4, 5, 6]) && !DepthFirst(s, 1, ret)
  {
    hide Descends, Before, OneBranch, ParentsFirst, SiblingsTogether, SiblingsInOrder;
    BranchBeforeSibling(s, 1, ctime, 2, 5, 3);
    DepthFirstExactly(s, 1, ctime, ret);
  }
}

/** `Process.parent` and `Process.parents`. */
module Parents {
  import opened Wrappers
  import opened ProcessTable

  /** `Process(pid).parent()`; `lowest` is the lowest PID of the system. */
  function Parent(s: Snapshot, lowest: Pid, pid: Pid): Result<Option<Pid>, Error> {
    if pid == lowest then Ok(None)
    else if pid !in s.ppid then Err(NoSuchProcess)
    else match s.age(pid)
      case Err(e) => Err(e)
      case Ok(ctime) =>
        match s.age(s.ppid[pid])
        case Ok(parentTime) => if parentTime <= ctime then Ok(Some(s.ppid[pid])) else Ok(None)
        case Err(AccessDenied) => Err(AccessDenied)
        case Err(_) => Ok(None) // ZombieProcess is a kind of NoSuchProcess
  }

  predicate HasParent(s: Snapshot, lowest: Pid, pid: Pid, parent: Pid) {
    Parent(s, lowest, pid) == Ok(Some(parent))
  }

  /** What ends a chain at `pid`: it is the lowest PID, or its parent is gone, a
      zombie or younger than itself. */
  predicate EndsAt(s: Snapshot, lowest: Pid, pid: Pid) {
    || pid == lowest
    || (&& pid in s.ppid && s.age(pid).Ok?
        && var parent := s.age(s.ppid[pid]);
           || parent == Err(NoSuchProcess) || parent == Err(ZombieProcess)
           || (parent.Ok? && parent.value > s.age(pid).value))
  }

  /** What fails at `pid`: it is not in the table, its own creation time cannot be
      read, or reading its parent's is denied. */
  predicate FailsAt(s: Snapshot, lowest: Pid, pid: Pid, e: Error) {
    && pid != lowest
    && if pid !in s.ppid then e == NoSuchProcess
       else if s.age(pid).Err? then s.age(pid) == Err(e)
       else e == AccessDenied && s.age(s.ppid[pid]) == Err(AccessDenied)
  }

  /** What goes on from `pid`: a parent that is there and no younger. */
  predicate GoesOnAt(s: Snapshot, lowest: Pid, pid: Pid) {
    && pid != lowest && pid in s.ppid && s.age(pid).Ok?
    && s.age(s.ppid[pid]).Ok? && s.age(s.ppid[pid]).value <= s.age(pid).value
  }

  lemma ParentExactly(s: Snapshot, lowest: Pid, pid: Pid)
    ensures Parent(s, lowest, pid) == Ok(None) <==> EndsAt(s, lowest, pid)
    ensures forall e :: Parent(s, lowest, pid) == Err(e) <==> FailsAt(s, lowest, pid, e)
    ensures forall q :: HasParent(s, lowest, pid, q) <==> GoesOnAt(s, lowest, pid) && q == s.ppid[pid]
  {
  }

  /** `chain` lists `pid`'s parent, that one's parent, and so on. */
  ghost predicate Up(s: Snapshot, lowest: Pid, pid: Pid, chain: seq<Pid>)
    decreases |chain|
  {
    chain == [] || (HasParent(s, lowest, pid, chain[0]) && Up(s, lowest, chain[0], chain[1..]))
  }

  /** The same without recursion: each step of the chain is one up the table. */
  ghost predicate Climbs(s: Snapshot, lowest: Pid, pid: Pid, chain: seq<Pid>) {
    forall i :: 0 <= i < |chain| ==> StepUp(s, lowest, Below(pid, chain, i), chain[i])
  }

  predicate StepUp(s: Snapshot, lowest: Pid, pid: Pid, parent: Pid) {
    GoesOnAt(s, lowest, pid) && parent == s.ppid[pid]
  }

  function Below(pid: Pid, chain: seq<Pid>, i: nat): Pid
    requires i < |chain|
  {
    if i == 0 then pid else chain[i - 1]
  }

  lemma {:induction false} UpClimbs(s: Snapshot, lowest: Pid, pid: Pid, chain: seq<Pid>)
    ensures Up(s, lowest, pid, chain) <==> Climbs(s, lowest, pid, chain)
    decreases |chain|
  {
    if chain != [] {
      ParentExactly(s, lowest, pid);
      UpClimbs(s, lowest, chain[0], chain[1..]);
      assert Below(pid, chain, 0) == pid;
      if Climbs(s, lowest, pid, chain) {
        forall i | 0 <= i < |chain[1..]|
          ensures StepUp(s, lowest, Below(chain[0], chain[1..], i), chain[1..][i])
        {
          assert Below(pid, chain, i + 1) == Below(chain[0], chain[1..], i);
        }
      }
      if Up(s, lowest, pid, chain) {
        forall i | 0 <= i < |chain|
          ensures StepUp(s, lowest, Below(pid, chain, i), chain[i])
        {
          if i > 0 {
            assert Below(pid, chain, i) == Below(chain[0], chain[1..], i - 1);
          }
        }
      }
    }
  }

  function Top(pid: Pid, chain: seq<Pid>): Pid {
    if chain == [] then pid else chain[|chain| - 1]
  }

  /** Following parents from `pid` comes to an end. */
  ghost predicate Stops(s: Snapshot, lowest: Pid, pid: Pid) {
    exists chain :: Up(s, lowest, pid, chain) && NoParent(s, lowest, Top(pid, chain))
  }

  predicate NoParent(s: Snapshot, lowest: Pid, pid: Pid) {
    var p := Parent(s, lowest, pid);
    p.Err? || p.value.None?
  }

  /** `reused` is what the check that `ppid()` begins with finds about the handle
      `parents()` is called on; the handles it makes itself are fresh. */
  method ParentsOf(s: Snapshot, lowest: Pid, pid: Pid, reused: bool) returns (r: Result<seq<Pid>, Error>)
    requires (reused && pid != lowest) || Stops(s, lowest, pid)
    ensures reused && pid != lowest ==> r == Err(NoSuchProcess)
    ensures r.Ok? ==> forall q :: q in r.value <==> DescendsInOrder(s, lowest, q, pid)
    ensures r.Ok? ==> Climbs(s, lowest, pid, r.value) && EndsAt(s, lowest, Top(pid, r.value))
    ensures r.Err? && !(reused && pid != lowest) ==>
              exists chain :: Climbs(s, lowest, pid, chain) && FailsAt(s, lowest, Top(pid, chain), r.error)
  {
    hide DescendsInOrder;
    if reused && pid != lowest {
      return Err(NoSuchProcess);
    }
    ghost var whole: seq<Pid> :| Up(s, lowest, pid, whole) && NoParent(s, lowest, Top(pid, whole));
    var parents, proc := [], pid;
    while true
      invariant Up(s, lowest, pid, parents) && proc == Top(pid, parents)
      invariant parents <= whole
      decreases |whole| - |parents|
    {
      var parent := Parent(s, lowest, proc);
      ParentExactly(s, lowest, proc);
      UpClimbs(s, lowest, pid, parents);
      if parent.Err? {
        return Err(parent.error);
      }
      if parent.value.None? {
        forall q
          ensures q in parents <==> DescendsInOrder(s, lowest, q, pid)
        {
          WholeChain(s, lowest, pid, parents, q);
        }
        return Ok(parents);
      }
      NextOfWhole(s, lowest, pid, whole, parents);
      UpAppend(s, lowest, pid, parents, [parent.value.value]);
      parents := parents + [parent.value.value];
      proc := parent.value.value;
    }
  }

  lemma {:induction false} UpAppend(s: Snapshot, lowest: Pid, pid: Pid, a: seq<Pid>, b: seq<Pid>)
    ensures Up(s, lowest, pid, a + b) <==> Up(s, lowest, pid, a) && Up(s, lowest, Top(pid, a), b)
    decreases |a|
  {
    if a == [] {
      assert a + b == b;
    } else {
      assert (a + b)[1..] == a[1..] + b;
      UpAppend(s, lowest, a[0], a[1..], b);
    }
  }

  lemma UpSplit(s: Snapshot, lowest: Pid, pid: Pid, chain: seq<Pid>, n: nat)
    requires Up(s, lowest, pid, chain) && n <= |chain|
    ensures Up(s, lowest, pid, chain[..n]) && Up(s, lowest, Top(pid, chain[..n]), chain[n..])
    ensures n < |chain| ==> HasParent(s, lowest, Top(pid, chain[..n]), chain[n])
  {
    assert chain == chain[..n] + chain[n..];
    UpAppend(s, lowest, pid, chain[..n], chain[n..]);
  }

  /** A chain that is not all of `whole` yet continues with `whole`'s next element. */
  lemma NextOfWhole(s: Snapshot, lowest: Pid, pid: Pid, whole: seq<Pid>, part: seq<Pid>)
    requires Up(s, lowest, pid, whole) && NoParent(s, lowest, Top(pid, whole))
    requires part <= whole && !NoParent(s, lowest, Top(pid, part))
    ensures |part| < |whole| && HasParent(s, lowest, Top(pid, part), whole[|part|])
  {
    assert |part| == |whole| ==> part == whole;
    UpSplit(s, lowest, pid, whole, |part|);
  }

  // ----- against the other direction

  function Age(s: Snapshot, pid: Pid): int {
    if s.age(pid).Ok? then s.age(pid).value else 0
  }

  /** Nobody further up the chain was created later. */
  lemma {:induction false} AgesGoUp(s: Snapshot, lowest: Pid, pid: Pid, chain: seq<Pid>, i: nat, j: nat)
    requires Up(s, lowest, pid, chain) && i <= j < |chain|
    ensures s.age(pid).Ok? && s.age(chain[i]).Ok? && s.age(chain[j]).Ok?
    ensures Age(s, chain[j]) <= Age(s, chain[i]) <= Age(s, pid)
    decreases |chain|
  {
    if i > 0 {
      AgesGoUp(s, lowest, chain[0], chain[1..], i - 1, j - 1);
    } else if j > 0 {
      AgesGoUp(s, lowest, chain[0], chain[1..], 0, j - 1);
    }
  }

  /** Whoever is among `p.parents()` has `p` among its recursive children. */
  lemma {:induction false} ParentsHaveDescendant(s: Snapshot, lowest: Pid, pid: Pid, chain: seq<Pid>, i: nat)
    requires Up(s, lowest, pid, chain) && i < |chain|
    ensures s.age(chain[i]).Ok?
    ensures Descends(s, chain[i], Age(s, chain[i]), pid)
    decreases |chain|
  {
    AgesGoUp(s, lowest, pid, chain, i, i);
    var q := chain[i];
    if i == 0 {
      DescendsStep(s, q, Age(s, q), q, pid);
    } else {
      ParentsHaveDescendant(s, lowest, chain[0], chain[1..], i - 1);
      DescendsStep(s, q, Age(s, q), chain[0], pid);
    }
  }

  /** The converse fails: 1 created at 1, its child 2 at 5, and 2's child 3 at 3. */
  lemma DescendantWithoutParents() returns (s: Snapshot)
    ensures Valid(s) && (forall p :: p in s.ppid <==> s.age(p).Ok?) && (forall p :: p in s.ppid ==> 1 <= p)
    ensures Descends(s, 1, Age(s, 1), 3) && Parent(s, 1, 3) == Ok(None)
  {
    s := Snapshot([1, 2, 3], map[1 := 0, 2 := 1, 3 := 2],
                  (p: Pid) => if p == 1 then Ok(1) else if p == 2 then Ok(5)
                              else if p == 3 then Ok(3) else Err(NoSuchProcess));
    DescendsStep(s, 1, 1, 1, 2);
    DescendsStep(s, 1, 1, 2, 3);
  }

  /** `pid` descends from `q` along a path on which nobody is older than its own
      parent and nobody below `q` is the system's lowest PID. */
  ghost predicate DescendsInOrder(s: Snapshot, lowest: Pid, q: Pid, pid: Pid) {
    s.age(q).Ok? && exists path :: OrderedPath(s, lowest, q, path) && path[|path| - 1] == pid
  }

  ghost predicate OrderedPath(s: Snapshot, lowest: Pid, q: Pid, path: seq<Pid>) {
    && Path(s, q, Age(s, q), path)
    && (forall i, j :: 0 <= i < j < |path| ==> Age(s, path[i]) <= Age(s, path[j]))
    && lowest !in path
  }

  /** The last step of such a path is a step from `pid` to its parent. */
  lemma OrderedPathStep(s: Snapshot, lowest: Pid, q: Pid, path: seq<Pid>, pid: Pid)
    requires s.age(q).Ok? && (path != [] ==> OrderedPath(s, lowest, q, path))
    requires HasParent(s, lowest, pid, Top(q, path))
    ensures OrderedPath(s, lowest, q, path + [pid])
  {
    var longer := path + [pid];
    assert longer[..|path|] == path;
    if path != [] {
      PathLive(s, q, Age(s, q), path, |path| - 1);
    }
  }

  lemma {:induction false} PathLive(s: Snapshot, root: Pid, ctime: int, path: seq<Pid>, i: nat)
    requires Path(s, root, ctime, path) && i < |path|
    ensures InTime(s, ctime, path[i])
    decreases |path|
  {
    if i < |path| - 1 {
      PathLive(s, root, ctime, path[..|path| - 1], i);
    }
  }

  lemma {:induction false} ChainToPath(s: Snapshot, lowest: Pid, pid: Pid, chain: seq<Pid>, q: Pid)
    returns (path: seq<Pid>)
    requires Up(s, lowest, pid, chain) && chain != [] && Top(pid, chain) == q
    ensures s.age(q).Ok? && OrderedPath(s, lowest, q, path) && path[|path| - 1] == pid
    decreases |chain|
  {
    AgesGoUp(s, lowest, pid, chain, |chain| - 1, |chain| - 1);
    path := [];
    if |chain| > 1 {
      path := ChainToPath(s, lowest, chain[0], chain[1..], q);
    }
    OrderedPathStep(s, lowest, q, path, pid);
    path := path + [pid];
  }

  lemma {:induction false} PathToChain(s: Snapshot, lowest: Pid, q: Pid, path: seq<Pid>) returns (chain: seq<Pid>)
    requires s.age(q).Ok? && OrderedPath(s, lowest, q, path)
    ensures chain != [] && Up(s, lowest, path[|path| - 1], chain) && Top(path[|path| - 1], chain) == q
    decreases |path|
  {
    var n := |path| - 1;
    PathLive(s, q, Age(s, q), path, n);
    if n == 0 {
      chain := [q];
      assert Up(s, lowest, q, chain[1..]);
    } else {
      PathLive(s, q, Age(s, q), path, n - 1);
      chain := PathToChain(s, lowest, q, path[..n]);
      var whole := [path[n - 1]] + chain;
      assert whole[1..] == chain;
      chain := whole;
    }
  }

  /** The exact condition: following parents from `pid` comes to `q` exactly when
      `pid` descends from `q` in order of age. */
  lemma ParentsExactly(s: Snapshot, lowest: Pid, pid: Pid, q: Pid)
    ensures (exists chain :: Up(s, lowest, pid, chain) && q in chain) <==> DescendsInOrder(s, lowest, q, pid)
  {
    if exists chain :: Up(s, lowest, pid, chain) && q in chain {
      var chain :| Up(s, lowest, pid, chain) && q in chain;
      var i :| 0 <= i < |chain| && chain[i] == q;
      UpSplit(s, lowest, pid, chain, i + 1);
      var path := ChainToPath(s, lowest, pid, chain[..i + 1], q);
    }
    if DescendsInOrder(s, lowest, q, pid) {
      var path :| OrderedPath(s, lowest, q, path) && path[|path| - 1] == pid;
      var chain := PathToChain(s, lowest, q, path);
      assert chain[|chain| - 1] == q;
    }
  }

  /** A chain that has come to an end holds everyone that can be reached. */
  lemma WholeChain(s: Snapshot, lowest: Pid, pid: Pid, whole: seq<Pid>, q: Pid)
    requires Up(s, lowest, pid, whole) && NoParent(s, lowest, Top(pid, whole))
    ensures q in whole <==> DescendsInOrder(s, lowest, q, pid)
  {
    hide DescendsInOrder, Up, NoParent;
    ParentsExactly(s, lowest, pid, q);
    forall chain | Up(s, lowest, pid, chain) && q in chain
      ensures q in whole
    {
      if |chain| <= |whole| {
        UpUnique(s, lowest, pid, chain, whole);
      } else {
        UpUnique(s, lowest, pid, whole, chain);
        UpSplit(s, lowest, pid, chain, |whole|);
        assert chain[..|whole|] == whole;
        NotBoth(s, lowest, Top(pid, whole), chain[|whole|]);
      }
    }
  }

  lemma NotBoth(s: Snapshot, lowest: Pid, pid: Pid, parent: Pid)
    requires HasParent(s, lowest, pid, parent)
    ensures !NoParent(s, lowest, pid)
  {
  }

  // ----- when it does not stop

  /** Following parents leads back to `pid`. */
  ghost predicate OnCycle(s: Snapshot, lowest: Pid, pid: Pid) {
    exists chain :: chain != [] && Up(s, lowest, pid, chain) && Top(pid, chain) == pid
  }

  /** A cycle is made of processes created at the very same time, none of them
      the system's lowest PID. */
  lemma CycleShape(s: Snapshot, lowest: Pid, pid: Pid, chain: seq<Pid>, i: nat)
    requires Up(s, lowest, pid, chain) && Top(pid, chain) == pid && i < |chain|
    ensures s.age(pid).Ok? && s.age(chain[i]).Ok? && Age(s, chain[i]) == Age(s, pid) && chain[i] != lowest
  {
    var n := |chain| - 1;
    AgesGoUp(s, lowest, pid, chain, i, n);
    if i < n {
      var a, b := chain[..i + 1], chain[i + 1..];
      assert chain == a + b;
      UpAppend(s, lowest, pid, a, b);
    } else {
      assert HasParent(s, lowest, pid, chain[0]);
    }
  }

  lemma {:induction false} Pigeonhole(q: seq<Pid>, S: set<Pid>)
    requires NoDup(q) && forall p :: p in q ==> p in S
    ensures |q| <= |S|
    decreases |q|
  {
    if q != [] {
      var n := |q| - 1;
      forall p | p in q[..n]
        ensures p in S - {q[n]}
      {
        assert p in q;
      }
      Pigeonhole(q[..n], S - {q[n]});
    }
  }

  lemma {:induction false} UpInTable(s: Snapshot, lowest: Pid, pid: Pid, chain: seq<Pid>, i: nat)
    requires Up(s, lowest, pid, chain) && i + 1 < |chain|
    ensures chain[i] in s.ppid
    decreases i
  {
    if i > 0 {
      UpInTable(s, lowest, chain[0], chain[1..], i - 1);
    }
  }

  /** A chain that comes to the same process twice goes round a cycle. */
  lemma RepeatCycles(s: Snapshot, lowest: Pid, pid: Pid, chain: seq<Pid>, i: nat, j: nat)
    requires Up(s, lowest, pid, chain) && i < j < |chain| && chain[i] == chain[j]
    ensures OnCycle(s, lowest, chain[i])
  {
    hide Up;
    var a, b, c := chain[..i + 1], chain[i + 1..j + 1], chain[j + 1..];
    assert chain == a + (b + c);
    UpAppend(s, lowest, pid, a, b + c);
    UpAppend(s, lowest, chain[i], b, c);
  }

  /** A chain longer than the table goes round a cycle. */
  lemma LongChainCycles(s: Snapshot, lowest: Pid, pid: Pid, chain: seq<Pid>)
    requires Up(s, lowest, pid, chain) && |chain| > |s.ppid| + 1
    ensures exists c :: c in chain && OnCycle(s, lowest, c)
  {
    hide Up, OnCycle;
    var q := chain[..|chain| - 1];
    forall p | p in q
      ensures p in s.ppid.Keys
    {
      var i :| 0 <= i < |q| && q[i] == p;
      UpInTable(s, lowest, pid, chain, i);
    }
    if NoDup(q) {
      Pigeonhole(q, s.ppid.Keys);
      assert false;
    }
    var i, j :| 0 <= i < j < |q| && q[i] == q[j];
    RepeatCycles(s, lowest, pid, chain, i, j);
  }

  /** A chain of `n` parents starting with the `k`-th one of a given long chain. */
  lemma {:induction false} ClimbOrStop(s: Snapshot, lowest: Pid, pid: Pid, n: nat) returns (chain: seq<Pid>)
    ensures Up(s, lowest, pid, chain) && (|chain| == n || NoParent(s, lowest, Top(pid, chain)))
  {
    chain := [];
    if n > 0 {
      chain := ClimbOrStop(s, lowest, pid, n - 1);
      var p := Parent(s, lowest, Top(pid, chain));
      if |chain| == n - 1 && p.Ok? && p.value.Some? {
        UpAppend(s, lowest, pid, chain, [p.value.value]);
        chain := chain + [p.value.value];
      }
    }
  }

  /** Chains from one PID are prefixes of one another. */
  lemma {:induction false} UpUnique(s: Snapshot, lowest: Pid, pid: Pid, a: seq<Pid>, b: seq<Pid>)
    requires Up(s, lowest, pid, a) && Up(s, lowest, pid, b) && |a| <= |b|
    ensures a <= b
    decreases |a|
  {
    if a != [] {
      UpUnique(s, lowest, a[0], a[1..], b[1..]);
    }
  }

  /** Once on a cycle, there is no end of it. */
  lemma {:induction false} CycleNeverEnds(s: Snapshot, lowest: Pid, pid: Pid, chain: seq<Pid>)
    requires OnCycle(s, lowest, pid) && Up(s, lowest, pid, chain)
    ensures !NoParent(s, lowest, Top(pid, chain))
    decreases |chain|
  {
    var round :| round != [] && Up(s, lowest, pid, round) && Top(pid, round) == pid;
    if |chain| < |round| {
      UpUnique(s, lowest, pid, chain, round);
      assert round == chain + round[|chain|..];
      UpAppend(s, lowest, pid, chain, round[|chain|..]);
    } else {
      UpUnique(s, lowest, pid, round, chain);
      var rest := chain[|round|..];
      assert chain == round + rest;
      UpAppend(s, lowest, pid, round, rest);
      CycleNeverEnds(s, lowest, pid, rest);
    }
  }

  /** `parents()` fails to stop exactly when the chain runs into a cycle, which
      `CycleShape` says more about. */
  lemma StopsExactly(s: Snapshot, lowest: Pid, pid: Pid)
    ensures !Stops(s, lowest, pid) <==>
            exists chain :: Up(s, lowest, pid, chain) && OnCycle(s, lowest, Top(pid, chain))
  {
    if !Stops(s, lowest, pid) {
      var chain := ClimbOrStop(s, lowest, pid, |s.ppid| + 2);
      LongChainCycles(s, lowest, pid, chain);
      var c :| c in chain && OnCycle(s, lowest, c);
      var i :| 0 <= i < |chain| && chain[i] == c;
      assert chain == chain[..i + 1] + chain[i + 1..];
      UpAppend(s, lowest, pid, chain[..i + 1], chain[i + 1..]);
      assert Top(pid, chain[..i + 1]) == c;
    }
    if exists chain :: Up(s, lowest, pid, chain) && OnCycle(s, lowest, Top(pid, chain)) {
      var chain :| Up(s, lowest, pid, chain) && OnCycle(s, lowest, Top(pid, chain));
      forall whole | Up(s, lowest, pid, whole)
        ensures !NoParent(s, lowest, Top(pid, whole))
      {
        CycleAhead(s, lowest, pid, chain, whole);
      }
    }
  }

  lemma CycleAhead(s: Snapshot, lowest: Pid, pid: Pid, chain: seq<Pid>, whole: seq<Pid>)
    requires Up(s, lowest, pid, chain) && OnCycle(s, lowest, Top(pid, chain)) && Up(s, lowest, pid, whole)
    ensures !NoParent(s, lowest, Top(pid, whole))
  {
    hide Up, OnCycle;
    if |whole| < |chain| {
      UpUnique(s, lowest, pid, whole, chain);
      UpSplit(s, lowest, pid, chain, |whole|);
      assert chain[..|whole|] == whole;
    } else {
      UpUnique(s, lowest, pid, chain, whole);
      UpSplit(s, lowest, pid, whole, |chain|);
      assert whole[..|chain|] == chain;
      CycleNeverEnds(s, lowest, Top(pid, chain), whole[|chain|..]);
    }
  }
}
