/** `_parse_cpulist` and `_get_eligible_cpus`. */
module CpuList {
  import opened Wrappers
  import opened Text

  /** `list(range(a, b + 1))` */
  function Interval(a: int, b: int): (r: seq<int>)
    ensures |r| == if a <= b then b - a + 1 else 0
    ensures forall i :: 0 <= i < |r| ==> r[i] == a + i
    decreases b - a
  {
    if a > b then [] else Interval(a, b - 1) + [b]
  }

  // ----- the specification

  /** The CPUs one chunk stands for; None stands for ValueError. */
  function ChunkValue(chunk: string): Option<seq<int>> {
    var t := Strip(chunk);
    var dash := Find(t, '-');
    if t == "" then Some([])
    else if dash >= 0 then
      var start, end := Int(t[..dash]), Int(t[dash + 1..]);
      if start.None? || end.None? || start.value > end.value then None
      else Some(Interval(start.value, end.value))
    else
      var cpu := Int(t);
      if cpu.None? then None else Some([cpu.value])
  }

  function ChunksValue(chunks: seq<string>): Option<seq<int>> {
    if chunks == [] then Some([])
    else
      var n := |chunks| - 1;
      var before, last := ChunksValue(chunks[..n]), ChunkValue(chunks[n]);
      if before.None? || last.None? then None else Some(before.value + last.value)
  }

  function CpulistValue(cpulist: string): Option<seq<int>> {
    var s := Strip(cpulist);
    if s == "" then Some([]) else ChunksValue(SplitOn(s, ','))
  }

  // ----- the parser

  method ParseCpulist(cpulist: string) returns (r: Option<seq<int>>)
    ensures r == CpulistValue(cpulist)
  {
    hide Strip, SplitOn, ChunksValue, ChunkValue;
    var s := Strip(cpulist);
    if s == "" {
      return Some([]);
    }
    var cpus, chunks := [], SplitOn(s, ',');
    NoChunks();
    for n := 0 to |chunks|
      invariant ChunksValue(chunks[..n]) == Some(cpus)
    {
      ChunksValueStep(chunks, n);
      FailurePersists(chunks, n);
      var more := ParseChunk(chunks[n]);
      if more.None? {
        return None;
      }
      cpus := cpus + more.value;
    }
    assert chunks[..|chunks|] == chunks;
    r := Some(cpus);
  }

  /** The body of the loop: what to extend the list with, if anything. */
  method ParseChunk(text: string) returns (r: Option<seq<int>>)
    ensures r == ChunkValue(text)
  {
    hide Strip, Find, Int, Interval;
    var chunk := Strip(text);
    if chunk == "" {
      return Some([]);
    }
    var dash := Find(chunk, '-');
    if dash < 0 {
      var cpu := Int(chunk);
      return if cpu.None? then None else Some([cpu.value]);
    }
    var start, end := Int(chunk[..dash]), Int(chunk[dash + 1..]);
    if start.None? || end.None? || start.value > end.value {
      return None;
    }
    r := Some(Interval(start.value, end.value));
  }

  lemma ChunksValueStep(chunks: seq<string>, n: nat)
    requires n < |chunks|
    ensures var before, last := ChunksValue(chunks[..n]), ChunkValue(chunks[n]);
            ChunksValue(chunks[..n + 1]) ==
            if before.None? || last.None? then None else Some(before.value + last.value)
  {
    hide ChunkValue;
    assert chunks[..n + 1][..n] == chunks[..n];
  }

  /** One chunk that cannot be parsed fails the whole list. */
  lemma {:induction false} FailurePersists(chunks: seq<string>, n: nat)
    requires n < |chunks|
    ensures ChunkValue(chunks[n]).None? ==> ChunksValue(chunks).None?
    decreases |chunks|
  {
    hide ChunkValue;
    if n < |chunks| - 1 {
      FailurePersists(chunks[..|chunks| - 1], n);
    }
  }

  /** The eligible CPUs: the parsed list if there is one, else all of them. */
  method GetEligibleCpus(allowed: Option<string>, count: nat) returns (cpus: seq<int>)
    ensures cpus == if allowed.Some? && CpulistValue(allowed.value).Some? then CpulistValue(allowed.value).value
                    else Interval(0, count - 1)
  {
    if allowed.Some? {
      var parsed := ParseCpulist(allowed.value);
      if parsed.Some? {
        return parsed.value;
      }
    }
    cpus := Interval(0, count - 1);
  }

  // ----- against the kernel's printer

  datatype Range = Range(lo: nat, hi: nat)

  /** Consecutive numbers gathered into ranges. */
  function Gather(cpus: seq<nat>): seq<Range> {
    if cpus == [] then []
    else
      var rest := Gather(cpus[1..]);
      if rest != [] && rest[0].lo == cpus[0] + 1 then [Range(cpus[0], rest[0].hi)] + rest[1..]
      else [Range(cpus[0], cpus[0])] + rest
  }

  function Expand(rs: seq<Range>): seq<int> {
    if rs == [] then [] else Interval(rs[0].lo, rs[0].hi) + Expand(rs[1..])
  }

  ghost predicate Forward(rs: seq<Range>) {
    forall i :: 0 <= i < |rs| ==> rs[i].lo <= rs[i].hi
  }

  lemma {:induction false} ExpandGather(cpus: seq<nat>)
    ensures Forward(Gather(cpus)) && Expand(Gather(cpus)) == cpus
    ensures Gather(cpus) == [] <==> cpus == []
    decreases |cpus|
  {
    hide Interval;
    if cpus != [] {
      var rest := Gather(cpus[1..]);
      ExpandGather(cpus[1..]);
      OnItsOwn(cpus[0], rest);
      if rest != [] && rest[0].lo == cpus[0] + 1 {
        Joined(cpus[0], rest);
      }
      assert cpus == [cpus[0]] + cpus[1..];
    }
  }

  lemma IntervalFront(a: int, b: int)
    requires a <= b
    ensures Interval(a, a) == [a] && Interval(a, b) == [a] + Interval(a + 1, b)
  {
  }

  /** One more CPU in front, on its own or joined to the first range. */
  lemma OnItsOwn(cpu: nat, rest: seq<Range>)
    ensures Expand([Range(cpu, cpu)] + rest) == [cpu] + Expand(rest)
  {
    hide Interval;
    IntervalFront(cpu, cpu);
    assert ([Range(cpu, cpu)] + rest)[1..] == rest;
  }

  lemma Joined(cpu: nat, rest: seq<Range>)
    requires rest != [] && rest[0].lo == cpu + 1 <= rest[0].hi
    ensures Expand([Range(cpu, rest[0].hi)] + rest[1..]) == [cpu] + Expand(rest)
  {
    hide Interval;
    var all := [Range(cpu, rest[0].hi)] + rest[1..];
    assert all[1..] == rest[1..];
    IntervalFront(cpu, rest[0].hi);
    Assoc([cpu], Interval(cpu + 1, rest[0].hi), Expand(rest[1..]));
  }

  lemma Assoc(a: seq<int>, b: seq<int>, c: seq<int>)
    ensures a + b + c == a + (b + c)
  {
  }

  function PrintRange(r: Range): string {
    if r.lo == r.hi then Decimal(r.lo) else Decimal(r.lo) + "-" + Decimal(r.hi)
  }

  function PrintRanges(rs: seq<Range>): (s: seq<string>)
    ensures |s| == |rs| && forall i :: 0 <= i < |s| ==> s[i] == PrintRange(rs[i])
  {
    if rs == [] then [] else [PrintRange(rs[0])] + PrintRanges(rs[1..])
  }

  /** Digits and dashes only, so white space and commas are nowhere in it. */
  lemma PlainChunk(r: Range)
    ensures var s := PrintRange(r);
            s != "" && Strip(s) == s && ',' !in s && !IsSpace(s[0]) && !IsSpace(s[|s| - 1])
  {
    var s := PrintRange(r);
    assert s[0] == Decimal(r.lo)[0] && Decimal(r.lo)[0] in Decimal(r.lo);
    var last := if r.lo == r.hi then Decimal(r.lo) else Decimal(r.hi);
    assert s[|s| - 1] == last[|last| - 1] && last[|last| - 1] in last;
    StripNothing(s);
  }

  lemma PrintedRangeValue(r: Range)
    ensures ChunkValue(PrintRange(r)) == if r.lo <= r.hi then Some(Interval(r.lo, r.hi)) else None
  {
    hide Strip, Int, Decimal;
    PlainChunk(r);
    IntOfDecimal(r.lo);
    IntOfDecimal(r.hi);
    var s, lo, hi := PrintRange(r), Decimal(r.lo), Decimal(r.hi);
    if r.lo != r.hi {
      FindFirst(lo, '-', hi);
      assert s == lo + ['-'] + hi;
      assert s[..|lo|] == lo && s[|lo| + 1..] == hi;
    } else {
      assert Find(s, '-') == -1;
      assert Interval(r.lo, r.hi) == [r.lo];
    }
  }

  /** A blank chunk stands for no CPUs, and white space around a range is ignored. */
  lemma PaddedChunk(before: string, r: Range, after: string)
    requires (forall c :: c in before ==> IsSpace(c)) && (forall c :: c in after ==> IsSpace(c))
    ensures ChunkValue(before + ("" + after)) == Some([])
    ensures ChunkValue(before + (PrintRange(r) + after)) == if r.lo <= r.hi then Some(Interval(r.lo, r.hi)) else None
  {
    hide Strip, Int, PrintRange;
    StripPadded(before, "", after);
    PlainChunk(r);
    StripPadded(before, PrintRange(r), after);
    PrintedRangeValue(r);
  }

  /** A chunk with anything else in it than digits, signs, underscores and white
      space is an error. */
  lemma ChunkRejected(chunk: string, c: char)
    requires c in chunk && !IsSpace(c) && !IsDigit(c) && c != '_' && c != '+' && c != '-'
    ensures ChunkValue(chunk) == None
  {
    hide Strip, Int;
    StripKeeps(chunk, c);
    var t := Strip(chunk);
    var dash := Find(t, '-');
    if dash < 0 {
      IntRejects(t, c);
    } else if c in t[..dash] {
      IntRejects(t[..dash], c);
    } else {
      assert c in t[dash + 1..];
      IntRejects(t[dash + 1..], c);
    }
  }

  lemma {:induction false} ChunksValueCons(chunk: string, rest: seq<string>)
    ensures ChunksValue([chunk] + rest) ==
            if ChunkValue(chunk).None? || ChunksValue(rest).None? then None
            else Some(ChunkValue(chunk).value + ChunksValue(rest).value)
    decreases |rest|
  {
    hide ChunkValue;
    var all := [chunk] + rest;
    if rest == [] {
      assert all == [chunk] && all[..0] == [];
      if ChunkValue(chunk).Some? {
        var v := ChunkValue(chunk).value;
        assert [] + v == v && v + [] == v;
      }
    } else {
      var n := |rest| - 1;
      ChunksValueCons(chunk, rest[..n]);
      assert all[..|all| - 1] == [chunk] + rest[..n] && all[|all| - 1] == rest[n];
      var a, b, c := ChunkValue(chunk), ChunksValue(rest[..n]), ChunkValue(rest[n]);
      if a.Some? && b.Some? && c.Some? {
        assert a.value + b.value + c.value == a.value + (b.value + c.value);
      }
    }
  }

  lemma {:induction false} ChunksOfRanges(rs: seq<Range>)
    ensures ChunksValue(PrintRanges(rs)) == if Forward(rs) then Some(Expand(rs)) else None
    decreases |rs|
  {
    hide ChunkValue, ChunksValue;
    if rs == [] {
      NoChunks();
    } else {
      PrintedRangeValue(rs[0]);
      ChunksOfRanges(rs[1..]);
      ChunksValueCons(PrintRange(rs[0]), PrintRanges(rs[1..]));
      assert Forward(rs) <==> rs[0].lo <= rs[0].hi && Forward(rs[1..]) by {
        assert rs == [rs[0]] + rs[1..];
      }
    }
  }

  lemma NoChunks()
    ensures ChunksValue([]) == Some([])
  {
  }

  /** A line of ranges parses to all their CPUs in order, and a line with a
      reversed range in it is an error. */
  lemma RangesRoundTrip(rs: seq<Range>)
    requires rs != []
    ensures CpulistValue(Join(PrintRanges(rs), ',') + "\n") == if Forward(rs) then Some(Expand(rs)) else None
  {
    hide ChunksValue, PrintRange, Strip, SplitOn, Join, Forward, Expand;
    var parts := PrintRanges(rs);
    forall p | p in parts
      ensures ',' !in p && p != "" && !IsSpace(p[0]) && !IsSpace(p[|p| - 1])
    {
      var i :| 0 <= i < |parts| && parts[i] == p;
      PlainChunk(rs[i]);
    }
    assert parts[0] in parts && parts[|parts| - 1] in parts;
    JoinEnds(parts, ',');
    StripTail(Join(parts, ','), "\n");
    SplitOnJoin(parts, ',');
    ChunksOfRanges(rs);
  }

  /** Parsing inverts the kernel's printer, for every list of CPU numbers. */
  lemma CpulistRoundTrip(cpus: seq<nat>)
    ensures CpulistValue(Join(PrintRanges(Gather(cpus)), ',') + "\n") == Some(cpus)
  {
    ExpandGather(cpus);
    if cpus == [] {
      assert Join([], ',') + "\n" == "\n";
      assert Strip("\n") == "";
    } else {
      RangesRoundTrip(Gather(cpus));
    }
  }

  function Sizes(rs: seq<Range>): nat
    requires Forward(rs)
  {
    if rs == [] then 0 else rs[0].hi - rs[0].lo + 1 + Sizes(rs[1..])
  }

  /** As many CPUs come out as the ranges hold. */
  lemma {:induction false} ExpandLength(rs: seq<Range>)
    requires Forward(rs)
    ensures |Expand(rs)| == Sizes(rs)
    decreases |rs|
  {
    if rs != [] {
      ExpandLength(rs[1..]);
    }
  }
}
