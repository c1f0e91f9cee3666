/** `memory_maps` of the Linux platform: /proc/pid/smaps into regions. */
module Smaps {
  import opened Wrappers
  import opened Text

  datatype Error = ValueError | IndexError | ZombieProcess

  /** One mapped region; `nums` in the order of KEYS. */
  datatype Region = Region(addr: string, perms: string, path: string, nums: seq<int>)

  type Values = map<string, int>

  const KEYS: seq<string> := [
    "Rss:", "Size:", "Pss:", "Shared_Clean:", "Shared_Dirty:", "Private_Clean:", "Private_Dirty:",
    "Referenced:", "Anonymous:", "Swap:"]

  const DELETED := " (deleted)"

  predicate EndsWith(s: string, t: string) {
    |s| >= |t| && s[|s| - |t|..] == t
  }

  predicate StartsWith(s: string, t: string) {
    |s| >= |t| && s[..|t|] == t
  }

  /** `data.get(key, 0)` */
  function Get(values: Values, key: string): int {
    if key in values then values[key] else 0
  }

  function Nums(values: Values): seq<int> {
    seq(|KEYS|, i requires 0 <= i < |KEYS| => Get(values, KEYS[i]))
  }

  function PathName(path: string, pathExists: string -> bool): string {
    if path == "" then "[anon]"
    else
      var p := Strip(path);
      if EndsWith(p, DELETED) && !pathExists(p) then p[..|p| - |DELETED|] else p
  }

  function MakeRegion(header: string, values: Values, pathExists: string -> bool): Result<Region, Error> {
    var h := SplitMax(header, 5);
    if |h| != 5 && |h| != 6 then Err(ValueError)
    else Ok(Region(h[0], h[1], PathName(if |h| == 6 then h[5] else "", pathExists), Nums(values)))
  }

  // ----- the specification

  datatype Line = Header | Number(key: string, value: int) | Skipped | Bad(error: Error)

  /** What `get_blocks` takes a line for. */
  function Classify(line: string): Line {
    var fields := SplitMax(line, 5);
    if fields == [] then Bad(IndexError)
    else if !EndsWith(fields[0], ":") then Header
    else if |fields| > 1 && Int(fields[1]).Some? then Number(fields[0], Int(fields[1]).value * 1024)
    else if StartsWith(fields[0], "VmFlags:") then Skipped
    else Bad(ValueError)
  }

  function Prepend(ls: seq<Region>, r: Result<seq<Region>, Error>): Result<seq<Region>, Error> {
    if r.Err? then r else Ok(ls + r.value)
  }

  /** The regions from an open block on. `values` is never cleared. */
  function Regions(lines: seq<string>, header: string, values: Values, pathExists: string -> bool)
    : Result<seq<Region>, Error>
    decreases |lines|
  {
    if lines == [] then
      var r := MakeRegion(header, values, pathExists);
      if r.Err? then Err(r.error) else Ok([r.value])
    else match Classify(lines[0])
      case Bad(e) => Err(e)
      case Skipped => Regions(lines[1..], header, values, pathExists)
      case Number(key, value) => Regions(lines[1..], header, values[key := value], pathExists)
      case Header =>
        var r := MakeRegion(header, values, pathExists);
        if r.Err? then Err(r.error)
        else Prepend([r.value], Regions(lines[1..], lines[0], values, pathExists))
  }

  function MemoryMapsValue(raw: string, zombie: bool, pathExists: string -> bool): Result<seq<Region>, Error> {
    var data := Strip(raw);
    if data == "" then if zombie then Err(ZombieProcess) else Ok([])
    else
      var lines := SplitOn(data, '\n');
      Regions(lines[1..], lines[0], map[], pathExists)
  }

  // ----- the loops

  method MemoryMaps(raw: string, zombie: bool, pathExists: string -> bool) returns (r: Result<seq<Region>, Error>)
    ensures r == MemoryMapsValue(raw, zombie, pathExists)
  {
    hide Strip, SplitOn, MakeRegion, Classify, Regions;
    var data := Strip(raw);
    if data == "" {
      return if zombie then Err(ZombieProcess) else Ok([]);
    }
    var lines := SplitOn(data, '\n');
    var ls, header, values: Values := [], lines[0], map[];
    ghost var all := Regions(lines[1..], lines[0], map[], pathExists);
    PrependNothing(all);
    for n := 1 to |lines|
      invariant Prepend(ls, Regions(lines[n..], header, values, pathExists)) == all
    {
      RegionsStep(lines, n, header, values, pathExists);
      match Classify(lines[n]) {
        case Bad(e) =>
          return Err(e);
        case Skipped =>
        case Number(key, value) =>
          values := values[key := value];
        case Header =>
          var region := MakeRegion(header, values, pathExists);
          if region.Err? {
            return Err(region.error);
          }
          PrependTwice(ls, [region.value], Regions(lines[n + 1..], lines[n], values, pathExists));
          ls, header := ls + [region.value], lines[n];
      }
    }
    RegionsEnd(lines, header, values, pathExists);
    var region := MakeRegion(header, values, pathExists);
    r := if region.Err? then Err(region.error) else Ok(ls + [region.value]);
  }

  lemma RegionsStep(lines: seq<string>, n: nat, header: string, values: Values, pathExists: string -> bool)
    requires n < |lines|
    ensures Regions(lines[n..], header, values, pathExists) ==
            match Classify(lines[n])
            case Bad(e) => Err(e)
            case Skipped => Regions(lines[n + 1..], header, values, pathExists)
            case Number(key, value) => Regions(lines[n + 1..], header, values[key := value], pathExists)
            case Header =>
              var r := MakeRegion(header, values, pathExists);
              if r.Err? then Err(r.error) else Prepend([r.value], Regions(lines[n + 1..], lines[n], values, pathExists))
  {
  }

  lemma RegionsEnd(lines: seq<string>, header: string, values: Values, pathExists: string -> bool)
    ensures var r := MakeRegion(header, values, pathExists);
            Regions(lines[|lines|..], header, values, pathExists) == if r.Err? then Err(r.error) else Ok([r.value])
  {
  }

  lemma PrependNothing(r: Result<seq<Region>, Error>)
    ensures Prepend([], r) == r
  {
    if r.Ok? {
      assert [] + r.value == r.value;
    }
  }

  lemma PrependTwice(a: seq<Region>, b: seq<Region>, r: Result<seq<Region>, Error>)
    ensures Prepend(a, Prepend(b, r)) == Prepend(a + b, r)
  {
    if r.Ok? {
      assert a + (b + r.value) == a + b + r.value;
    }
  }

  // ----- what the kernel writes

  /** `unit` is " kB" or nothing. */
  datatype Pair = Pair(key: string, gap: string, n: nat, unit: string)

  /** A region's lines: the header, the numbers, and the flags if it prints them,
      each with a space after it; `trail` is what follows the last one. */
  datatype Block = Block(
    addr: string, perms: string, offset: string, dev: string, inode: string, pad: string, path: string,
    pairs: seq<Pair>, flags: Option<seq<string>>, trail: string)

  ghost predicate Spaces(s: string) {
    forall c :: c in s ==> c == ' '
  }

  ghost predicate IsPair(p: Pair) {
    NoSpace(p.key) && Spaces(p.gap) && p.gap != "" && (p.unit == "" || p.unit == " kB")
  }

  ghost predicate IsBlock(b: Block) {
    && IsToken(b.addr) && !EndsWith(b.addr, ":")
    && IsToken(b.perms) && IsToken(b.offset) && IsToken(b.dev) && IsToken(b.inode)
    && Spaces(b.pad) && Spaces(b.trail)
    && (b.path != "" ==> b.pad != "" && !IsSpace(b.path[0]) && !IsSpace(b.path[|b.path| - 1]) && '\n' !in b.path)
    && b.pairs != [] && (forall p :: p in b.pairs ==> IsPair(p))
    && (b.flags.Some? ==> forall f :: f in b.flags.value ==> IsToken(f) && Int(f).None?)
  }

  function HeaderLine(b: Block): string {
    Join([b.addr, b.perms, b.offset, b.dev, b.inode], ' ') + (b.pad + b.path)
  }

  function PairLine(p: Pair): string {
    p.key + ":" + (p.gap + (Decimal(p.n) + p.unit))
  }

  function FlagLine(flags: seq<string>): string {
    Join(["VmFlags:"] + flags, ' ')
  }

  function PairLines(pairs: seq<Pair>): seq<string> {
    if pairs == [] then [] else [PairLine(pairs[0])] + PairLines(pairs[1..])
  }

  function BlockLines(b: Block): seq<string> {
    [HeaderLine(b)] + PairLines(b.pairs) + if b.flags.Some? then [FlagLine(b.flags.value) + b.trail] else []
  }

  function AllLines(bs: seq<Block>): seq<string> {
    if bs == [] then [] else BlockLines(bs[0]) + AllLines(bs[1..])
  }

  function Print(bs: seq<Block>): string {
    Join(AllLines(bs), '\n') + "\n"
  }

  // ----- reading one line back

  lemma {:induction false} SplitMaxJoin(words: seq<string>, rest: string, limit: nat)
    requires words != [] && |words| <= limit
    requires (forall w :: w in words ==> IsToken(w)) && (rest == "" || IsSpace(rest[0]))
    ensures SplitMax(Join(words, ' ') + rest, limit) == words + SplitMax(rest, limit - |words|)
    decreases |words|
  {
    hide SplitMax, IsToken;
    assert words[0] in words && [words[0]] + words[1..] == words;
    if |words| == 1 {
      assert "" + (words[0] + rest) == Join(words, ' ') + rest;
      SplitMaxWord("", words[0], rest, limit - 1);
    } else {
      var more := Join(words[1..], ' ') + rest;
      assert "" + (words[0] + ([' '] + more)) == Join(words, ' ') + rest;
      SplitMaxWord("", words[0], [' '] + more, limit - 1);
      SplitMaxSpaces([' '], more, limit - 1);
      SplitMaxJoin(words[1..], rest, limit - 1);
      Joined([words[0]], words[1..], SplitMax(rest, limit - |words|));
    }
  }

  lemma Joined(a: seq<string>, b: seq<string>, c: seq<string>)
    ensures a + b + c == a + (b + c)
  {
  }

  lemma SplitMaxSpaces(sp: string, rest: string, limit: nat)
    requires forall c :: c in sp ==> IsSpace(c)
    ensures SplitMax(sp + rest, limit) == SplitMax(rest, limit)
  {
    SkipSpaces(sp, rest);
  }

  lemma RestOfLine(pad: string, path: string)
    requires Spaces(pad) && (path != "" ==> !IsSpace(path[0]))
    ensures SplitMax(pad + path, 0) == if path == "" then [] else [path]
  {
    SplitMaxSpaces(pad, path, 0);
  }

  /** The path a region is reported under. */
  function Expected(path: string, pathExists: string -> bool): string {
    if path == "" then "[anon]"
    else if EndsWith(path, DELETED) && !pathExists(path) then path[..|path| - |DELETED|]
    else path
  }

  lemma HeaderFields(b: Block)
    requires IsBlock(b)
    ensures SplitMax(HeaderLine(b), 5) ==
            [b.addr, b.perms, b.offset, b.dev, b.inode] + if b.path == "" then [] else [b.path]
  {
    hide SplitMax, Join, EndsWith, Int;
    assert b.pad != "" ==> b.pad[0] in b.pad;
    SplitMaxJoin([b.addr, b.perms, b.offset, b.dev, b.inode], b.pad + b.path, 5);
    RestOfLine(b.pad, b.path);
  }

  lemma HeaderParses(b: Block, values: Values, pathExists: string -> bool)
    requires IsBlock(b)
    ensures Classify(HeaderLine(b)) == Header
    ensures MakeRegion(HeaderLine(b), values, pathExists) ==
            Ok(Region(b.addr, b.perms, Expected(b.path, pathExists), Nums(values)))
  {
    hide SplitMax, HeaderLine, Nums, Int, Strip;
    HeaderFields(b);
    if b.path != "" {
      StripNothing(b.path);
    }
  }

  lemma NumberLine(p: Pair)
    requires IsPair(p)
    ensures Classify(PairLine(p)) == Number(p.key + ":", 1024 * p.n)
  {
    hide SplitMax, Decimal, Int;
    var key, dec := p.key + ":", Decimal(p.n);
    assert p.gap[0] in p.gap;
    assert ("" + (key + (p.gap + (dec + p.unit)))) == PairLine(p);
    SplitMaxWord("", key, p.gap + (dec + p.unit), 4);
    assert IsToken(dec) by {
      assert forall c :: c in dec ==> IsDigit(c);
    }
    SplitMaxWord(p.gap, dec, p.unit, 3);
    IntOfDecimal(p.n);
  }

  lemma FlagsSkipped(flags: seq<string>, trail: string)
    requires Spaces(trail) && forall f :: f in flags ==> IsToken(f) && Int(f).None?
    ensures Classify(FlagLine(flags) + trail) == Skipped
  {
    hide SplitMax, Int, Classify;
    var line := FlagLine(flags) + trail;
    assert trail != "" ==> trail[0] in trail;
    if flags == [] {
      NoFlags(trail);
      assert "VmFlags:" + trail == line;
    } else {
      assert flags[0] in flags && (["VmFlags:"] + flags)[1..] == flags;
      var rest := (if |flags| == 1 then "" else [' '] + Join(flags[1..], ' ')) + trail;
      assert Join(flags, ' ') + trail == flags[0] + rest;
      FirstFlag(flags[0], rest);
      assert "VmFlags:" + ([' '] + (flags[0] + rest)) == line;
    }
  }

  lemma NoFlags(trail: string)
    requires Spaces(trail)
    ensures Classify("VmFlags:" + trail) == Skipped
  {
    hide SplitMax, Int;
    assert trail != "" ==> trail[0] in trail;
    assert "" + ("VmFlags:" + trail) == "VmFlags:" + trail && trail + "" == trail;
    SplitMaxWord("", "VmFlags:", trail, 4);
    SplitMaxSpaces(trail, "", 4);
    SplitMaxEmpty(4);
  }

  lemma FirstFlag(flag: string, rest: string)
    requires IsToken(flag) && Int(flag).None? && (rest == "" || IsSpace(rest[0]))
    ensures Classify("VmFlags:" + ([' '] + (flag + rest))) == Skipped
  {
    hide SplitMax, Int, EndsWith, StartsWith;
    var more := [' '] + (flag + rest);
    assert "" + ("VmFlags:" + more) == "VmFlags:" + more;
    FlagWord();
    SplitMaxWord("", "VmFlags:", more, 4);
    SplitMaxWord([' '], flag, rest, 3);
  }

  lemma FlagWord()
    ensures IsToken("VmFlags:") && EndsWith("VmFlags:", ":") && StartsWith("VmFlags:", "VmFlags:")
  {
  }

  lemma SplitMaxEmpty(limit: nat)
    ensures SplitMax("", limit) == []
  {
  }

  // ----- reading blocks back

  /** The values after a block's numbers have been added to those before. */
  function Carry(values: Values, pairs: seq<Pair>): Values
    decreases |pairs|
  {
    if pairs == [] then values else Carry(values[pairs[0].key + ":" := 1024 * pairs[0].n], pairs[1..])
  }

  lemma {:induction false} PairsFeed(pairs: seq<Pair>, rest: seq<string>, header: string, values: Values,
                                     pathExists: string -> bool)
    requires forall p :: p in pairs ==> IsPair(p)
    ensures Regions(PairLines(pairs) + rest, header, values, pathExists) ==
            Regions(rest, header, Carry(values, pairs), pathExists)
    decreases |pairs|
  {
    hide Classify, Regions, PairLine, MakeRegion;
    if pairs == [] {
      assert PairLines(pairs) + rest == rest;
    } else {
      var lines := PairLines(pairs) + rest;
      NumberLine(pairs[0]);
      assert lines[0] == PairLine(pairs[0]) && lines[1..] == PairLines(pairs[1..]) + rest && lines[0..] == lines;
      RegionsStep(lines, 0, header, values, pathExists);
      PairsFeed(pairs[1..], rest, header, values[pairs[0].key + ":" := 1024 * pairs[0].n], pathExists);
    }
  }

  lemma BlockFeeds(b: Block, rest: seq<string>, values: Values, pathExists: string -> bool)
    requires IsBlock(b)
    ensures Regions(BlockLines(b)[1..] + rest, HeaderLine(b), values, pathExists) ==
            Regions(rest, HeaderLine(b), Carry(values, b.pairs), pathExists)
  {
    hide Classify, Regions, PairLine, HeaderLine, MakeRegion, FlagLine, Carry;
    var flags := if b.flags.Some? then [FlagLine(b.flags.value) + b.trail] else [];
    assert BlockLines(b)[1..] + rest == PairLines(b.pairs) + (flags + rest);
    PairsFeed(b.pairs, flags + rest, HeaderLine(b), values, pathExists);
    if b.flags.Some? {
      FlagsSkipped(b.flags.value, b.trail);
      assert (flags + rest)[1..] == rest && (flags + rest)[0..] == flags + rest;
      RegionsStep(flags + rest, 0, HeaderLine(b), Carry(values, b.pairs), pathExists);
    } else {
      assert flags + rest == rest;
    }
  }

  function RegionOf(b: Block, values: Values, pathExists: string -> bool): Region {
    Region(b.addr, b.perms, Expected(b.path, pathExists), Nums(values))
  }

  /** One region per block, its numbers those of all the blocks so far. */
  function Reported(bs: seq<Block>, values: Values, pathExists: string -> bool): (r: seq<Region>)
    ensures |r| == |bs| && forall i :: 0 <= i < |r| ==> |r[i].nums| == |KEYS|
    decreases |bs|
  {
    if bs == [] then []
    else
      var v := Carry(values, bs[0].pairs);
      [RegionOf(bs[0], v, pathExists)] + Reported(bs[1..], v, pathExists)
  }

  lemma {:induction false} BlocksFeed(b: Block, more: seq<Block>, values: Values, pathExists: string -> bool)
    requires IsBlock(b) && forall c :: c in more ==> IsBlock(c)
    ensures Regions(BlockLines(b)[1..] + AllLines(more), HeaderLine(b), values, pathExists) ==
            Ok(Reported([b] + more, values, pathExists))
    decreases |more|
  {
    hide Classify, Regions, HeaderLine, MakeRegion, Carry, BlockLines, Nums, Expected;
    var v := Carry(values, b.pairs);
    BlockFeeds(b, AllLines(more), values, pathExists);
    HeaderParses(b, v, pathExists);
    assert ([b] + more)[1..] == more;
    if more == [] {
      RegionsEnd([], HeaderLine(b), v, pathExists);
      assert AllLines(more)[|AllLines(more)|..] == AllLines(more);
      assert [RegionOf(b, v, pathExists)] + [] == [RegionOf(b, v, pathExists)];
    } else {
      var lines := AllLines(more);
      FirstLine(more[0]);
      assert lines[0] == HeaderLine(more[0]) && lines[1..] == BlockLines(more[0])[1..] + AllLines(more[1..]);
      assert lines[0..] == lines;
      HeaderParses(more[0], v, pathExists);
      RegionsStep(lines, 0, HeaderLine(b), v, pathExists);
      BlocksFeed(more[0], more[1..], v, pathExists);
      assert [more[0]] + more[1..] == more;
    }
  }

  lemma FirstLine(b: Block)
    ensures BlockLines(b) != [] && BlockLines(b)[0] == HeaderLine(b)
  {
  }

  /** A line that is not empty and has no line break in it. */
  ghost predicate IsLine(s: string) {
    s != "" && '\n' !in s
  }

  lemma {:induction false} JoinIsLine(words: seq<string>)
    requires words != [] && forall w :: w in words ==> IsToken(w)
    ensures IsLine(Join(words, ' '))
    decreases |words|
  {
    assert words[0] in words;
    if |words| > 1 {
      JoinIsLine(words[1..]);
    }
  }

  lemma {:induction false} PairLinesAreLines(pairs: seq<Pair>)
    requires forall p :: p in pairs ==> IsPair(p)
    ensures forall l :: l in PairLines(pairs) ==> IsLine(l)
    ensures pairs != [] ==> PairLines(pairs) != [] && EndsDark(PairLines(pairs))
    decreases |pairs|
  {
    if pairs != [] {
      PairLinesAreLines(pairs[1..]);
      assert IsPair(pairs[0]);
      assert '\n' !in Decimal(pairs[0].n) by {
        assert forall c :: c in Decimal(pairs[0].n) ==> IsDigit(c);
      }
    }
  }

  /** The last line ends with something else than white space. */
  ghost predicate EndsDark(lines: seq<string>) {
    lines != [] && lines[|lines| - 1] != ""
    && var last := lines[|lines| - 1]; !IsSpace(last[|last| - 1])
  }

  lemma FlagLineEnds(flags: seq<string>)
    requires forall f :: f in flags ==> IsToken(f)
    ensures IsLine(FlagLine(flags)) && EndsDark([FlagLine(flags)])
  {
    var words := ["VmFlags:"] + flags;
    JoinIsLine(words);
    var last := words[|words| - 1];
    assert last in words && IsToken(last) && last[|last| - 1] in last;
    JoinLast(words, ' ');
  }

  lemma BlockLinesAreLines(b: Block)
    requires IsBlock(b)
    ensures (forall l :: l in BlockLines(b) ==> IsLine(l)) && (b.trail == "" ==> EndsDark(BlockLines(b)))
    ensures !IsSpace(BlockLines(b)[0][0])
  {
    hide PairLines, FlagLine, Int;
    PairLinesAreLines(b.pairs);
    if b.flags.Some? {
      FlagLineEnds(b.flags.value);
      assert '\n' !in b.trail;
      assert b.trail == "" ==> FlagLine(b.flags.value) + b.trail == FlagLine(b.flags.value);
    }
    var words := [b.addr, b.perms, b.offset, b.dev, b.inode];
    JoinIsLine(words);
    assert Join(words, ' ')[0] == b.addr[0] && b.addr[0] in b.addr;
    assert IsLine(HeaderLine(b));
  }

  lemma {:induction false} AllLinesAreLines(bs: seq<Block>)
    requires forall b :: b in bs ==> IsBlock(b)
    ensures forall l :: l in AllLines(bs) ==> IsLine(l)
    ensures bs != [] ==> AllLines(bs) != [] && IsLine(AllLines(bs)[0]) && !IsSpace(AllLines(bs)[0][0])
    ensures bs != [] && bs[|bs| - 1].trail == "" ==> EndsDark(AllLines(bs))
    decreases |bs|
  {
    hide BlockLines, IsBlock;
    if bs != [] {
      FirstLine(bs[0]);
      assert BlockLines(bs[0])[0] in BlockLines(bs[0]);
      BlockLinesAreLines(bs[0]);
      AllLinesAreLines(bs[1..]);
    }
  }

  lemma JoinedEnds(bs: seq<Block>)
    requires bs != [] && (forall b :: b in bs ==> IsBlock(b)) && bs[|bs| - 1].trail == ""
    ensures AllLines(bs) != []
    ensures var s := Join(AllLines(bs), '\n');
            s != "" && !IsSpace(s[0]) && !IsSpace(s[|s| - 1]) && SplitOn(s, '\n') == AllLines(bs)
  {
    hide Join, SplitOn, IsBlock, AllLines;
    AllLinesAreLines(bs);
    JoinEnds(AllLines(bs), '\n');
    SplitOnJoin(AllLines(bs), '\n');
  }

  lemma TailIsSpace(tail: string)
    requires Spaces(tail)
    ensures forall c :: c in tail + "\n" ==> IsSpace(c)
  {
  }

  lemma TailStripped(s: string, tail: string)
    requires s != "" && !IsSpace(s[0]) && !IsSpace(s[|s| - 1]) && Spaces(tail)
    ensures Strip(s + tail + "\n") == s
  {
    hide Strip, Spaces, IsSpace;
    TailIsSpace(tail);
    StripTail(s, tail + "\n");
    assert s + (tail + "\n") == s + tail + "\n";
  }

  lemma TrimmedRoundTrip(bs: seq<Block>, pathExists: string -> bool)
    requires bs != [] && forall b :: b in bs ==> IsBlock(b)
    ensures var lines := AllLines(bs);
            lines != [] && Regions(lines[1..], lines[0], map[], pathExists) == Ok(Reported(bs, map[], pathExists))
  {
    hide IsBlock, BlockLines, Regions, Reported;
    var lines := AllLines(bs);
    FirstLine(bs[0]);
    assert lines[1..] == BlockLines(bs[0])[1..] + AllLines(bs[1..]);
    BlocksFeed(bs[0], bs[1..], map[], pathExists);
    assert [bs[0]] + bs[1..] == bs;
  }

  /** Printing any blocks and reading them back gives one region per block, under
      its own address, permissions and path. */
  lemma SmapsRoundTrip(bs: seq<Block>, zombie: bool, pathExists: string -> bool)
    requires bs != [] && forall b :: b in bs ==> IsBlock(b)
    ensures MemoryMapsValue(Print(bs), zombie, pathExists) == Ok(Reported(bs, map[], pathExists))
  {
    hide Strip, SplitOn, Join, IsBlock, AllLines, Regions, Reported, Trim, IsSpace, Spaces;
    var tail := Trimmed(bs);
    JoinedEnds(Trim(bs));
    TailStripped(Join(AllLines(Trim(bs)), '\n'), tail);
    TrimmedRoundTrip(Trim(bs), pathExists);
    ReportedTrimmed(bs, map[], pathExists);
  }

  /** The blocks as stripping the file leaves them. */
  function Trim(bs: seq<Block>): (r: seq<Block>)
    requires bs != []
    ensures |r| == |bs| && r[|r| - 1].trail == ""
  {
    bs[..|bs| - 1] + [bs[|bs| - 1].(trail := "")]
  }

  lemma Trimmed(bs: seq<Block>) returns (tail: string)
    requires bs != [] && forall b :: b in bs ==> IsBlock(b)
    ensures forall b :: b in Trim(bs) ==> IsBlock(b)
    ensures Spaces(tail) && Join(AllLines(bs), '\n') == Join(AllLines(Trim(bs)), '\n') + tail
  {
    hide Join, PairLines, FlagLine, AllLines;
    var n := |bs| - 1;
    var b := bs[n];
    assert bs == bs[..n] + [b] && IsBlock(b);
    AllLinesOf(bs[..n], b);
    AllLinesOf(bs[..n], b.(trail := ""));
    tail := "";
    if b.flags.Some? {
      tail := b.trail;
      var line, body := FlagLine(b.flags.value), [HeaderLine(b)] + PairLines(b.pairs);
      LastLine(AllLines(bs[..n]), body, line + tail);
      LastLine(AllLines(bs[..n]), body, line);
      assert line + "" == line;
      JoinMore(AllLines(bs[..n]) + body, line, tail, '\n');
    } else {
      assert Join(AllLines(bs), '\n') + "" == Join(AllLines(bs), '\n');
    }
  }

  lemma LastLine(front: seq<string>, body: seq<string>, line: string)
    ensures front + (body + [line]) == front + body + [line]
  {
  }

  lemma {:induction false} AllLinesOf(bs: seq<Block>, b: Block)
    ensures AllLines(bs + [b]) == AllLines(bs) + BlockLines(b)
    decreases |bs|
  {
    hide BlockLines;
    if bs == [] {
      assert bs + [b] == [b];
    } else {
      assert (bs + [b])[1..] == bs[1..] + [b];
      AllLinesOf(bs[1..], b);
    }
  }

  lemma {:induction false} ReportedTrimmed(bs: seq<Block>, values: Values, pathExists: string -> bool)
    requires bs != []
    ensures Reported(Trim(bs), values, pathExists) == Reported(bs, values, pathExists)
    decreases |bs|
  {
    hide Carry, Nums, Expected;
    if |bs| > 1 {
      assert Trim(bs)[1..] == Trim(bs[1..]) && Trim(bs)[0] == bs[0];
      ReportedTrimmed(bs[1..], Carry(values, bs[0].pairs), pathExists);
    } else {
      assert Trim(bs)[1..] == bs[1..];
    }
  }

  /** A file without any line: a zombie's, or a process's that maps nothing. */
  lemma EmptyFile(raw: string, zombie: bool, pathExists: string -> bool)
    requires forall c :: c in raw ==> IsSpace(c)
    ensures MemoryMapsValue(raw, zombie, pathExists) == if zombie then Err(ZombieProcess) else Ok([])
  {
    SkipSpaces(raw, "");
    assert raw + "" == raw;
  }

  /** A line that is none of what the kernel writes fails: blank ones with
      IndexError, and with ValueError those whose first word ends in a colon and is
      not followed by a number, flags apart. */
  lemma BadLine(key: string, more: string)
    requires NoSpace(key) && !StartsWith(key + ":", "VmFlags:") && (more == "" || IsSpace(more[0]))
    requires SplitMax(more, 4) != [] ==> Int(SplitMax(more, 4)[0]).None?
    ensures Classify(key + ":" + more) == Bad(ValueError)
    ensures Classify("") == Bad(IndexError)
  {
    hide SplitMax, Int, StartsWith;
    assert "" + (key + ":" + more) == key + ":" + more;
    SplitMaxWord("", key + ":", more, 4);
    SplitMaxEmpty(5);
  }

  /** A file whose path has been deleted is reported under the path it had, unless
      there is a file of that very name; a mapping of no file as `[anon]`. */
  lemma PathsReported(path: string, pathExists: string -> bool)
    ensures Expected("", pathExists) == "[anon]"
    ensures Expected(path + DELETED, pathExists) == if pathExists(path + DELETED) then path + DELETED else path
    ensures path != "" && !EndsWith(path, DELETED) ==> Expected(path, pathExists) == path
  {
    var s := path + DELETED;
    assert s[|s| - |DELETED|..] == DELETED && s[..|s| - |DELETED|] == path;
  }

  // ----- whose numbers they are

  /** The values after whole blocks. */
  function CarryAll(bs: seq<Block>): Values {
    if bs == [] then map[] else Carry(CarryAll(bs[..|bs| - 1]), bs[|bs| - 1].pairs)
  }

  lemma {:induction false} ReportedAt(bs: seq<Block>, more: seq<Block>, pathExists: string -> bool, i: nat)
    requires i < |more|
    ensures Reported(more, CarryAll(bs), pathExists)[i] ==
            RegionOf(more[i], CarryAll(bs + more[..i + 1]), pathExists)
    decreases i
  {
    hide Carry, RegionOf;
    var bs' := bs + [more[0]];
    assert bs'[..|bs'| - 1] == bs;
    if i == 0 {
      assert bs + more[..1] == bs';
    } else {
      ReportedAt(bs', more[1..], pathExists, i - 1);
      assert bs' + more[1..][..i] == bs + more[..i + 1];
    }
  }

  /** What a block itself prints for a key, in bytes: 1024 times the last of its
      numbers, 0 if there is none. */
  function Own(b: Block, key: string): int {
    LastPrinted(b.pairs, key)
  }

  function LastPrinted(pairs: seq<Pair>, key: string): int {
    if pairs == [] then 0
    else
      var last := pairs[|pairs| - 1];
      if last.key + ":" == key then 1024 * last.n else LastPrinted(pairs[..|pairs| - 1], key)
  }

  /** `pairs[j]` is the last pair under a key. */
  ghost predicate IsLast(pairs: seq<Pair>, key: string, j: int) {
    0 <= j < |pairs| && pairs[j].key + ":" == key && forall m :: j < m < |pairs| ==> pairs[m].key + ":" != key
  }

  lemma {:induction false} LastPrintedIs(pairs: seq<Pair>, key: string, j: nat)
    requires IsLast(pairs, key, j)
    ensures LastPrinted(pairs, key) == 1024 * pairs[j].n
    decreases |pairs|
  {
    if j < |pairs| - 1 {
      LastPrintedIs(pairs[..|pairs| - 1], key, j);
    }
  }

  ghost predicate Prints(b: Block, key: string) {
    HasKey(b.pairs, key)
  }

  ghost predicate HasKey(pairs: seq<Pair>, key: string) {
    exists p :: p in pairs && p.key + ":" == key
  }

  lemma {:induction false} CarrySnoc(values: Values, pairs: seq<Pair>, p: Pair)
    ensures Carry(values, pairs + [p]) == Carry(values, pairs)[p.key + ":" := 1024 * p.n]
    decreases |pairs|
  {
    if pairs == [] {
      assert pairs + [p] == [p];
    } else {
      assert (pairs + [p])[1..] == pairs[1..] + [p];
      CarrySnoc(values[pairs[0].key + ":" := 1024 * pairs[0].n], pairs[1..], p);
    }
  }

  /** The dictionary after a block: the block's own number for a key it prints,
      what was there before for any other. */
  lemma {:induction false} CarryExactly(values: Values, pairs: seq<Pair>, key: string)
    ensures key in Carry(values, pairs) <==> key in values || HasKey(pairs, key)
    ensures Get(Carry(values, pairs), key) == if HasKey(pairs, key) then LastPrinted(pairs, key) else Get(values, key)
    decreases |pairs|
  {
    if pairs != [] {
      var n := |pairs| - 1;
      var front, last := pairs[..n], pairs[n];
      CarryExactly(values, front, key);
      CarrySnoc(values, front, last);
      assert pairs == front + [last];
      assert HasKey(pairs, key) <==> HasKey(front, key) || last.key + ":" == key;
    }
  }

  lemma {:induction false} NothingPrinted(pairs: seq<Pair>, key: string)
    requires !HasKey(pairs, key)
    ensures LastPrinted(pairs, key) == 0
    decreases |pairs|
  {
    if pairs != [] {
      var n := |pairs| - 1;
      assert pairs[n] in pairs;
      NothingPrinted(pairs[..n], key);
    }
  }

  lemma OwnExactly(values: Values, b: Block, key: string)
    ensures Get(Carry(values, b.pairs), key) == Own(b, key) <==> Prints(b, key) || Get(values, key) == 0
  {
    hide Carry;
    CarryExactly(values, b.pairs, key);
    if !Prints(b, key) {
      NothingPrinted(b.pairs, key);
    }
  }

  /** Region `i` reports for a key what its own block prints, exactly when the
      block prints that key or no number has been carried over from earlier
      blocks; otherwise it repeats an earlier block's number. */
  lemma OwnNumbersExactly(bs: seq<Block>, pathExists: string -> bool, i: nat, k: nat)
    requires i < |bs| && k < |KEYS|
    ensures Reported(bs, map[], pathExists)[i].nums[k] == Own(bs[i], KEYS[k]) <==>
            Prints(bs[i], KEYS[k]) || Get(CarryAll(bs[..i]), KEYS[k]) == 0
  {
    hide Carry, Reported, Get, Prints, Own;
    ReportedAt([], bs, pathExists, i);
    assert [] + bs[..i + 1] == bs[..i + 1] && bs[..i + 1][..i] == bs[..i];
    OwnExactly(CarryAll(bs[..i]), bs[i], KEYS[k]);
  }

  lemma {:induction false} NeverPrinted(bs: seq<Block>, key: string)
    requires forall b :: b in bs ==> !Prints(b, key)
    ensures key !in CarryAll(bs)
    decreases |bs|
  {
    hide Carry;
    if bs != [] {
      var n := |bs| - 1;
      NeverPrinted(bs[..n], key);
      assert bs[n] in bs && !Prints(bs[n], key);
      CarryExactly(CarryAll(bs[..n]), bs[n].pairs, key);
    }
  }

  /** So a key that all blocks print, or none, is never carried over: each region
      reports 1024 times the number its own block prints. */
  lemma CommonKeysOwnNumbers(bs: seq<Block>, pathExists: string -> bool, i: nat, k: nat)
    requires i < |bs| && k < |KEYS|
    requires (forall b :: b in bs ==> Prints(b, KEYS[k])) || (forall b :: b in bs ==> !Prints(b, KEYS[k]))
    ensures Reported(bs, map[], pathExists)[i].nums[k] == Own(bs[i], KEYS[k])
    ensures forall j :: IsLast(bs[i].pairs, KEYS[k], j) ==>
                          Reported(bs, map[], pathExists)[i].nums[k] == 1024 * bs[i].pairs[j].n
  {
    hide Reported, Carry, LastPrinted;
    OwnNumbersExactly(bs, pathExists, i, k);
    assert bs[i] in bs;
    if !Prints(bs[i], KEYS[k]) {
      NeverPrinted(bs[..i], KEYS[k]);
    }
    forall j | IsLast(bs[i].pairs, KEYS[k], j)
      ensures Own(bs[i], KEYS[k]) == 1024 * bs[i].pairs[j].n
    {
      LastPrintedIs(bs[i].pairs, KEYS[k], j);
    }
  }

  /** Of two blocks, the second one reports the first one's numbers for whatever
      it does not print itself. */
  lemma CarriedOver(a: Block, b: Block, zombie: bool, pathExists: string -> bool, k: nat)
    requires IsBlock(a) && IsBlock(b) && k < |KEYS| && !Prints(b, KEYS[k])
    ensures var r := MemoryMapsValue(Print([a, b]), zombie, pathExists);
            && r.Ok? && |r.value| == 2 && |r.value[1].nums| == |KEYS|
            && r.value[1].nums[k] == Own(a, KEYS[k]) && Own(b, KEYS[k]) == 0
  {
    hide Print, MemoryMapsValue, Reported, Carry, IsBlock, LastPrinted, HasKey, Expected;
    SmapsRoundTrip([a, b], zombie, pathExists);
    ReportedAt([], [a, b], pathExists, 1);
    assert [] + [a, b][..2] == [a, b] && [a, b][..1] == [a] && [a][..0] == [];
    CarryExactly(CarryAll([a]), b.pairs, KEYS[k]);
    CarryExactly(map[], a.pairs, KEYS[k]);
    NothingPrinted(b.pairs, KEYS[k]);
    if !Prints(a, KEYS[k]) {
      NothingPrinted(a.pairs, KEYS[k]);
    }
  }

  /** A printed file that is read back wrong: the first block prints `Swap: 4 kB`,
      the second one no `Swap` at all, and its region reports 4096. */
  lemma CarriedOverExample(zombie: bool, pathExists: string -> bool) returns (bs: seq<Block>, k: nat)
    ensures |bs| == 2 && (forall b :: b in bs ==> IsBlock(b)) && k < |KEYS| && !Prints(bs[1], KEYS[k])
    ensures var r := MemoryMapsValue(Print(bs), zombie, pathExists);
            && r.Ok? && |r.value| == 2 && |r.value[1].nums| == |KEYS|
            && r.value[1].nums[k] == 4096 && Own(bs[1], KEYS[k]) == 0
  {
    hide Print, MemoryMapsValue;
    var p, q := Pair("Swap", " ", 4, " kB"), Pair("Size", " ", 8, " kB");
    var a := Block("0-1", "r", "0", "0", "0", "", "", [p], None, "");
    var b := a.(pairs := [q]);
    k := 9;
    assert p.key + ":" == KEYS[k] && KEYS[k][1] == 'w' && (q.key + ":")[1] == 'i';
    assert IsPair(p) && IsPair(q) && IsBlock(a) && IsBlock(b) && !Prints(b, KEYS[k]);
    CarriedOver(a, b, zombie, pathExists, k);
    LastPrintedIs(a.pairs, KEYS[k], 0);
    bs := [a, b];
  }
}

/** `Process.memory_maps(grouped=True)`. */
module Grouping {
  import opened Smaps

  datatype Grouped = Grouped(path: string, nums: seq<int>)

  function Add(a: seq<int>, b: seq<int>): (r: seq<int>)
    requires |a| == |b|
    ensures |r| == |a| && forall i :: 0 <= i < |r| ==> r[i] == a[i] + b[i]
  {
    seq(|a|, i requires 0 <= i < |a| => a[i] + b[i])
  }

  ghost predicate Uniform(rs: seq<Region>) {
    forall r :: r in rs ==> |r.nums| == |KEYS|
  }

  /** Sum of field `k` over the regions mapped from `path`. */
  function PathSum(rs: seq<Region>, path: string, k: nat): int
    requires Uniform(rs) && k < |KEYS|
  {
    if rs == [] then 0
    else
      var n := |rs| - 1;
      PathSum(rs[..n], path, k) + if rs[n].path == path then rs[n].nums[k] else 0
  }

  function FieldSum(rs: seq<Region>, k: nat): int
    requires Uniform(rs) && k < |KEYS|
  {
    if rs == [] then 0 else FieldSum(rs[..|rs| - 1], k) + rs[|rs| - 1].nums[k]
  }

  function GroupSum(gs: seq<Grouped>, k: nat): int
    requires (forall g :: g in gs ==> |g.nums| == |KEYS|) && k < |KEYS|
  {
    if gs == [] then 0 else GroupSum(gs[..|gs| - 1], k) + gs[|gs| - 1].nums[k]
  }

  /** Each path once, in the order in which paths are first seen. */
  function FirstSeen(rs: seq<Region>): seq<string> {
    if rs == [] then []
    else
      var before, p := FirstSeen(rs[..|rs| - 1]), rs[|rs| - 1].path;
      if p in before then before else before + [p]
  }

  /** The dictionary is insertion-ordered: `order` is the order of `d`'s keys. */
  method Group(rs: seq<Region>) returns (gs: seq<Grouped>)
    requires Uniform(rs)
    ensures |gs| == |FirstSeen(rs)|
    ensures forall i :: 0 <= i < |gs| ==> gs[i].path == FirstSeen(rs)[i] && |gs[i].nums| == |KEYS|
    ensures forall i, k :: 0 <= i < |gs| && 0 <= k < |KEYS| ==> gs[i].nums[k] == PathSum(rs, gs[i].path, k)
    ensures forall k :: 0 <= k < |KEYS| ==> GroupSum(gs, k) == FieldSum(rs, k)
  {
    var d: map<string, seq<int>>, order := map[], [];
    for n := 0 to |rs|
      invariant order == FirstSeen(rs[..n]) && d.Keys == set p | p in order
      invariant forall p :: p in d ==> |d[p]| == |KEYS|
      invariant forall p, k :: 0 <= k < |KEYS| ==>
                  PathSum(rs[..n], p, k) == if p in d then d[p][k] else 0
    {
      assert rs[..n + 1][..n] == rs[..n];
      var path, nums := rs[n].path, rs[n].nums;
      assert rs[n] in rs;
      if path in d {
        d := d[path := Add(d[path], nums)];
      } else {
        d := d[path := nums];
        order := order + [path];
      }
    }
    assert rs[..|rs|] == rs;
    gs := seq(|order|, i requires 0 <= i < |order| => Grouped(order[i], d[order[i]]));
    forall k | 0 <= k < |KEYS|
      ensures GroupSum(gs, k) == FieldSum(rs, k)
    {
      GroupsTotal(gs, order, rs, k);
      NothingLost(rs, k);
    }
  }

  ghost predicate NoDup(paths: seq<string>) {
    forall i, j :: 0 <= i < j < |paths| ==> paths[i] != paths[j]
  }

  /** Sum of field `k` over the regions of any of these paths. */
  ghost function PathsSum(paths: seq<string>, rs: seq<Region>, k: nat): int
    requires Uniform(rs) && k < |KEYS|
  {
    if paths == [] then 0 else PathsSum(paths[..|paths| - 1], rs, k) + PathSum(rs, paths[|paths| - 1], k)
  }

  lemma {:induction false} GroupsTotal(gs: seq<Grouped>, order: seq<string>, rs: seq<Region>, k: nat)
    requires Uniform(rs) && k < |KEYS| && |gs| == |order|
    requires forall i :: 0 <= i < |gs| ==> |gs[i].nums| == |KEYS| && gs[i].nums[k] == PathSum(rs, order[i], k)
    ensures GroupSum(gs, k) == PathsSum(order, rs, k)
    decreases |gs|
  {
    if gs != [] {
      GroupsTotal(gs[..|gs| - 1], order[..|gs| - 1], rs, k);
    }
  }

  lemma {:induction false} OneMoreRegion(paths: seq<string>, rs: seq<Region>, k: nat)
    requires Uniform(rs) && rs != [] && k < |KEYS| && NoDup(paths)
    ensures var last := rs[|rs| - 1];
            PathsSum(paths, rs, k) ==
            PathsSum(paths, rs[..|rs| - 1], k) + if last.path in paths then last.nums[k] else 0
    decreases |paths|
  {
    if paths != [] {
      var n := |paths| - 1;
      OneMoreRegion(paths[..n], rs, k);
      assert paths == paths[..n] + [paths[n]];
    }
  }

  lemma {:induction false} FirstSeenExactly(rs: seq<Region>, k: nat)
    requires Uniform(rs) && k < |KEYS|
    ensures NoDup(FirstSeen(rs))
    ensures forall p :: p !in FirstSeen(rs) ==> PathSum(rs, p, k) == 0
    decreases |rs|
  {
    if rs != [] {
      FirstSeenExactly(rs[..|rs| - 1], k);
    }
  }

  /** Region `n` is the first one mapped from `path`. */
  ghost predicate IsFirst(rs: seq<Region>, path: string, n: nat) {
    n < |rs| && rs[n].path == path && forall m :: 0 <= m < n ==> rs[m].path != path
  }

  /** The paths are those of the regions, by where they first occur. */
  lemma {:induction false} FirstSeenInOrder(rs: seq<Region>)
    ensures forall p :: p in FirstSeen(rs) <==> exists n :: IsFirst(rs, p, n)
    ensures forall i, j, m, n ::
              (0 <= i < j < |FirstSeen(rs)| && IsFirst(rs, FirstSeen(rs)[i], m) && IsFirst(rs, FirstSeen(rs)[j], n))
              ==> m < n
    decreases |rs|
  {
    if rs != [] {
      var last := |rs| - 1;
      var front := rs[..last];
      var before, p := FirstSeen(front), rs[last].path;
      FirstSeenInOrder(front);
      forall q, n: nat | n < last
        ensures IsFirst(rs, q, n) <==> IsFirst(front, q, n)
      {
      }
      if p !in before {
        assert forall n :: !IsFirst(front, p, n);
        NeverFirst(front, p);
        assert IsFirst(rs, p, last);
      }
      forall q
        ensures q in FirstSeen(rs) <==> exists n :: IsFirst(rs, q, n)
      {
        if n: nat :| IsFirst(rs, q, n) {
          if n < last {
            assert IsFirst(front, q, n);
          }
        }
        if q in before {
          var n :| IsFirst(front, q, n);
          assert IsFirst(rs, q, n);
        }
      }
      forall i, j, m, n |
        0 <= i < j < |FirstSeen(rs)| && IsFirst(rs, FirstSeen(rs)[i], m) && IsFirst(rs, FirstSeen(rs)[j], n)
        ensures m < n
      {
        assert FirstSeen(rs)[i] == before[i] && before[i] in before;
        var m' :| IsFirst(front, before[i], m');
        assert IsFirst(rs, before[i], m') && m == m';
        if j < |before| {
          assert before[j] in before;
          var n' :| IsFirst(front, before[j], n');
          assert IsFirst(rs, before[j], n') && n == n';
        }
      }
    }
  }

  lemma {:induction false} NeverFirst(rs: seq<Region>, path: string)
    requires forall n :: !IsFirst(rs, path, n)
    ensures forall m :: 0 <= m < |rs| ==> rs[m].path != path
    decreases |rs|
  {
    if rs != [] {
      var front := rs[..|rs| - 1];
      forall n
        ensures !IsFirst(front, path, n)
      {
        assert IsFirst(front, path, n) ==> IsFirst(rs, path, n);
      }
      NeverFirst(front, path);
      assert !IsFirst(rs, path, |rs| - 1);
    }
  }

  /** Grouping loses nothing and counts nothing twice. */
  lemma {:induction false} NothingLost(rs: seq<Region>, k: nat)
    requires Uniform(rs) && k < |KEYS|
    ensures PathsSum(FirstSeen(rs), rs, k) == FieldSum(rs, k)
    decreases |rs|
  {
    if rs != [] {
      var n := |rs| - 1;
      var before, last := FirstSeen(rs[..n]), rs[n];
      NothingLost(rs[..n], k);
      FirstSeenExactly(rs[..n], k);
      OneMoreRegion(before, rs, k);
      if last.path !in before {
        assert (before + [last.path])[..|before|] == before;
      }
    }
  }
}
