/** `parse_environ_block`, as it works outside Windows. */
module Environ {
  import opened Text

  const NUL := '\0'

  type Env = map<string, string>

  // ----- the specification

  /** The entries of a block: what stands before each NUL, up to the first empty
      entry or to the last NUL. */
  function Entries(data: string): seq<string>
    decreases |data|
  {
    var i := Find(data, NUL);
    if i <= 0 then [] else [data[..i]] + Entries(data[i + 1..])
  }

  /** One entry's effect: an assignment with a name sets it, anything else nothing. */
  function Put(env: Env, entry: string): Env {
    var i := Find(entry, '=');
    if i > 0 then env[entry[..i] := entry[i + 1..]] else env
  }

  /** Whatever follows the first equals sign is the value, further ones included;
      an entry without one, or with nothing before it, has no effect. */
  lemma PutExactly(env: Env, key: string, value: string)
    requires '=' !in key
    ensures Put(env, key + "=" + value) == if key == "" then env else env[key := value]
    ensures Put(env, key) == env
  {
    var entry := key + "=" + value;
    assert key + ['='] + value == entry;
    FindFirst(key, '=', value);
    assert entry[..|key|] == key && entry[|key| + 1..] == value;
  }

  function PutAll(env: Env, entries: seq<string>): Env
    decreases |entries|
  {
    if entries == [] then env else PutAll(Put(env, entries[0]), entries[1..])
  }

  // ----- the scan

  method ParseEnvironBlock(data: string) returns (ret: Env)
    ensures ret == PutAll(map[], Entries(data))
  {
    hide Entries, Put, PutAll;
    ret := map[];
    var pos := 0;
    assert data[0..] == data;
    while true
      invariant 0 <= pos <= |data|
      invariant PutAll(ret, Entries(data[pos..])) == PutAll(map[], Entries(data))
      decreases |data| - pos
    {
      ScanStep(ret, data, pos);
      var nextPos := FindIn(data, NUL, pos, |data|);
      if nextPos <= pos {
        break;
      }
      var equalPos := FindIn(data, '=', pos, nextPos);
      if equalPos > pos {
        var key, value := data[pos..equalPos], data[equalPos + 1..nextPos];
        ret := ret[key := value];
      }
      pos := nextPos + 1;
    }
  }

  /** What one turn of the scan at `pos` does, against the entries still to come. */
  lemma ScanStep(ret: Env, data: string, pos: nat)
    requires pos <= |data|
    ensures var nextPos := FindIn(data, NUL, pos, |data|);
            if nextPos <= pos then PutAll(ret, Entries(data[pos..])) == ret
            else
              var e := FindIn(data, '=', pos, nextPos);
              var ret' := if e > pos then ret[data[pos..e] := data[e + 1..nextPos]] else ret;
              PutAll(ret, Entries(data[pos..])) == PutAll(ret', Entries(data[nextPos + 1..]))
  {
    hide Entries, Put, PutAll, FindIn;
    EntriesAt(data, pos);
    PutNothing(ret);
    var nextPos := FindIn(data, NUL, pos, |data|);
    if nextPos > pos {
      EntryPut(ret, data, pos, nextPos);
      PutAllCons(ret, data[pos..nextPos], Entries(data[nextPos + 1..]));
    }
  }

  lemma EntriesAt(data: string, pos: nat)
    requires pos <= |data|
    ensures var nextPos := FindIn(data, NUL, pos, |data|);
            Entries(data[pos..]) ==
            if nextPos <= pos then [] else [data[pos..nextPos]] + Entries(data[nextPos + 1..])
  {
    hide FindIn, Find, Entries;
    var rest := data[pos..];
    assert data[pos..|data|] == rest;
    FindInPart(data, NUL, pos, |data|);
    var nextPos := FindIn(data, NUL, pos, |data|);
    EntriesUnfold(rest);
    if nextPos > pos {
      assert rest[..nextPos - pos] == data[pos..nextPos] && rest[nextPos - pos + 1..] == data[nextPos + 1..];
    }
  }

  lemma EntriesUnfold(rest: string)
    ensures var i := Find(rest, NUL);
            Entries(rest) == if i <= 0 then [] else [rest[..i]] + Entries(rest[i + 1..])
  {
  }

  lemma PutNothing(env: Env)
    ensures PutAll(env, []) == env
  {
  }

  lemma PutAllCons(env: Env, entry: string, more: seq<string>)
    ensures PutAll(env, [entry] + more) == PutAll(Put(env, entry), more)
  {
  }

  lemma EntryPut(ret: Env, data: string, pos: nat, nextPos: nat)
    requires pos < nextPos <= |data|
    ensures var e := FindIn(data, '=', pos, nextPos);
            Put(ret, data[pos..nextPos]) == if e > pos then ret[data[pos..e] := data[e + 1..nextPos]] else ret
  {
    hide FindIn, Find;
    var entry, e := data[pos..nextPos], FindIn(data, '=', pos, nextPos);
    FindInPart(data, '=', pos, nextPos);
    var i := Find(entry, '=');
    assert e == if i >= 0 then pos + i else -1;
    if i > 0 {
      assert entry[..i] == data[pos..e];
      assert entry[i + 1..] == data[e + 1..nextPos];
      assert Put(ret, entry) == ret[entry[..i] := entry[i + 1..]];
    } else {
      assert Put(ret, entry) == ret;
    }
  }

  // ----- against the writer of a block

  datatype Var = Var(key: string, value: string)

  ghost predicate IsVar(v: Var) {
    v.key != "" && '=' !in v.key && NUL !in v.key && NUL !in v.value
  }

  function Serialize(vars: seq<Var>): string {
    if vars == [] then "" else vars[0].key + "=" + vars[0].value + [NUL] + Serialize(vars[1..])
  }

  function Lines(vars: seq<Var>): seq<string> {
    if vars == [] then [] else [vars[0].key + "=" + vars[0].value] + Lines(vars[1..])
  }

  /** Nothing, an empty entry with anything after it, or an entry cut short. */
  ghost predicate EndsBlock(rest: string) {
    rest == "" || rest[0] == NUL || NUL !in rest
  }

  lemma {:induction false} EntriesOfSerialize(vars: seq<Var>, rest: string)
    requires (forall v :: v in vars ==> IsVar(v)) && EndsBlock(rest)
    ensures Entries(Serialize(vars) + rest) == Lines(vars)
    decreases |vars|
  {
    hide Find;
    if vars == [] {
      assert Serialize(vars) + rest == rest;
    } else {
      var line, more := vars[0].key + "=" + vars[0].value, Serialize(vars[1..]) + rest;
      assert IsVar(vars[0]);
      var data := line + [NUL] + more;
      assert Serialize(vars) + rest == data;
      FindFirst(line, NUL, more);
      assert data[..|line|] == line && data[|line| + 1..] == more;
      EntriesOfSerialize(vars[1..], rest);
    }
  }

  function Assigned(env: Env, vars: seq<Var>): Env
    decreases |vars|
  {
    if vars == [] then env else Assigned(env[vars[0].key := vars[0].value], vars[1..])
  }

  lemma {:induction false} PutAllLines(env: Env, vars: seq<Var>)
    requires forall v :: v in vars ==> IsVar(v)
    ensures PutAll(env, Lines(vars)) == Assigned(env, vars)
    decreases |vars|
  {
    hide Find;
    if vars != [] {
      assert IsVar(vars[0]);
      var line := vars[0].key + "=" + vars[0].value;
      FindFirst(vars[0].key, '=', vars[0].value);
      assert vars[0].key + ['='] + vars[0].value == line;
      assert line[..|vars[0].key|] == vars[0].key && line[|vars[0].key| + 1..] == vars[0].value;
      PutAllLines(env[vars[0].key := vars[0].value], vars[1..]);
    }
  }

  /** `i` is the last position that sets its key. */
  ghost predicate IsLast(vars: seq<Var>, i: nat)
    requires i < |vars|
  {
    forall j :: i < j < |vars| ==> vars[j].key != vars[i].key
  }

  lemma {:induction false} LastWins(env: Env, vars: seq<Var>)
    ensures forall k :: k in Assigned(env, vars) <==> k in env || exists i :: 0 <= i < |vars| && vars[i].key == k
    ensures forall i :: 0 <= i < |vars| && IsLast(vars, i) ==> Assigned(env, vars)[vars[i].key] == vars[i].value
    ensures forall k :: k in env && (forall i :: 0 <= i < |vars| ==> vars[i].key != k) ==>
              Assigned(env, vars)[k] == env[k]
    decreases |vars|
  {
    if vars != [] {
      var env', rest := env[vars[0].key := vars[0].value], vars[1..];
      LastWins(env', rest);
      forall k
        ensures k in Assigned(env, vars) <==> k in env || exists i :: 0 <= i < |vars| && vars[i].key == k
      {
        if i :| 0 <= i < |rest| && rest[i].key == k {
          assert vars[i + 1].key == k;
        }
        if i :| 0 <= i < |vars| && vars[i].key == k {
          assert i > 0 ==> rest[i - 1].key == k;
        }
      }
      forall i | 0 <= i < |vars| && IsLast(vars, i)
        ensures Assigned(env, vars)[vars[i].key] == vars[i].value
      {
        if i > 0 {
          assert IsLast(rest, i - 1);
        } else {
          assert forall j :: 0 <= j < |rest| ==> rest[j] == vars[j + 1];
        }
      }
      forall k | k in env && forall i :: 0 <= i < |vars| ==> vars[i].key != k
        ensures Assigned(env, vars)[k] == env[k]
      {
        assert forall i :: 0 <= i < |rest| ==> rest[i] == vars[i + 1];
        assert vars[0].key != k;
      }
    }
  }

  /** Parsing gives back the variables of a block, the last assignment to a name
      winning, whatever follows the empty entry that ends it. */
  lemma EnvironRoundTrip(vars: seq<Var>, rest: string)
    requires (forall v :: v in vars ==> IsVar(v)) && EndsBlock(rest)
    ensures var env := PutAll(map[], Entries(Serialize(vars) + rest));
            && (forall k :: k in env <==> exists i :: 0 <= i < |vars| && vars[i].key == k)
            && (forall i :: 0 <= i < |vars| && IsLast(vars, i) ==> env[vars[i].key] == vars[i].value)
  {
    EntriesOfSerialize(vars, rest);
    PutAllLines(map[], vars);
    LastWins(map[], vars);
  }
}
