/** The three readers of /proc/pid/stat: `_parse_stat_file`, `ppid_map` and
    `_is_zombie`. */
module ProcStat {
  import opened Wrappers
  import opened Text

  datatype Error = IndexError | ValueError

  /** `blkioTicks` is None where the source stores the number 0. */
  datatype Stat = Stat(
    name: string, status: string, ppid: string, ttynr: string, minflt: string, majflt: string,
    utime: string, stime: string, childrenUtime: string, childrenStime: string,
    createTime: string, cpuNum: string, blkioTicks: Option<string>)

  /** What follows the last closing parenthesis and the space after it. */
  function Tail(data: string): string {
    From(data, RFind(data, ')') + 2)
  }

  function ParseStat(data: string): Result<Stat, Error> {
    Pick(Slice(data, Find(data, '(') + 1, RFind(data, ')')), Split(Tail(data)))
  }

  function Pick(name: string, fields: seq<string>): Result<Stat, Error> {
    if |fields| <= 36 then Err(IndexError)
    else Ok(Stat(
      name, fields[0], fields[1], fields[4], fields[7], fields[9], fields[11], fields[12], fields[13],
      fields[14], fields[19], fields[36], if |fields| > 39 then Some(fields[39]) else None))
  }

  /** The value `ppid_map` stores for a process. */
  function ParsePpid(data: string): Result<int, Error> {
    var fields := Split(Tail(data));
    if |fields| <= 1 then Err(IndexError)
    else match Int(fields[1])
      case Some(ppid) => Ok(ppid)
      case None => Err(ValueError)
  }

  predicate IsZombie(data: string) {
    Slice(data, RFind(data, ')') + 2, RFind(data, ')') + 3) == "Z"
  }

  // ----- what the kernel writes

  function Print(pid: nat, name: string, fields: seq<string>): string {
    Decimal(pid) + " (" + name + ") " + Join(fields, ' ') + "\n"
  }

  /** Fields are numbers and the state letter: words without parentheses. */
  ghost predicate IsField(f: string) {
    IsToken(f) && ')' !in f
  }

  lemma {:induction false} NoParenInJoin(fields: seq<string>)
    requires forall f :: f in fields ==> IsField(f)
    ensures ')' !in Join(fields, ' ')
    decreases |fields|
  {
    assert fields != [] ==> fields[0] in fields;
    if |fields| > 1 {
      NoParenInJoin(fields[1..]);
    }
  }

  lemma RFindLast(a: string, c: char, b: string)
    requires c !in b
    ensures RFind(a + [c] + b, c) == |a|
  {
    var s := a + [c] + b;
    assert s[|a|] == c && forall i :: |a| < i < |s| ==> s[i] == b[i - |a| - 1];
  }

  lemma TailOfPrint(pid: nat, name: string, fields: seq<string>)
    requires forall f :: f in fields ==> IsField(f)
    ensures Tail(Print(pid, name, fields)) == Join(fields, ' ') + "\n"
    ensures RFind(Print(pid, name, fields), ')') == |Decimal(pid)| + 2 + |name|
    ensures Find(Print(pid, name, fields), '(') == |Decimal(pid)| + 1
  {
    hide Join, Find, RFind, IsField;
    NoParenInJoin(fields);
    LastParen(Decimal(pid), name, Join(fields, ' '));
    FirstParen(Decimal(pid), name, Join(fields, ' '));
  }

  lemma LastParen(pid: string, name: string, fields: string)
    requires ')' !in fields
    ensures var data := pid + " (" + name + ") " + fields + "\n";
            RFind(data, ')') == |pid| + 2 + |name| && Tail(data) == fields + "\n"
  {
    hide RFind;
    var data := pid + " (" + name + ") " + fields + "\n";
    var head, rest := pid + " (" + name, " " + fields + "\n";
    assert data == head + [')'] + rest;
    RFindLast(head, ')', rest);
    assert data[|head| + 2..] == fields + "\n";
  }

  lemma FirstParen(pid: string, name: string, fields: string)
    requires '(' !in pid
    ensures Find(pid + " (" + name + ") " + fields + "\n", '(') == |pid| + 1
  {
    hide Find;
    var before, after := pid + " ", name + ") " + fields + "\n";
    assert pid + " (" + name + ") " + fields + "\n" == before + ['('] + after;
    FindFirst(before, '(', after);
  }

  /** Whatever the process name is, spaces and parentheses included, it and every
      field used come back; with fewer than 37 fields parsing fails. */
  lemma StatRoundTrip(pid: nat, name: string, fields: seq<string>)
    requires forall f :: f in fields ==> IsField(f)
    ensures var r := ParseStat(Print(pid, name, fields));
            if |fields| < 37 then r == Err(IndexError)
            else r == Ok(Stat(
              name, fields[0], fields[1], fields[4], fields[7], fields[9], fields[11], fields[12],
              fields[13], fields[14], fields[19], fields[36],
              if |fields| < 40 then None else Some(fields[39])))
  {
    hide Tail, Split, Print, Find, RFind;
    TailOfPrint(pid, name, fields);
    SplitJoin(fields, "\n");
    NameInPrint(pid, name, fields);
  }

  lemma NameInPrint(pid: nat, name: string, fields: seq<string>)
    ensures var at := |Decimal(pid)| + 2;
            Slice(Print(pid, name, fields), at, at + |name|) == name
  {
  }

  /** On any data at all, `ppid_map` stores the integer value of the `ppid` that
      `_parse_stat_file` returns. */
  lemma PpidAgrees(data: string)
    requires ParseStat(data).Ok?
    ensures ParsePpid(data) ==
            match Int(ParseStat(data).value.ppid)
            case Some(ppid) => Ok(ppid)
            case None => Err(ValueError)
  {
  }

  /** On any data, `_is_zombie` looks at one character where `_parse_stat_file`
      takes a word: they disagree exactly when that word is longer than one
      character and starts with Z, or is Z but does not start right there. */
  lemma ZombieAgreesExactly(data: string)
    requires ParseStat(data).Ok?
    ensures var status := ParseStat(data).value.status;
            var shifted := IsSpace(Tail(data)[0]);
            Tail(data) != ""
            && ((IsZombie(data) <==> status == "Z") <==>
                !(status == "Z" && shifted) && !(|status| > 1 && status[0] == 'Z' && !shifted))
  {
  }

  /** On what the kernel writes, with a one-letter state, they agree. */
  lemma ZombieOnPrint(pid: nat, name: string, fields: seq<string>)
    requires forall f :: f in fields ==> IsField(f)
    requires |fields| >= 37 && |fields[0]| == 1
    ensures IsZombie(Print(pid, name, fields)) <==> fields[0] == "Z"
  {
    StatRoundTrip(pid, name, fields);
    TailOfPrint(pid, name, fields);
    hide Tail, ParseStat, IsZombie, Print;
    var data := Print(pid, name, fields);
    assert fields[0] in fields;
    assert Join(fields, ' ') == fields[0] + [' '] + Join(fields[1..], ' ');
    assert Tail(data)[0] == fields[0][0];
    ZombieAgreesExactly(data);
  }
}
