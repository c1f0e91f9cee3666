/** The string operations the parsers are built from, as Python does them on
    ASCII text. */
module Text {
  import opened Wrappers

  predicate IsSpace(c: char) {
    c == ' ' || '\t' <= c <= '\r'
  }

  ghost predicate NoSpace(s: string) {
    forall c :: c in s ==> !IsSpace(c)
  }

  /** A non-empty word without white space. */
  ghost predicate IsToken(s: string) {
    s != "" && NoSpace(s)
  }

  // ----- find and rfind

  /** `s.find(c, a, b)`: the first position of `c` from `a` up to `b`, or -1. */
  function FindIn(s: string, c: char, a: nat, b: nat): (r: int)
    requires a <= b <= |s|
    ensures r == -1 || a <= r < b
    ensures r >= 0 ==> s[r] == c && forall i :: a <= i < r ==> s[i] != c
    ensures r == -1 ==> forall i :: a <= i < b ==> s[i] != c
    decreases b - a
  {
    if a == b then -1 else if s[a] == c then a else FindIn(s, c, a + 1, b)
  }

  /** `s.find(c)` */
  function Find(s: string, c: char): (r: int)
    ensures -1 <= r < |s| && (r == -1 <==> c !in s)
    ensures r >= 0 ==> s[r] == c && forall i :: 0 <= i < r ==> s[i] != c
  {
    FindIn(s, c, 0, |s|)
  }

  /** Looking in a part of a string. */
  lemma FindInPart(s: string, c: char, a: nat, b: nat)
    requires a <= b <= |s|
    ensures var q := Find(s[a..b], c);
            FindIn(s, c, a, b) == if q >= 0 then a + q else -1
  {
  }

  function RFindIn(s: string, c: char, b: nat): (r: int)
    requires b <= |s|
    ensures -1 <= r < b
    ensures r >= 0 ==> s[r] == c
    ensures forall i :: r < i < b && i >= 0 ==> s[i] != c
  {
    if b == 0 then -1 else if s[b - 1] == c then b - 1 else RFindIn(s, c, b - 1)
  }

  /** `s.rfind(c)`: the last position of `c`, or -1. */
  function RFind(s: string, c: char): (r: int)
    ensures -1 <= r < |s|
    ensures r >= 0 ==> s[r] == c
    ensures forall i :: r < i < |s| && i >= 0 ==> s[i] != c
  {
    RFindIn(s, c, |s|)
  }

  /** `s[a:b]`, where a negative `b` counts from the end. */
  function Slice(s: string, a: nat, b: int): string {
    var hi := if b < 0 then b + |s| else if b > |s| then |s| else b;
    if a >= hi then "" else s[a..hi]
  }

  /** `s[a:]` */
  function From(s: string, a: nat): string {
    if a >= |s| then "" else s[a..]
  }

  // ----- strip and split

  function SkipSpace(s: string): (r: string)
    ensures |r| <= |s| && (r != "" ==> !IsSpace(r[0]))
  {
    if s != "" && IsSpace(s[0]) then SkipSpace(s[1..]) else s
  }

  function DropSpace(s: string): (r: string)
    ensures |r| <= |s| && (r != "" ==> !IsSpace(r[|r| - 1]))
  {
    if s != "" && IsSpace(s[|s| - 1]) then DropSpace(s[..|s| - 1]) else s
  }

  /** `s.strip()` */
  function Strip(s: string): string {
    DropSpace(SkipSpace(s))
  }

  /** Length of the word `s` begins with. */
  function WordLength(s: string): (n: nat)
    ensures n <= |s| && NoSpace(s[..n])
    ensures n < |s| ==> IsSpace(s[n])
  {
    if s == "" || IsSpace(s[0]) then 0
    else
      var n := WordLength(s[1..]);
      assert s[..n + 1] == [s[0]] + s[1..][..n];
      n + 1
  }

  /** `s.split(None, limit)`: words, and after `limit` of them the rest. */
  function SplitMax(s: string, limit: nat): seq<string>
    decreases limit
  {
    var t := SkipSpace(s);
    if t == "" then []
    else if limit == 0 then [t]
    else
      var n := WordLength(t);
      [t[..n]] + SplitMax(t[n..], limit - 1)
  }

  /** `s.split()` */
  function Split(s: string): seq<string>
    decreases |s|
  {
    var t := SkipSpace(s);
    if t == "" then []
    else
      var n := WordLength(t);
      [t[..n]] + Split(t[n..])
  }

  lemma {:induction false} WordLengthOfToken(w: string, rest: string)
    requires NoSpace(w) && (rest == "" || IsSpace(rest[0]))
    ensures WordLength(w + rest) == |w|
    decreases |w|
  {
    if w == "" {
      assert w + rest == rest;
    } else {
      assert (w + rest)[1..] == w[1..] + rest;
      WordLengthOfToken(w[1..], rest);
    }
  }

  lemma {:induction false} SkipSpaces(sp: string, rest: string)
    requires forall c :: c in sp ==> IsSpace(c)
    ensures SkipSpace(sp + rest) == SkipSpace(rest)
    decreases |sp|
  {
    if sp == "" {
      assert sp + rest == rest;
    } else {
      assert (sp + rest)[1..] == sp[1..] + rest;
      SkipSpaces(sp[1..], rest);
    }
  }

  /** White space in front makes no difference, and a word comes off the front. */
  lemma SplitMaxWord(sp: string, w: string, rest: string, limit: nat)
    requires (forall c :: c in sp ==> IsSpace(c)) && IsToken(w) && (rest == "" || IsSpace(rest[0]))
    ensures SplitMax(sp + (w + rest), limit + 1) == [w] + SplitMax(rest, limit)
  {
    SkipSpaces(sp, w + rest);
    WordLengthOfToken(w, rest);
    assert (w + rest)[..|w|] == w && (w + rest)[|w|..] == rest;
  }

  lemma SplitWord(sp: string, w: string, rest: string)
    requires (forall c :: c in sp ==> IsSpace(c)) && IsToken(w) && (rest == "" || IsSpace(rest[0]))
    ensures Split(sp + (w + rest)) == [w] + Split(rest)
  {
    SkipSpaces(sp, w + rest);
    WordLengthOfToken(w, rest);
    assert (w + rest)[..|w|] == w && (w + rest)[|w|..] == rest;
  }

  /** Words with one space between them, and white space after. */
  function Join(words: seq<string>, sep: char): string {
    if words == [] then ""
    else if |words| == 1 then words[0]
    else words[0] + [sep] + Join(words[1..], sep)
  }

  lemma {:induction false} SplitJoin(words: seq<string>, tail: string)
    requires forall w :: w in words ==> IsToken(w)
    requires forall c :: c in tail ==> IsSpace(c)
    ensures Split(Join(words, ' ') + tail) == words
    decreases |words|
  {
    hide Split;
    if words == [] {
      SplitSpaces(tail, "");
      assert tail + "" == tail && Join(words, ' ') + tail == tail;
    } else if |words| == 1 {
      SplitWord("", words[0], tail);
      assert "" + (words[0] + tail) == Join(words, ' ') + tail;
      SplitSpaces(tail, "");
      assert tail + "" == tail;
    } else {
      var rest := Join(words[1..], ' ') + tail;
      SplitWord("", words[0], [' '] + rest);
      assert "" + (words[0] + ([' '] + rest)) == Join(words, ' ') + tail;
      SplitSpaces([' '], rest);
      SplitJoin(words[1..], tail);
    }
  }

  lemma SplitSpaces(sp: string, rest: string)
    requires forall c :: c in sp ==> IsSpace(c)
    ensures Split(sp + rest) == Split(rest) && Split("") == []
  {
    SkipSpaces(sp, rest);
  }

  // ----- split on a separator

  /** `s.split(sep)` */
  function SplitOn(s: string, sep: char): (r: seq<string>)
    ensures r != []
    decreases |s|
  {
    var i := Find(s, sep);
    if i < 0 then [s] else [s[..i]] + SplitOn(s[i + 1..], sep)
  }

  lemma FindFirst(a: string, c: char, b: string)
    requires c !in a
    ensures Find(a + [c] + b, c) == |a|
  {
    var s := a + [c] + b;
    assert s[|a|] == c && forall i :: 0 <= i < |a| ==> s[i] == a[i];
  }

  lemma SplitOnCons(a: string, sep: char, rest: string)
    requires sep !in a
    ensures SplitOn(a + [sep] + rest, sep) == [a] + SplitOn(rest, sep)
    ensures SplitOn(a, sep) == [a]
  {
    FindFirst(a, sep, rest);
    var s := a + [sep] + rest;
    assert s[..|a|] == a && s[|a| + 1..] == rest;
  }

  lemma {:induction false} SplitOnJoin(parts: seq<string>, sep: char)
    requires parts != [] && forall p :: p in parts ==> sep !in p
    ensures SplitOn(Join(parts, sep), sep) == parts
    decreases |parts|
  {
    hide SplitOn;
    assert parts[0] in parts;
    SplitOnCons(parts[0], sep, Join(parts[1..], sep));
    if |parts| > 1 {
      SplitOnJoin(parts[1..], sep);
    }
  }

  lemma JoinEnds(parts: seq<string>, sep: char)
    requires parts != [] && parts[0] != "" && parts[|parts| - 1] != ""
    ensures var s, last := Join(parts, sep), parts[|parts| - 1];
            s != "" && s[0] == parts[0][0] && s[|s| - 1] == last[|last| - 1]
  {
    JoinLast(parts, sep);
  }

  lemma {:induction false} JoinLast(parts: seq<string>, sep: char)
    requires parts != [] && parts[|parts| - 1] != ""
    ensures var s, last := Join(parts, sep), parts[|parts| - 1];
            s != "" && s[|s| - 1] == last[|last| - 1]
    decreases |parts|
  {
    if |parts| > 1 {
      JoinLast(parts[1..], sep);
    }
  }

  lemma StripTail(s: string, tail: string)
    requires s != "" && !IsSpace(s[0]) && !IsSpace(s[|s| - 1])
    requires forall c :: c in tail ==> IsSpace(c)
    ensures Strip(s + tail) == s
  {
    assert SkipSpace(s + tail) == s + tail;
    DropTail(s, tail);
  }

  lemma {:induction false} DropTail(s: string, tail: string)
    requires s != "" && !IsSpace(s[|s| - 1]) && forall c :: c in tail ==> IsSpace(c)
    ensures DropSpace(s + tail) == s
    decreases |tail|
  {
    if tail == "" {
      assert s + tail == s;
    } else {
      var t := s + tail;
      assert t[|t| - 1] == tail[|tail| - 1] && t[|t| - 1] in tail;
      assert t[..|t| - 1] == s + tail[..|tail| - 1];
      DropTail(s, tail[..|tail| - 1]);
    }
  }

  /** Something more at the end of the last part is at the end of the whole. */
  lemma {:induction false} JoinMore(parts: seq<string>, last: string, more: string, sep: char)
    ensures Join(parts + [last + more], sep) == Join(parts + [last], sep) + more
    decreases |parts|
  {
    if parts != [] {
      JoinMore(parts[1..], last, more, sep);
      assert (parts + [last + more])[1..] == parts[1..] + [last + more];
      assert (parts + [last])[1..] == parts[1..] + [last];
    }
  }

  lemma StripNothing(s: string)
    requires s != "" && !IsSpace(s[0]) && !IsSpace(s[|s| - 1])
    ensures Strip(s) == s
  {
  }

  /** White space around a text does not matter. */
  lemma StripPadded(before: string, s: string, after: string)
    requires (forall c :: c in before ==> IsSpace(c)) && (forall c :: c in after ==> IsSpace(c))
    requires s == "" || (!IsSpace(s[0]) && !IsSpace(s[|s| - 1]))
    ensures Strip(before + (s + after)) == s
  {
    hide SkipSpace, DropSpace;
    SkipSpaces(before, s + after);
    if s == "" {
      SkipSpaces(after, "");
      assert s + after == after && after + "" == after;
      NothingToSkip();
    } else {
      StripTail(s, after);
    }
  }

  lemma NothingToSkip()
    ensures SkipSpace("") == "" && DropSpace("") == ""
  {
  }

  /** Nothing but white space is stripped. */
  lemma {:induction false} StripKeeps(s: string, c: char)
    requires c in s && !IsSpace(c)
    ensures c in Strip(s)
  {
    SkipKeeps(s, c);
    DropKeeps(SkipSpace(s), c);
  }

  lemma {:induction false} SkipKeeps(s: string, c: char)
    requires c in s && !IsSpace(c)
    ensures c in SkipSpace(s)
    decreases |s|
  {
    if IsSpace(s[0]) {
      SkipKeeps(s[1..], c);
    }
  }

  lemma {:induction false} DropKeeps(s: string, c: char)
    requires c in s && !IsSpace(c)
    ensures c in DropSpace(s)
    decreases |s|
  {
    if IsSpace(s[|s| - 1]) {
      DropKeeps(s[..|s| - 1], c);
    }
  }

  // ----- decimal numbers

  predicate IsDigit(c: char) {
    '0' <= c <= '9'
  }

  function DigitChar(d: nat): (c: char)
    requires d < 10
    ensures IsDigit(c) && (c as int) - ('0' as int) == d
  {
    ('0' as int + d) as char
  }

  function Decimal(n: nat): (s: string)
    ensures s != "" && forall c :: c in s ==> IsDigit(c)
  {
    if n < 10 then [DigitChar(n)] else Decimal(n / 10) + [DigitChar(n % 10)]
  }

  /** Digits, with single underscores between them. */
  predicate IsNumber(s: string) {
    s != "" && IsDigit(s[|s| - 1])
    && (|s| == 1
        || IsNumber(s[..|s| - 1])
        || (s[|s| - 2] == '_' && IsNumber(s[..|s| - 2])))
  }

  function DigitsValue(s: string): nat {
    if s == "" then 0
    else
      var c := s[|s| - 1];
      if IsDigit(c) then 10 * DigitsValue(s[..|s| - 1]) + (c as int - '0' as int) else DigitsValue(s[..|s| - 1])
  }

  /** `int(s)`; None stands for ValueError. */
  function Int(s: string): Option<int> {
    var t := Strip(s);
    var signed := t != "" && (t[0] == '+' || t[0] == '-');
    var digits := if signed then t[1..] else t;
    var value: int := DigitsValue(digits);
    if !IsNumber(digits) then None
    else if signed && t[0] == '-' then Some(-value)
    else Some(value)
  }

  /** Anything but digits, signs, underscores and white space is not a number. */
  lemma IntRejects(s: string, c: char)
    requires c in s && !IsSpace(c) && !IsDigit(c) && c != '_' && c != '+' && c != '-'
    ensures Int(s) == None
  {
    hide Strip;
    StripKeeps(s, c);
    var t := Strip(s);
    var digits := if t[0] == '+' || t[0] == '-' then t[1..] else t;
    assert c in digits;
    if IsNumber(digits) {
      NumberChars(digits);
    }
  }

  lemma {:induction false} NumberChars(s: string)
    requires IsNumber(s)
    ensures forall c :: c in s ==> IsDigit(c) || c == '_'
    decreases |s|
  {
    if |s| > 1 {
      var n := |s| - 1;
      assert forall c :: c in s ==> c in s[..n] || c == s[n];
      if IsNumber(s[..n]) {
        NumberChars(s[..n]);
      } else {
        NumberChars(s[..n - 1]);
        assert forall c :: c in s[..n] ==> c in s[..n - 1] || c == s[n - 1];
      }
    }
  }

  lemma {:induction false} DecimalValue(n: nat)
    ensures IsNumber(Decimal(n)) && DigitsValue(Decimal(n)) == n
  {
    if n >= 10 {
      DecimalValue(n / 10);
      var s := Decimal(n);
      assert s[..|s| - 1] == Decimal(n / 10);
    } else {
      var s := Decimal(n);
      assert s[..|s| - 1] == "";
    }
  }

  /** `int(str(n)) == n` */
  lemma IntOfDecimal(n: nat)
    ensures Int(Decimal(n)) == Some(n)
  {
    DecimalValue(n);
    var s := Decimal(n);
    assert s[0] in s && s[|s| - 1] in s;
    StripNothing(s);
  }
}
