/** `str_copy` and `str_append` of arch/all/str.c, and `psutil_remove_spaces` of
    arch/freebsd/proc.c, on the caller's buffer. */
module CStrings {
  import opened Wrappers

  const NUL := '\0'

  /** The C string that a piece of memory holds: what stands before the first NUL. */
  function CString(s: seq<char>): Option<string> {
    if s == [] then None
    else if s[0] == NUL then Some("")
    else
      var rest := CString(s[1..]);
      if rest.None? then None else Some([s[0]] + rest.value)
  }

  lemma {:induction false} CStringIs(s: string, rest: seq<char>)
    requires NUL !in s
    ensures CString(s + [NUL] + rest) == Some(s)
    ensures CString(s) == None
    decreases |s|
  {
    if s != "" {
      var all := s + [NUL] + rest;
      CStringIs(s[1..], rest);
      assert all[1..] == s[1..] + [NUL] + rest && all[0] == s[0] && s[0] in s;
      assert [s[0]] + s[1..] == s;
    }
  }

  /** As much of `s` as a buffer of `size` bytes holds. */
  function Fit(s: string, size: nat): string
    requires size > 0
  {
    if |s| < size then s else s[..size - 1]
  }

  /** It is a prefix of `s`, and of those that leave room for the terminator the longest. */
  lemma FitIsLongest(s: string, size: nat, prefix: string)
    requires size > 0 && prefix <= s && |prefix| < size
    ensures Fit(s, size) <= s && |Fit(s, size)| < size && prefix <= Fit(s, size)
  {
  }

  /** `memmove(dst + at, src, |src|)` from another object. */
  method CopyIn(dst: array<char>, at: nat, src: seq<char>)
    requires at + |src| <= dst.Length
    modifies dst
    ensures dst[..] == old(dst[..])[..at] + src + old(dst[..])[at + |src|..]
  {
    for i := 0 to |src|
      invariant forall k :: 0 <= k < dst.Length ==> dst[k] == if at <= k < at + i then src[k - at] else old(dst[k])
    {
      dst[at + i] := src[i];
    }
  }

  /** A string without its terminator, which is written after it. */
  method CopyCut(dst: array<char>, at: nat, src: string)
    requires at + |src| < dst.Length
    modifies dst
    ensures dst[..] == old(dst[..])[..at] + src + [NUL] + old(dst[..])[at + |src| + 1..]
  {
    CopyIn(dst, at, src);
    dst[at + |src|] := NUL;
  }

  /** A string with its terminator. */
  method CopyWhole(dst: array<char>, at: nat, src: string)
    requires at + |src| < dst.Length
    modifies dst
    ensures dst[..] == old(dst[..])[..at] + src + [NUL] + old(dst[..])[at + |src| + 1..]
  {
    CopyIn(dst, at, src + [NUL]);
  }

  /** `strnlen(dst, size)` */
  method StrNLen(dst: array<char>, size: nat) returns (n: nat)
    requires size <= dst.Length
    ensures n <= size && NUL !in dst[..n]
    ensures n < size ==> dst[n] == NUL
  {
    n := 0;
    while n < size && dst[n] != NUL
      invariant n <= size && NUL !in dst[..n]
    {
      assert dst[..n + 1] == dst[..n] + [dst[n]];
      n := n + 1;
    }
  }

  /** A null pointer is `null` or None; `src` is the C string it points to. */
  predicate InvalidArg(dst: array?<char>, size: nat, src: Option<string>) {
    dst == null || src.None? || size == 0
  }

  method StrCopy(dst: array?<char>, size: nat, src: Option<string>) returns (r: int)
    requires dst != null ==> size <= dst.Length
    requires src.Some? ==> NUL !in src.value
    modifies if dst == null then {} else {dst}
    ensures r == if InvalidArg(dst, size, src) || |src.value| >= size then -1 else 0
    ensures dst != null && InvalidArg(dst, size, src) ==> dst[..] == old(dst[..])
    ensures !InvalidArg(dst, size, src) ==>
              dst[..] == Fit(src.value, size) + [NUL] + old(dst[..])[|Fit(src.value, size)| + 1..]
  {
    if dst == null || src.None? || size == 0 {
      return -1;
    }
    var s := src.value;
    if |s| >= size {
      CopyCut(dst, 0, s[..size - 1]);
      return -1;
    }
    CopyWhole(dst, 0, s);
    return 0;
  }

  /** The rest of `str_append`, given the length of what the buffer holds. */
  method AppendAt(dst: array<char>, size: nat, dstLen: nat, src: string) returns (r: int)
    requires dstLen < size <= dst.Length
    modifies dst
    ensures var whole := old(dst[..])[..dstLen] + src;
            && r == (if |whole| < size then 0 else -1)
            && dst[..] == Fit(whole, size) + [NUL] + old(dst[..])[|Fit(whole, size)| + 1..]
  {
    hide Fit;
    var avail := size - dstLen - 1;
    FitTail(dst[..][..dstLen], src, size);
    if |src| > avail {
      CopyCut(dst, dstLen, src[..avail]);
      return -1;
    }
    CopyWhole(dst, dstLen, src);
    return 0;
  }

  method StrAppend(dst: array?<char>, size: nat, src: Option<string>) returns (r: int)
    requires dst != null ==> size <= dst.Length
    requires src.Some? ==> NUL !in src.value
    modifies if dst == null then {} else {dst}
    ensures InvalidArg(dst, size, src) || CString(old(dst[..size])).None? ==>
              r == -1 && (dst != null ==> dst[..] == old(dst[..]))
    ensures !InvalidArg(dst, size, src) && CString(old(dst[..size])).Some? ==>
              var whole := CString(old(dst[..size])).value + src.value;
              && r == (if |whole| < size then 0 else -1)
              && dst[..] == Fit(whole, size) + [NUL] + old(dst[..])[|Fit(whole, size)| + 1..]
              && CString(dst[..size]) == Some(Fit(whole, size))
  {
    if dst == null || src.None? || size == 0 {
      return -1;
    }
    hide CString, Fit;
    ghost var was := dst[..];
    assert was[..size] == dst[..size];
    var dstLen := StrNLen(dst, size);
    HeldString(was[..size], dstLen);
    assert was[..size][..dstLen] == dst[..dstLen];
    if dstLen >= size {
      return -1;
    }
    FitTail(was[..dstLen], src.value, size);
    r := AppendAt(dst, size, dstLen, src.value);
    NewString(dst[..], was, Fit(was[..dstLen] + src.value, size), size);
  }

  lemma FitTail(a: string, s: string, size: nat)
    requires |a| < size
    ensures Fit(a + s, size) == a + if |s| > size - |a| - 1 then s[..size - |a| - 1] else s
    ensures |Fit(a + s, size)| < size && (|a + s| < size <==> |s| <= size - |a| - 1)
    ensures NUL !in a && NUL !in s ==> NUL !in Fit(a + s, size)
  {
  }

  lemma NewString(now: seq<char>, was: seq<char>, held: string, size: nat)
    requires |held| < size <= |was| && NUL !in held && now == held + [NUL] + was[|held| + 1..]
    ensures CString(now[..size]) == Some(held)
  {
    assert now[..size] == held + [NUL] + was[|held| + 1..size];
    CStringIs(held, was[|held| + 1..size]);
  }

  /** The string a buffer holds, given where its first NUL is, if anywhere. */
  lemma HeldString(s: seq<char>, n: nat)
    requires n <= |s| && NUL !in s[..n] && (n < |s| ==> s[n] == NUL)
    ensures CString(s) == if n < |s| then Some(s[..n]) else None
  {
    if n < |s| {
      assert s == s[..n] + [NUL] + s[n + 1..];
      CStringIs(s[..n], s[n + 1..]);
    } else {
      assert s[..n] == s;
      CStringIs(s, []);
    }
  }

  // ----- any number of appends

  function Concat(srcs: seq<string>): string {
    if srcs == [] then "" else Concat(srcs[..|srcs| - 1]) + srcs[|srcs| - 1]
  }

  /** What a buffer holds after appending these strings one by one to `held`. */
  function AppendAll(held: string, size: nat, srcs: seq<string>): string
    requires size > 0
  {
    if srcs == [] then held else Fit(AppendAll(held, size, srcs[..|srcs| - 1]) + srcs[|srcs| - 1], size)
  }

  /** Appending to an empty buffer leaves exactly the longest part of everything
      appended that fits, although later calls do not know what was cut before. */
  lemma {:induction false} AppendsKeepLongestPrefix(size: nat, srcs: seq<string>)
    requires size > 0
    ensures AppendAll("", size, srcs) == Fit(Concat(srcs), size)
    decreases |srcs|
  {
    if srcs != [] {
      AppendsKeepLongestPrefix(size, srcs[..|srcs| - 1]);
    }
  }

  lemma FitAppend(a: string, b: string, size: nat)
    requires size > 0
    ensures Fit(Fit(a, size) + b, size) == Fit(a + b, size) && |Fit(a + b, size)| < size
    ensures |a + b| < size <==> |a| < size && |Fit(a, size) + b| < size
  {
  }

  lemma FitNothing(size: nat)
    requires size > 0
    ensures Fit("", size) == ""
  {
  }

  lemma RestKept(now: seq<char>, was: seq<char>, held: string, size: nat)
    requires |held| < size <= |was| && now == held + [NUL] + was[|held| + 1..]
    ensures |now| == |was| && now[size..] == was[size..]
  {
  }

  /** The same of the buffer itself: calling `str_append` for one string after the
      other, on an empty string, leaves the longest part of them all that fits;
      and every call succeeded exactly when that is all of them. */
  method AppendEach(dst: array<char>, size: nat, srcs: seq<string>) returns (ok: bool)
    requires 0 < size <= dst.Length && CString(dst[..size]) == Some("")
    requires forall s :: s in srcs ==> NUL !in s
    modifies dst
    ensures CString(dst[..size]) == Some(Fit(Concat(srcs), size)) && dst[size..] == old(dst[size..])
    ensures ok <==> |Concat(srcs)| < size
  {
    hide CString, Fit;
    FitNothing(size);
    ok := true;
    for i := 0 to |srcs|
      invariant CString(dst[..size]) == Some(Fit(Concat(srcs[..i]), size)) && dst[size..] == old(dst[size..])
      invariant ok <==> |Concat(srcs[..i])| < size
    {
      assert srcs[..i + 1][..i] == srcs[..i];
      FitAppend(Concat(srcs[..i]), srcs[i], size);
      ghost var was := dst[..];
      assert was[..size] == dst[..size];
      var r := StrAppend(dst, size, Some(srcs[i]));
      RestKept(dst[..], was, Fit(Concat(srcs[..i + 1]), size), size);
      assert dst[..][size..] == dst[size..] && was[size..] == old(dst[size..]);
      ok := ok && r == 0;
    }
    assert srcs[..|srcs|] == srcs;
  }

  // ----- psutil_remove_spaces

  function NoSpaces(s: seq<char>): seq<char> {
    if s == [] then []
    else
      var before, c := NoSpaces(s[..|s| - 1]), s[|s| - 1];
      if c == ' ' then before else before + [c]
  }

  /** Order is kept: piece by piece, a space gives nothing and anything else itself. */
  lemma {:induction false} NoSpacesPiecewise(a: seq<char>, b: seq<char>)
    ensures NoSpaces(a + b) == NoSpaces(a) + NoSpaces(b)
    decreases |b|
  {
    if b == [] {
      assert a + b == a;
    } else {
      var n := |b| - 1;
      var whole := a + b;
      assert whole[..|whole| - 1] == a + b[..n] && whole[|whole| - 1] == b[n];
      NoSpacesPiecewise(a, b[..n]);
      Assoc(NoSpaces(a), NoSpaces(b[..n]), [b[n]]);
    }
  }

  lemma NoSpacesOfOne(c: char)
    ensures NoSpaces([c]) == if c == ' ' then [] else [c]
  {
    assert [c][..0] == [];
  }

  lemma Assoc(a: seq<char>, b: seq<char>, c: seq<char>)
    ensures a + b + c == a + (b + c)
  {
  }

  /** Nothing but the spaces is gone, and going over it again changes nothing. */
  lemma {:induction false} OnlySpacesGone(s: seq<char>)
    ensures ' ' !in NoSpaces(s) && |NoSpaces(s)| <= |s|
    ensures multiset(NoSpaces(s)) == multiset(s)[' ' := 0]
    ensures NoSpaces(NoSpaces(s)) == NoSpaces(s)
    decreases |s|
  {
    if s != [] {
      var n := |s| - 1;
      assert s == s[..n] + [s[n]];
      OnlySpacesGone(s[..n]);
    }
  }

  /** Two pointers walk along the string; `end` is where its NUL is. */
  method RemoveSpaces(str: array<char>, ghost end: nat)
    requires end < str.Length && str[end] == NUL && NUL !in str[..end]
    modifies str
    ensures var kept := NoSpaces(old(str[..end]));
            |kept| <= end && str[..] == kept + [NUL] + old(str[..])[|kept| + 1..]
    ensures CString(str[..]) == Some(NoSpaces(old(str[..end])))
  {
    hide NoSpaces, CString;
    var p1, p2, copied := 0, 0, ' ';
    ghost var was := str[..];
    NothingKept();
    while copied != NUL
      invariant p1 <= p2 <= end + 1 && |was| == str.Length
      invariant str[..p1] == NoSpaces(was[..p2])
      invariant forall k :: p1 <= k < str.Length ==> str[k] == was[k]
      invariant copied == NUL <==> p2 == end + 1
      decreases end + 1 - p2
    {
      while str[p2] == ' '
        invariant p1 <= p2 <= end
        invariant str[..p1] == NoSpaces(was[..p2])
        invariant forall k :: p1 <= k < str.Length ==> str[k] == was[k]
        decreases end - p2
      {
        OneMore(was, p2);
        p2 := p2 + 1;
      }
      OneMore(was, p2);
      copied := str[p2];
      str[p1] := copied;
      p1, p2 := p1 + 1, p2 + 1;
    }
    ghost var kept := NoSpaces(was[..end]);
    OneMore(was, end);
    OnlySpacesGone(was[..end]);
    assert str[..p1] == kept + [NUL];
    assert str[..] == str[..p1] + str[p1..];
    NoNulKept(was[..end]);
    CStringIs(kept, str[p1..]);
  }

  lemma NothingKept()
    ensures NoSpaces([]) == []
  {
  }

  lemma OneMore(s: seq<char>, n: nat)
    requires n < |s|
    ensures NoSpaces(s[..n + 1]) == if s[n] == ' ' then NoSpaces(s[..n]) else NoSpaces(s[..n]) + [s[n]]
  {
    assert s[..n + 1][..n] == s[..n];
  }

  lemma {:induction false} NoNulKept(s: seq<char>)
    requires NUL !in s
    ensures NUL !in NoSpaces(s)
  {
    OnlySpacesGone(s);
    assert multiset(NoSpaces(s))[NUL] == multiset(s)[NUL];
  }
}
