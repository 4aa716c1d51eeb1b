/** C strings inside byte buffers, and the in-place conversion of text area input. */
module CString {
  import opened Bytes

  /** strlen: the index of the first NUL; the whole length if there is none. */
  function StrLen(s: bytes): (n: nat)
    ensures n <= |s|
    ensures forall i :: 0 <= i < n ==> s[i] != 0
    ensures n < |s| ==> s[n] == 0
  {
    if s == [] || s[0] == 0 then 0 else 1 + StrLen(s[1..])
  }

  /** The string a buffer holds. */
  function CStr(s: bytes): bytes {
    s[..StrLen(s)]
  }

  lemma StrLenIs(s: bytes, n: nat)
    requires n <= |s| && (forall i :: 0 <= i < n ==> s[i] != 0) && (n < |s| ==> s[n] == 0)
    ensures StrLen(s) == n && CStr(s) == s[..n]
  {
  }

  predicate OccursAt(s: bytes, pat: bytes, i: int) {
    0 <= i && i + |pat| <= |s| && s[i..i + |pat|] == pat
  }

  /** strstr from offset `from`: the first occurrence at or after it, or -1. */
  function Find(s: bytes, pat: bytes, from: nat): (r: int)
    ensures r == -1 || (from <= r && OccursAt(s, pat, r))
    ensures forall i :: from <= i && (r == -1 || i < r) ==> !OccursAt(s, pat, i)
    decreases |s| - from
  {
    if from + |pat| > |s| then -1
    else if s[from..from + |pat|] == pat then from
    else Find(s, pat, from + 1)
  }

  // ----- ConvertTextarea

  const BACKSLASH := 92
  const LETTER_N := 110
  const CR := 13
  const LF := 10

  /** A backslash followed by the letter n. */
  const PAIR: bytes := [BACKSLASH, LETTER_N]

  predicate PairAt(s: bytes, i: int) {
    0 <= i && i + 1 < |s| && s[i] == BACKSLASH && s[i + 1] == LETTER_N
  }

  lemma PairIsPair(s: bytes, i: int)
    ensures OccursAt(s, PAIR, i) <==> PairAt(s, i)
  {
  }

  /** Every pair replaced, from left to right. */
  function CrLf(s: bytes): (r: bytes)
    ensures |r| == |s|
  {
    if s == [] then []
    else if PairAt(s, 0) then [CR, LF] + CrLf(s[2..])
    else [s[0]] + CrLf(s[1..])
  }

  lemma {:induction false} CopyUpTo(s: bytes, k: nat)
    requires k <= |s| && forall i :: 0 <= i < k ==> !PairAt(s, i)
    ensures CrLf(s) == s[..k] + CrLf(s[k..])
  {
    if k > 0 {
      assert forall i :: 0 <= i < k - 1 ==> PairAt(s[1..], i) == PairAt(s, i + 1);
      CopyUpTo(s[1..], k - 1);
      assert s[1..][k - 1..] == s[k..];
    }
  }

  /** Scanning from q, the next pair is at p. */
  lemma ReplaceNext(s: bytes, q: nat, p: nat)
    requires q <= p && PairAt(s, p) && forall i :: q <= i < p ==> !PairAt(s, i)
    ensures CrLf(s[q..]) == s[q..p] + [CR, LF] + CrLf(s[p + 2..])
  {
    assert forall i :: 0 <= i < p - q ==> PairAt(s[q..], i) == PairAt(s, q + i);
    CopyUpTo(s[q..], p - q);
    assert s[q..][p - q..] == s[p..];
    assert s[p..][2..] == s[p + 2..];
  }

  lemma NoneLeft(s: bytes, q: nat)
    requires q <= |s| && forall i :: q <= i ==> !PairAt(s, i)
    ensures CrLf(s[q..]) == s[q..]
  {
    assert forall i :: 0 <= i ==> PairAt(s[q..], i) == PairAt(s, q + i);
    CopyUpTo(s[q..], |s| - q);
  }

  lemma FindPair(t: bytes, from: nat)
    ensures var p := Find(t, PAIR, from);
            (p == -1 || (from <= p && PairAt(t, p))) &&
            forall i :: from <= i && (p == -1 || i < p) ==> !PairAt(t, i)
  {
    forall i ensures OccursAt(t, PAIR, i) <==> PairAt(t, i) {
      PairIsPair(t, i);
    }
  }

  // ----- what the conversion is

  /** Byte by byte: the two bytes of each pair become CR and LF, all others stay. */
  lemma {:induction false} CrLfAt(s: bytes, i: nat)
    requires i < |s|
    ensures CrLf(s)[i] == if PairAt(s, i) then 13 else if PairAt(s, i - 1) then 10 else s[i]
    ensures PairAt(s, i) <==> i + 1 < |s| && s[i] == 92 && s[i + 1] == 110
  {
    if PairAt(s, 0) {
      if i >= 2 {
        CrLfAt(s[2..], i - 2);
        assert PairAt(s[2..], i - 2) == PairAt(s, i);
        assert i >= 3 ==> PairAt(s[2..], i - 3) == PairAt(s, i - 1);
      }
    } else if i >= 1 {
      CrLfAt(s[1..], i - 1);
      assert PairAt(s[1..], i - 1) == PairAt(s, i);
      assert i >= 2 ==> PairAt(s[1..], i - 2) == PairAt(s, i - 1);
    }
  }

  /** No pair remains. */
  lemma NoPairRemains(s: bytes, i: int)
    ensures !PairAt(CrLf(s), i)
  {
    if 0 <= i && i + 1 < |s| {
      CrLfAt(s, i);
      CrLfAt(s, i + 1);
    }
  }

  /** A second conversion changes nothing. */
  lemma CrLfIdempotent(s: bytes)
    ensures CrLf(CrLf(s)) == CrLf(s)
  {
    forall i | 0 <= i ensures !PairAt(CrLf(s), i) {
      NoPairRemains(s, i);
    }
    NoneLeft(CrLf(s), 0);
    assert CrLf(s)[0..] == CrLf(s);
  }

  // ----- the conversion in place

  /** A buffer that held string `s` followed by `rest` (its NUL and what lies behind it). */
  ghost predicate Holds(s: bytes, rest: bytes) {
    rest != [] && rest[0] == 0 && forall i :: 0 <= i < |s| ==> s[i] != 0
  }

  /** `now` is that buffer converted up to q. */
  ghost predicate Converted(now: bytes, s: bytes, rest: bytes, q: nat) {
    Holds(s, rest) && q <= |s| && CrLf(s)[q..] == CrLf(s[q..]) && now == CrLf(s)[..q] + s[q..] + rest
  }

  /** The next pair to convert is at p; there is none if p is -1. */
  ghost predicate NextPair(s: bytes, q: nat, p: int) {
    (p == -1 || (q <= p && PairAt(s, p))) && forall i :: q <= i && (p == -1 || i < p) ==> !PairAt(s, i)
  }

  lemma SplitAt(r: bytes, x: bytes, y: bytes, z: bytes, q: nat, k: nat)
    requires q <= |r| && x == r[..q] && r[q..] == y + z && q + |y| == k
    ensures k <= |r| && r[..k] == x + y && r[k..] == z
  {
  }

  lemma Overwrite(now: bytes, x: bytes, s: bytes, rest: bytes, q: nat, p: nat, c: byte, d: byte)
    requires |x| == q <= p && p + 2 <= |s| && now == x + s[q..] + rest
    ensures now[p := c][p + 1 := d] == x + (s[q..p] + [c, d]) + s[p + 2..] + rest
  {
  }

  /** Replacing the next pair converts up to behind it. */
  lemma ConvertNext(now: bytes, s: bytes, rest: bytes, q: nat, p: int)
    requires Converted(now, s, rest, q) && NextPair(s, q, p) && p != -1
    ensures p + 1 < |now| && Converted(now[p := CR][p + 1 := LF], s, rest, p + 2)
  {
    ReplaceNext(s, q, p);
    var r, tail := CrLf(s), CrLf(s[p + 2..]);
    SplitAt(r, r[..q], s[q..p] + [CR, LF], tail, q, p + 2);
    Overwrite(now, r[..q], s, rest, q, p, CR, LF);
  }

  lemma Rejoin(r: bytes, q: nat)
    requires q <= |r|
    ensures r[..q] + r[q..] == r
  {
  }

  lemma ConvertStart(now: bytes, s: bytes, rest: bytes)
    requires 0 in now && s == CStr(now) && rest == now[StrLen(now)..]
    ensures Converted(now, s, rest, 0)
  {
  }

  lemma ConvertDone(now: bytes, s: bytes, rest: bytes, q: nat)
    requires Converted(now, s, rest, q) && NextPair(s, q, -1)
    ensures now == CrLf(s) + rest && CStr(now) == CrLf(s)
  {
    NoneLeft(s, q);
    Rejoin(CrLf(s), q);
    NoNulAppears(s);
    StrLenIs(now, |s|);
  }

  lemma NoNulAppears(s: bytes)
    requires forall i :: 0 <= i < |s| ==> s[i] != 0
    ensures forall i :: 0 <= i < |s| ==> CrLf(s)[i] != 0
  {
  }

  /** The scan of the half-converted buffer finds the next pair of the input. */
  lemma ScanFinds(now: bytes, s: bytes, rest: bytes, q: nat)
    requires Converted(now, s, rest, q)
    ensures NextPair(s, q, Find(CStr(now), PAIR, q))
  {
    NoNulAppears(s);
    StrLenIs(now, |s|);
    assert now[..|s|][q..] == s[q..];
    FindSame(now[..|s|], s, PAIR, q, q);
    FindPair(s, q);
  }

  /** Looking from q on, only what follows q matters. */
  lemma {:induction false} FindSame(t: bytes, s: bytes, pat: bytes, from: nat, q: nat)
    requires |t| == |s| && q <= from && q <= |s| && t[q..] == s[q..]
    ensures Find(t, pat, from) == Find(s, pat, from)
    decreases |s| - from
  {
    if from + |pat| <= |s| {
      var k := from - q;
      assert t[from..from + |pat|] == t[q..][k..k + |pat|];
      assert s[from..from + |pat|] == s[q..][k..k + |pat|];
      FindSame(t, s, pat, from + 1, q);
    }
  }

  /** One replacement, and the search for the next pair. */
  method ReplacePair(a: array<byte>, ghost s: bytes, ghost rest: bytes, ghost q: nat, p: nat)
    returns (next: int)
    requires Converted(a[..], s, rest, q) && NextPair(s, q, p)
    modifies a
    ensures Converted(a[..], s, rest, p + 2) && NextPair(s, p + 2, next)
  {
    ghost var now: bytes := a[..];
    ConvertNext(now, s, rest, q, p);
    a[p] := CR;
    a[p + 1] := LF;
    assert a[..] == now[p := CR][p + 1 := LF];
    ScanFinds(a[..], s, rest, p + 2);
    next := Find(CStr(a[..]), PAIR, p + 2);
  }

  /** The string in the buffer is converted; what lies behind its end is untouched. */
  method ConvertTextarea(a: array<byte>)
    requires 0 in a[..]
    modifies a
    ensures a[..] == CrLf(old(CStr(a[..]))) + old(a[..])[|old(CStr(a[..]))|..]
    ensures CStr(a[..]) == CrLf(old(CStr(a[..])))
  {
    ghost var s, rest := CStr(a[..]), a[..][StrLen(a[..])..];
    ConvertStart(a[..], s, rest);
    ScanFinds(a[..], s, rest, 0);
    ghost var q := 0;
    var p := Find(CStr(a[..]), PAIR, 0);
    while p != -1
      invariant Converted(a[..], s, rest, q) && NextPair(s, q, p)
      decreases |s| - q
    {
      var next := ReplacePair(a, s, rest, q, p);
      q := p + 2;
      p := next;
    }
    ConvertDone(a[..], s, rest, q);
  }
}
