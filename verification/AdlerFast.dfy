/** The checksum as adler32.c computes it: 32-bit sums, four paths by length, an unrolled
    block, and a reduction only where a sum could overflow.
    Both builds are modelled: with the division operator and with NO_DIVIDE. */
module AdlerFast {
  import opened Bytes
  import opened AdlerSpec

  // ----- the division-free reductions

  /** 65536 is congruent to 15. */
  function Chopped(a: nat): nat {
    a % 65536 + 15 * (a / 65536)
  }

  lemma ChoppedCongruent(a: nat)
    ensures Chopped(a) % BASE == a % BASE
  {
    assert a == Chopped(a) + (a / 65536) * BASE;
    ModShift(Chopped(a), a / 65536);
  }

  method Chop(a: u32) returns (r: u32)
    ensures r == Chopped(a)
    ensures r % BASE == a % BASE
  {
    ChoppedCongruent(a);
    var tmp: u32 := a / 65536;
    r := a % 65536;
    r := r + (tmp * 16 - tmp);
  }

  /** One subtraction completes the reduction exactly when the chopped sum is below 2*BASE;
      below 2^28 it always is. */
  method Mod28(a: u32) returns (r: u32)
    ensures r == a % BASE <==> Chopped(a) < 2 * BASE
    ensures a < 0x1000_0000 ==> r == a % BASE
  {
    r := Chop(a);
    if r >= BASE {
      r := r - BASE;
    }
  }

  method ModNoDivide(a: u32) returns (r: u32)
    ensures r == a % BASE
  {
    r := Chop(a);
    r := Mod28(r);
  }

  lemma Fold63(high: nat, low: nat)
    ensures (low + high * 225) % BASE == (low + high * WORD) % BASE
  {
    assert WORD == 65551 * BASE + 225;
    assert low + high * WORD == low + high * 225 + (high * 65551) * BASE;
    ModShift(low + high * 225, high * 65551);
  }

  /** The variant for 63-bit values, in 64-bit arithmetic. */
  method Mod63(a0: nat) returns (a: nat)
    requires a0 < 0x8000_0000_0000_0000
    ensures a == a0 % BASE
  {
    var tmp: nat := a0 / WORD;
    a := a0 % WORD;
    Fold63(tmp, a);
    a := a + (tmp * 256 - tmp * 32 + tmp);
    ChoppedCongruent(a);
    tmp := a / 65536;
    a := a % 65536;
    a := a + (tmp * 16 - tmp);
    ChoppedCongruent(a);
    tmp := a / 65536;
    a := a % 65536;
    a := a + (tmp * 16 - tmp);
    if a >= BASE {
      a := a - BASE;
    }
  }

  method Mod(a: u32, noDivide: bool) returns (r: u32)
    ensures r == a % BASE
  {
    if noDivide {
      r := ModNoDivide(a);
    } else {
      r := a % BASE;
    }
  }

  method Mod28Of(a: u32, noDivide: bool) returns (r: u32)
    requires a < 0x1000_0000
    ensures r == a % BASE
  {
    if noDivide {
      r := Mod28(a);
    } else {
      r := a % BASE;
    }
  }

  // ----- the unrolled block

  lemma DeferSplice(s: Sums, q: bytes, i: nat, k: nat, j: nat)
    requires i <= k <= j <= |q|
    ensures Defer(s, q[i..j]) == Defer(Defer(s, q[i..k]), q[k..j])
    ensures Fits(Defer(s, q[i..j])) ==> Fits(Defer(s, q[i..k]))
  {
    assert q[i..j] == q[i..k] + q[k..j];
    DeferAppend(s, q[i..k], q[k..j]);
  }

  lemma DeferNothing(s: Sums, d: bytes)
    requires |d| == 0
    ensures Defer(s, d) == s
  {
  }

  method Do1(buf: array<byte>, i: nat, adler0: u32, sum0: u32) returns (adler: u32, sum2: u32)
    requires i + 1 <= buf.Length
    requires Fits(Defer(Sums(adler0, sum0), buf[..][i..i+1]))
    ensures Sums(adler, sum2) == Defer(Sums(adler0, sum0), buf[..][i..i+1])
  {
    ghost var d := buf[..][i..i+1];
    assert d[..0] == [] && d[0] == buf[i];
    assert Defer(Sums(adler0, sum0), d) == Sums(adler0 + buf[i], sum0 + adler0 + buf[i]);
    adler := adler0 + buf[i];
    sum2 := sum0 + adler;
  }

  method Do2(buf: array<byte>, i: nat, adler0: u32, sum0: u32) returns (adler: u32, sum2: u32)
    requires i + 2 <= buf.Length
    requires Fits(Defer(Sums(adler0, sum0), buf[..][i..i+2]))
    ensures Sums(adler, sum2) == Defer(Sums(adler0, sum0), buf[..][i..i+2])
  {
    DeferSplice(Sums(adler0, sum0), buf[..], i, i + 1, i + 2);
    adler, sum2 := Do1(buf, i, adler0, sum0);
    adler, sum2 := Do1(buf, i + 1, adler, sum2);
  }

  method Do4(buf: array<byte>, i: nat, adler0: u32, sum0: u32) returns (adler: u32, sum2: u32)
    requires i + 4 <= buf.Length
    requires Fits(Defer(Sums(adler0, sum0), buf[..][i..i+4]))
    ensures Sums(adler, sum2) == Defer(Sums(adler0, sum0), buf[..][i..i+4])
  {
    DeferSplice(Sums(adler0, sum0), buf[..], i, i + 2, i + 4);
    adler, sum2 := Do2(buf, i, adler0, sum0);
    adler, sum2 := Do2(buf, i + 2, adler, sum2);
  }

  method Do8(buf: array<byte>, i: nat, adler0: u32, sum0: u32) returns (adler: u32, sum2: u32)
    requires i + 8 <= buf.Length
    requires Fits(Defer(Sums(adler0, sum0), buf[..][i..i+8]))
    ensures Sums(adler, sum2) == Defer(Sums(adler0, sum0), buf[..][i..i+8])
  {
    DeferSplice(Sums(adler0, sum0), buf[..], i, i + 4, i + 8);
    adler, sum2 := Do4(buf, i, adler0, sum0);
    adler, sum2 := Do4(buf, i + 4, adler, sum2);
  }

  method Do16(buf: array<byte>, i: nat, adler0: u32, sum0: u32) returns (adler: u32, sum2: u32)
    requires i + 16 <= buf.Length
    requires Fits(Defer(Sums(adler0, sum0), buf[..][i..i+16]))
    ensures Sums(adler, sum2) == Defer(Sums(adler0, sum0), buf[..][i..i+16])
  {
    DeferSplice(Sums(adler0, sum0), buf[..], i, i + 8, i + 16);
    adler, sum2 := Do8(buf, i, adler0, sum0);
    adler, sum2 := Do8(buf, i + 8, adler, sum2);
  }

  /** Adds the bytes from..to one at a time, as the two `while (len--)` loops do. */
  method AddBytes(buf: array<byte>, from: nat, to: nat, adler0: u32, sum0: u32)
    returns (adler: u32, sum2: u32)
    requires from <= to <= buf.Length
    requires Fits(Defer(Sums(adler0, sum0), buf[..][from..to]))
    ensures Sums(adler, sum2) == Defer(Sums(adler0, sum0), buf[..][from..to])
  {
    hide Defer, Fits;
    adler, sum2 := adler0, sum0;
    var p, len := from, to - from;
    DeferNothing(Sums(adler0, sum0), buf[..][from..from]);
    while len != 0
      invariant from <= p <= to && len == to - p
      invariant Sums(adler, sum2) == Defer(Sums(adler0, sum0), buf[..][from..p])
      decreases len
    {
      DeferSplice(Sums(adler0, sum0), buf[..], from, p, p + 1);
      DeferSplice(Sums(adler0, sum0), buf[..], from, p + 1, to);
      adler, sum2 := Do1(buf, p, adler, sum2);
      p, len := p + 1, len - 1;
    }
  }

  /** Adds whole groups of 16 bytes, as the inner loops do. */
  method AddGroups(buf: array<byte>, from: nat, groups: nat, adler0: u32, sum0: u32)
    returns (adler: u32, sum2: u32)
    requires from + 16 * groups <= buf.Length
    requires Fits(Defer(Sums(adler0, sum0), buf[..][from..from + 16 * groups]))
    ensures Sums(adler, sum2) == Defer(Sums(adler0, sum0), buf[..][from..from + 16 * groups])
  {
    hide Defer, Fits;
    adler, sum2 := adler0, sum0;
    var p, n := from, groups;
    DeferNothing(Sums(adler0, sum0), buf[..][from..from]);
    while n != 0
      invariant p + 16 * n == from + 16 * groups && from <= p
      invariant Sums(adler, sum2) == Defer(Sums(adler0, sum0), buf[..][from..p])
      decreases n
    {
      DeferSplice(Sums(adler0, sum0), buf[..], from, p, p + 16);
      DeferSplice(Sums(adler0, sum0), buf[..], from, p + 16, from + 16 * groups);
      adler, sum2 := Do16(buf, p, adler, sum2);
      p, n := p + 16, n - 1;
    }
  }

  // ----- the whole function

  /** The start values and data for which the code's result is the definition's. */
  predicate Agrees(adler: u32, d: bytes) {
    var s := Split(adler);
    match |d|
    case 0 => Reduced(s)
    case 1 => s.b + (s.a + d[0]) % BASE < 2 * BASE
    case _ => true
  }

  lemma ReducedAgrees(adler: u32, d: bytes)
    requires Reduced(Split(adler))
    ensures Agrees(adler, d)
  {
  }

  /** With unreduced halves the two shortest paths can differ from the definition. */
  lemma UnreducedStartFails()
    ensures !Agrees(0xFFFF_FFFF, []) && !Agrees(0xFFFF_FFF0, [0])
  {
  }

  /** Data checksummed in pieces meets the condition at every piece, and gives what the whole
      would: empty and one-byte pieces, which take paths of their own, included. */
  lemma PiecesAgree(adler: u32, x: bytes, y: bytes)
    requires Reduced(Split(adler))
    ensures Agrees(adler, x) && Agrees(Rfc1950(adler, x), y)
    ensures Rfc1950(Rfc1950(adler, x), y) == Rfc1950(adler, x + y)
  {
    Streaming(adler, x, y);
    SplitJoin(Fold(Split(adler), x));
    ReducedAgrees(adler, x);
    ReducedAgrees(Rfc1950(adler, x), y);
  }

  /** Both sums modulo BASE: what the code returns for every length but 1. */
  function Modded(s: Sums): Sums {
    Sums(s.a % BASE, s.b % BASE)
  }

  lemma AdvanceBlock(s0: Sums, s: Sums, q: bytes, i: nat, k: nat, j: nat)
    requires i <= k <= j <= |q|
    requires Congruent(s, Defer(s0, q[i..k]))
    ensures Congruent(Defer(s, q[k..j]), Defer(s0, q[i..j]))
  {
    DeferSplice(s0, q, i, k, j);
    DeferCongruent(s, Defer(s0, q[i..k]), q[k..j]);
  }

  lemma SliceFits(s: Sums, q: bytes, k: nat, j: nat)
    requires k <= j <= |q| && j - k <= NMAX && s.a < 65536 && s.b < 65536
    ensures Fits(Defer(s, q[k..j]))
  {
    BlockFits(s, q[k..j]);
  }

  lemma ModdedAdvance(s0: Sums, s: Sums, q: bytes, i: nat, k: nat, j: nat)
    requires i <= k <= j <= |q|
    requires Congruent(s, Defer(s0, q[i..k]))
    ensures Congruent(Modded(Defer(s, q[k..j])), Defer(s0, q[i..j]))
    ensures Modded(Defer(s, q[k..j])) == Modded(Defer(s0, q[i..j]))
  {
    AdvanceBlock(s0, s, q, i, k, j);
  }

  /** One block of NMAX bytes and the two reductions after it. */
  method Block(buf: array<byte>, p: nat, noDivide: bool, adler0: u32, sum0: u32)
    returns (adler: u32, sum2: u32)
    requires p + NMAX <= buf.Length
    requires adler0 < 65536 && sum0 < 65536
    ensures Sums(adler, sum2) == Modded(Defer(Sums(adler0, sum0), buf[..][p..p + NMAX]))
  {
    SliceFits(Sums(adler0, sum0), buf[..], p, p + NMAX);
    adler, sum2 := AddGroups(buf, p, NMAX / 16, adler0, sum0);
    adler := Mod(adler, noDivide);
    sum2 := Mod(sum2, noDivide);
  }

  method Blocks(buf: array<byte>, off: nat, len0: u32, noDivide: bool, adler0: u32, sum0: u32)
    returns (len: u32, adler: u32, sum2: u32)
    requires off + len0 <= buf.Length
    requires adler0 < 65536 && sum0 < 65536
    ensures len <= len0 && len < NMAX
    ensures len == len0 ==> adler == adler0 && sum2 == sum0
    ensures len < len0 ==>
              Sums(adler, sum2) == Modded(Defer(Sums(adler0, sum0), buf[..][off..off + len0 - len]))
  {
    hide Defer;
    len, adler, sum2 := len0, adler0, sum0;
    ghost var s0 := Sums(adler0, sum0);
    var p := off;
    DeferNothing(s0, buf[..][off..off]);
    while len >= NMAX
      invariant p == off + len0 - len && len <= len0
      invariant len == len0 ==> adler == adler0 && sum2 == sum0
      invariant len < len0 ==> Sums(adler, sum2) == Modded(Defer(s0, buf[..][off..p]))
    {
      ModdedAdvance(s0, Sums(adler, sum2), buf[..], off, p, p + NMAX);
      adler, sum2 := Block(buf, p, noDivide, adler, sum2);
      len, p := len - NMAX, p + NMAX;
    }
  }

  method Tail(buf: array<byte>, off: nat, len: u32, noDivide: bool, adler0: u32, sum0: u32)
    returns (adler: u32, sum2: u32)
    requires off + len <= buf.Length && 0 < len < NMAX
    requires adler0 < 65536 && sum0 < 65536
    ensures Sums(adler, sum2) == Modded(Defer(Sums(adler0, sum0), buf[..][off..off + len]))
  {
    ghost var s0 := Sums(adler0, sum0);
    var p := off + len / 16 * 16;
    SliceFits(s0, buf[..], off, off + len);
    DeferSplice(s0, buf[..], off, p, off + len);
    adler, sum2 := AddGroups(buf, off, len / 16, adler0, sum0);
    adler, sum2 := AddBytes(buf, p, off + len, adler, sum2);
    adler := Mod(adler, noDivide);
    sum2 := Mod(sum2, noDivide);
  }

  lemma ShortBounds(s: Sums, d: bytes)
    requires |d| < 16 && s.a < 65536 && s.b < 65536
    ensures Defer(s, d).a < 2 * BASE && Defer(s, d).b < 0x1000_0000
  {
    DeferBounded(s, d);
    PeakMonotone(|d|, 16, s.a, 65536, s.b);
  }

  method Short(buf: array<byte>, off: nat, len: u32, noDivide: bool, adler0: u32, sum0: u32)
    returns (adler: u32, sum2: u32)
    requires off + len <= buf.Length && len < 16
    requires adler0 < 65536 && sum0 < 65536
    ensures Sums(adler, sum2) == Modded(Defer(Sums(adler0, sum0), buf[..][off..off + len]))
  {
    ShortBounds(Sums(adler0, sum0), buf[..][off..off + len]);
    adler, sum2 := AddBytes(buf, off, off + len, adler0, sum0);
    if adler >= BASE {
      adler := adler - BASE;
    }
    sum2 := Mod28Of(sum2, noDivide);
  }

  method Single(buf: array<byte>, off: nat, adler0: u32, sum0: u32) returns (adler: u32, sum2: u32)
    requires off < buf.Length
    requires adler0 < 65536 && sum0 < 65536
    ensures adler == (adler0 + buf[off]) % BASE && sum2 < 65536
    ensures sum2 % BASE == (sum0 + adler) % BASE
    ensures sum2 < BASE <==> sum0 + adler < 2 * BASE
  {
    adler := adler0 + buf[off];
    if adler >= BASE {
      adler := adler - BASE;
    }
    sum2 := sum0 + adler;
    if sum2 >= BASE {
      sum2 := sum2 - BASE;
    }
  }

  lemma JoinInjective(s: Sums, t: Sums)
    requires s.a < 65536 && s.b < 65536 && t.a < 65536 && t.b < 65536
    ensures Join(s) == Join(t) <==> s == t
  {
  }

  lemma SingleResult(adler0: u32, d: bytes, s: Sums)
    requires |d| == 1 && s.b < 65536
    requires s.a == (Split(adler0).a + d[0]) % BASE
    requires s.b % BASE == (Split(adler0).b + s.a) % BASE
    requires s.b < BASE <==> Split(adler0).b + s.a < 2 * BASE
    ensures Join(s) == Rfc1950(adler0, d) <==> Agrees(adler0, d)
    ensures Congruent(s, Fold(Split(adler0), d))
  {
    var s0 := Split(adler0);
    assert d[..0] == [];
    assert Fold(s0, d) == Step(s0, d[0]);
    JoinInjective(s, Fold(s0, d));
  }

  lemma ManyResult(adler0: u32, d: bytes, s: Sums)
    requires |d| != 1 && s == Modded(Defer(Split(adler0), d))
    ensures Join(s) == Rfc1950(adler0, d) <==> Agrees(adler0, d)
    ensures Congruent(s, Fold(Split(adler0), d))
  {
    DeferredModulo(Split(adler0), Split(adler0), d);
    JoinInjective(s, Fold(Split(adler0), d));
  }

  /** The path for 16 bytes and more. */
  method Long(buf: array<byte>, off: nat, len0: u32, noDivide: bool, adler0: u32, sum0: u32)
    returns (adler: u32, sum2: u32)
    requires off + len0 <= buf.Length && 16 <= len0
    requires adler0 < 65536 && sum0 < 65536
    ensures Sums(adler, sum2) == Modded(Defer(Sums(adler0, sum0), buf[..][off..off + len0]))
  {
    hide Defer;
    var len: u32;
    len, adler, sum2 := Blocks(buf, off, len0, noDivide, adler0, sum0);
    if len != 0 {
      ghost var s0, k := Sums(adler0, sum0), off + len0 - len;
      DeferNothing(s0, buf[..][off..off]);
      ModdedAdvance(s0, Sums(adler, sum2), buf[..], off, k, off + len0);
      adler, sum2 := Tail(buf, off + len0 - len, len, noDivide, adler, sum2);
    }
  }

  method Many(ghost start: u32, buf: array<byte>, off: nat, len0: u32, noDivide: bool, adler0: u32, sum0: u32)
    returns (adler: u32, sum2: u32)
    requires off + len0 <= buf.Length && len0 != 1 && Sums(adler0, sum0) == Split(start)
    ensures adler < 65536 && sum2 < 65536
    ensures Join(Sums(adler, sum2)) == Rfc1950(start, buf[off..off + len0]) <==>
            Agrees(start, buf[off..off + len0])
    ensures Congruent(Sums(adler, sum2), Fold(Split(start), buf[off..off + len0]))
  {
    hide Defer, Fold, Agrees, Congruent, Rfc1950;
    if len0 < 16 {
      adler, sum2 := Short(buf, off, len0, noDivide, adler0, sum0);
    } else {
      adler, sum2 := Long(buf, off, len0, noDivide, adler0, sum0);
    }
    assert buf[..][off..off + len0] == buf[off..off + len0];
    ManyResult(start, buf[off..off + len0], Sums(adler, sum2));
  }

  /** For every start value, buffer and length: the result is the checksum of RFC 1950
      if and only if `Agrees` holds, and its halves are always congruent to it.
      No assignment to a 32-bit variable overflows on any path. */
  method Adler32(adler0: u32, buf: array?<byte>, off: nat, len0: u32, noDivide: bool) returns (r: u32)
    requires buf == null ==> len0 != 1
    requires buf != null ==> off + len0 <= buf.Length
    ensures buf == null ==> r == 1
    ensures buf != null ==>
              (r == Rfc1950(adler0, buf[off..off + len0]) <==> Agrees(adler0, buf[off..off + len0]))
    ensures buf != null ==> Congruent(Split(r), Fold(Split(adler0), buf[off..off + len0]))
  {
    hide Fold, Agrees, Congruent, Rfc1950;
    var sum2: u32 := adler0 / 65536 % 65536;
    var adler: u32 := adler0 % 65536;
    if len0 == 1 {
      adler, sum2 := Single(buf, off, adler, sum2);
      SingleResult(adler0, buf[off..off + 1], Sums(adler, sum2));
    } else {
      if buf == null {
        return 1;
      }
      adler, sum2 := Many(adler0, buf, off, len0, noDivide, adler, sum2);
    }
    SplitJoin(Sums(adler, sum2));
    return sum2 * 65536 + adler;
  }
}
