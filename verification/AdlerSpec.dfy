/** Adler-32 as section 2.2 of RFC 1950 defines it, the sums without any reduction that the
    fast code of adler32.c works with, and what the checksum detects. */
module AdlerSpec {
  import opened Bytes

  /** The largest prime below 65536. */
  const BASE := 65521

  /** The block length after which a reduction is due. */
  const NMAX := 5552

  /** The two running sums; unbounded here. */
  datatype Sums = Sums(a: nat, b: nat)

  function Split(adler: u32): (s: Sums)
    ensures s.a < 65536 && s.b < 65536
  {
    Sums(adler % 65536, adler / 65536)
  }

  function Join(s: Sums): u32
    requires s.a < 65536 && s.b < 65536
  {
    s.b * 65536 + s.a
  }

  predicate Reduced(s: Sums) {
    s.a < BASE && s.b < BASE
  }

  // ----- the definition: one byte at a time, both sums always modulo BASE

  function Step(s: Sums, d: byte): (r: Sums)
    ensures Reduced(r)
  {
    var a := (s.a + d) % BASE;
    Sums(a, (s.b + a) % BASE)
  }

  function Fold(s: Sums, d: bytes): (r: Sums)
    ensures d != [] ==> Reduced(r)
  {
    if d == [] then s else Step(Fold(s, d[..|d|-1]), d[|d|-1])
  }

  function Rfc1950(adler: u32, d: bytes): u32 {
    Join(Fold(Split(adler), d))
  }

  lemma FoldSnoc(s: Sums, d: bytes, b: byte)
    ensures Fold(s, d + [b]) == Step(Fold(s, d), b)
  {
    assert (d + [b])[..|d|] == d;
  }

  /** Known answers: of nothing, of "abc", and of one byte behind the largest reduced halves. */
  lemma KnownAnswers()
    ensures Rfc1950(1, []) == 1
    ensures Rfc1950(1, [97, 98, 99]) == 0x024D_0127
    ensures Rfc1950(0xFFF0_FFF0, [1]) == 0xFFF0_0000
  {
    assert Split(1) == Sums(1, 0) && Split(0xFFF0_FFF0) == Sums(65520, 65520);
    FoldNothing(Split(1));
    SumsOfAbc();
    FoldSnoc(Split(0xFFF0_FFF0), [], 1);
    FoldNothing(Split(0xFFF0_FFF0));
    hide Fold;
    assert [] + [1] == [1];
    assert Step(Sums(65520, 65520), 1) == Sums(0, 65520);
  }

  lemma FoldNothing(s: Sums)
    ensures Fold(s, []) == s
  {
  }

  lemma SumsOfAbc()
    ensures Fold(Sums(1, 0), [97, 98, 99]) == Sums(295, 589)
  {
    FoldNothing(Sums(1, 0));
    FoldSnoc(Sums(1, 0), [], 97);
    FoldSnoc(Sums(1, 0), [97], 98);
    FoldSnoc(Sums(1, 0), [97, 98], 99);
    hide Fold;
    assert [] + [97] == [97] && [97] + [98] == [97, 98] && [97, 98] + [99] == [97, 98, 99];
    assert Step(Sums(1, 0), 97) == Sums(98, 98);
    assert Step(Sums(98, 98), 98) == Sums(196, 294);
    assert Step(Sums(196, 294), 99) == Sums(295, 589);
  }

  // ----- the same sums without reduction

  function Defer(s: Sums, d: bytes): Sums {
    if d == [] then s
    else
      var r := Defer(s, d[..|d|-1]);
      Sums(r.a + d[|d|-1], r.b + r.a + d[|d|-1])
  }

  predicate Fits(s: Sums) {
    s.a < WORD && s.b < WORD
  }

  predicate Congruent(s: Sums, t: Sums) {
    s.a % BASE == t.a % BASE && s.b % BASE == t.b % BASE
  }

  lemma ModAdd(x: int, y: int, z: int)
    requires x % BASE == y % BASE
    ensures (x + z) % BASE == (y + z) % BASE
  {
  }

  lemma ModShift(x: int, k: int)
    ensures (x + k * BASE) % BASE == x % BASE
  {
  }

  lemma ModZero(x: int)
    requires x % BASE == 0 && -BASE < x < BASE
    ensures x == 0
  {
  }

  lemma CongruentStep(s: Sums, t: Sums, d: byte)
    requires Congruent(s, t)
    ensures Step(s, d) == Step(t, d)
    ensures Congruent(Step(s, d), Sums(t.a + d, t.b + t.a + d))
  {
    ModAdd(s.a, t.a, d);
    var a := (s.a + d) % BASE;
    ModAdd(s.b, t.b, a);
    ModAdd(a, t.a + d, t.b);
  }

  /** Reducing once at the end gives what reducing at every byte gives. */
  lemma {:induction false} DeferredModulo(s: Sums, t: Sums, d: bytes)
    requires Congruent(s, t)
    ensures Congruent(Fold(s, d), Defer(t, d))
    ensures d != [] ==> Fold(s, d) == Sums(Defer(t, d).a % BASE, Defer(t, d).b % BASE)
  {
    if d != [] {
      DeferredModulo(s, t, d[..|d|-1]);
      CongruentStep(Fold(s, d[..|d|-1]), Defer(t, d[..|d|-1]), d[|d|-1]);
    }
  }

  lemma {:induction false} DeferCongruent(s: Sums, t: Sums, d: bytes)
    requires Congruent(s, t)
    ensures Congruent(Defer(s, d), Defer(t, d))
  {
    DeferredModulo(s, s, d);
    DeferredModulo(s, t, d);
  }

  /** Splitting the data splits the sums, and the sums only ever grow. */
  lemma {:induction false} DeferAppend(s: Sums, x: bytes, y: bytes)
    ensures Defer(s, x + y) == Defer(Defer(s, x), y)
    ensures Defer(s, x).a <= Defer(s, x + y).a && Defer(s, x).b <= Defer(s, x + y).b
  {
    if y == [] {
      assert x + y == x;
    } else {
      assert (x + y)[..|x+y|-1] == x + y[..|y|-1];
      DeferAppend(s, x, y[..|y|-1]);
    }
  }

  lemma {:induction false} FoldAppend(s: Sums, x: bytes, y: bytes)
    ensures Fold(s, x + y) == Fold(Fold(s, x), y)
  {
    if y == [] {
      assert x + y == x;
    } else {
      assert (x + y)[..|x+y|-1] == x + y[..|y|-1];
      FoldAppend(s, x, y[..|y|-1]);
    }
  }

  lemma SplitJoin(s: Sums)
    requires s.a < 65536 && s.b < 65536
    ensures Split(Join(s)) == s
  {
  }

  /** Checksumming in two pieces, the second from the result of the first, is
      checksumming the whole, however the data is cut. */
  lemma Streaming(adler: u32, x: bytes, y: bytes)
    ensures Rfc1950(Rfc1950(adler, x), y) == Rfc1950(adler, x + y)
  {
    FoldAppend(Split(adler), x, y);
    var s := Fold(Split(adler), x);
    SplitJoin(s);
  }

  // ----- closed form

  function Sum(d: bytes): nat {
    if d == [] then 0 else d[0] + Sum(d[1..])
  }

  /** |d|*d[0] + (|d|-1)*d[1] + ... + 1*d[|d|-1] */
  function WeightedSum(d: bytes): nat {
    if d == [] then 0 else |d| * d[0] + WeightedSum(d[1..])
  }

  lemma {:induction false} SumsSnoc(d: bytes, x: byte)
    ensures Sum(d + [x]) == Sum(d) + x
    ensures WeightedSum(d + [x]) == WeightedSum(d) + Sum(d) + x
  {
    if d != [] {
      assert (d + [x])[1..] == d[1..] + [x];
      SumsSnoc(d[1..], x);
      MulStep(|d|, d[0]);
    }
  }

  lemma MulStep(n: nat, a: nat)
    ensures (n + 1) * a == n * a + a
  {
  }

  lemma {:induction false} DeferClosedForm(s: Sums, d: bytes)
    ensures Defer(s, d) == Sums(s.a + Sum(d), s.b + |d| * s.a + WeightedSum(d))
  {
    if d != [] {
      var p := d[..|d|-1];
      DeferClosedForm(s, p);
      var x := d[|d|-1];
      assert d == p + [x];
      SumsSnoc(p, x);
      MulStep(|p|, s.a);
      assert Defer(s, d) == Sums(Defer(s, p).a + x, Defer(s, p).b + Defer(s, p).a + x);
    }
  }

  /** The closed form of the checksum's halves, from every start and for all nonempty data. */
  lemma ClosedForm(s: Sums, d: bytes)
    requires d != []
    ensures Fold(s, d) == Sums((s.a + Sum(d)) % BASE, (s.b + |d| * s.a + WeightedSum(d)) % BASE)
  {
    DeferredModulo(s, s, d);
    DeferClosedForm(s, d);
  }

  // ----- the block length NMAX

  /** The largest value the second sum can reach after n bytes. */
  function Peak(n: nat, a: nat, b: nat): nat {
    b + n * a + 255 * Triangle(n)
  }

  function Triangle(n: nat): nat {
    n * (n + 1) / 2
  }

  lemma TriangleStep(n: nat)
    ensures Triangle(n + 1) == Triangle(n) + n + 1
  {
  }

  lemma {:induction false} WeightedSumBound(d: bytes)
    ensures Sum(d) <= 255 * |d|
    ensures WeightedSum(d) <= 255 * Triangle(|d|)
  {
    if d != [] {
      WeightedSumBound(d[1..]);
      TriangleStep(|d| - 1);
      MulMonotone(|d|, |d|, d[0], 255);
    }
  }

  lemma {:induction false} WeightedSumOfOnes(d: bytes)
    requires forall i :: 0 <= i < |d| ==> d[i] == 255
    ensures WeightedSum(d) == 255 * Triangle(|d|)
  {
    if d != [] {
      WeightedSumOfOnes(d[1..]);
      TriangleStep(|d| - 1);
    }
  }

  lemma PeakMonotone(n: nat, m: nat, a: nat, a': nat, b: nat)
    requires n <= m && a <= a'
    ensures Peak(n, a, b) <= Peak(m, a', b)
  {
    assert n * a <= m * a' by { MulMonotone(n, m, a, a'); }
    MulMonotone(n, m, n + 1, m + 1);
  }

  lemma MulMonotone(x: nat, x': nat, y: nat, y': nat)
    requires x <= x' && y <= y'
    ensures x * y <= x' * y'
  {
  }

  lemma DeferBounded(s: Sums, d: bytes)
    ensures Defer(s, d).a <= s.a + 255 * |d|
    ensures Defer(s, d).b <= Peak(|d|, s.a, s.b)
  {
    DeferClosedForm(s, d);
    WeightedSumBound(d);
  }

  /** A block of up to NMAX bytes never overflows, even from halves that are not reduced. */
  lemma BlockFits(s: Sums, d: bytes)
    requires s.a < 65536 && s.b < 65536 && |d| <= NMAX
    ensures Fits(Defer(s, d))
  {
    DeferBounded(s, d);
    PeakMonotone(|d|, NMAX, s.a, 65535, s.b);
  }

  function AllOnes(n: nat): (d: bytes)
    ensures |d| == n && forall i :: 0 <= i < n ==> d[i] == 255
  {
    seq(n, _ => 255)
  }

  ghost predicate NeverOverflows(n: nat) {
    forall s: Sums, d: bytes :: Reduced(s) && |d| == n ==> Fits(Defer(s, d))
  }

  /** NMAX is the largest block length for which no content overflows 32 bits. */
  lemma NmaxIsExact(n: nat)
    ensures NeverOverflows(n) <==> n <= 5552
  {
    if n <= NMAX {
      forall s: Sums, d: bytes | Reduced(s) && |d| == n ensures Fits(Defer(s, d)) {
        BlockFits(s, d);
      }
    } else {
      var s := Sums(BASE - 1, BASE - 1);
      var d := AllOnes(n);
      DeferClosedForm(s, d);
      WeightedSumOfOnes(d);
      PeakMonotone(NMAX + 1, n, BASE - 1, BASE - 1, BASE - 1);
      assert Defer(s, d).b == Peak(n, BASE - 1, BASE - 1) >= WORD;
    }
  }

  // ----- what the checksum detects

  /** BASE has no divisor but 1 and itself. */
  lemma BaseIsPrime(k: nat)
    requires 2 <= k < BASE
    ensures BASE % k != 0 && BASE == 65521
  {
  }

  /** BASE divides no product of two positive numbers below it: by descent on the first factor,
      to the remainder of BASE by it. */
  lemma {:induction false} NoZeroDivisors(c: nat, m: nat)
    requires 0 < c < BASE && 0 < m < BASE
    ensures (c * m) % BASE != 0
    decreases c
  {
    if c > 1 && (c * m) % BASE == 0 {
      BaseIsPrime(c);
      var q, r := BASE / c, BASE % c;
      assert BASE == q * c + r;
      var k := (c * m) / BASE;
      assert c * m == k * BASE;
      assert r * m == (m - q * k) * BASE by {
        assert r * m == (BASE - q * c) * m == m * BASE - q * (c * m);
      }
      ModShift(0, m - q * k);
      NoZeroDivisors(r, m);
    }
  }

  lemma {:induction false} SumsUpdate(d: bytes, i: nat, v: byte)
    requires i < |d|
    ensures Sum(d[i := v]) == Sum(d) + v - d[i]
    ensures WeightedSum(d[i := v]) == WeightedSum(d) + (|d| - i) * (v - d[i])
  {
    if i == 0 {
      assert d[i := v][1..] == d[1..];
      assert |d| * v == |d| * d[0] + |d| * (v - d[0]);
    } else {
      assert d[i := v][1..] == d[1..][i-1 := v];
      SumsUpdate(d[1..], i - 1, v);
    }
  }

  lemma ModDiff(x: int, y: int)
    ensures x % BASE == y % BASE <==> (x - y) % BASE == 0
  {
  }

  lemma ShiftedModEqual(k: int, x: int, y: int)
    ensures (k + x) % BASE == (k + y) % BASE <==> (x - y) % BASE == 0
  {
  }

  lemma SumsCollideIff(s: Sums, d: bytes, e: bytes)
    requires |d| == |e| > 0
    ensures Fold(s, d) == Fold(s, e) <==>
            (Sum(d) - Sum(e)) % BASE == 0 && (WeightedSum(d) - WeightedSum(e)) % BASE == 0
  {
    hide Fold, Sum, WeightedSum;
    ClosedForm(s, d);
    ClosedForm(s, e);
    ShiftedModEqual(s.a, Sum(d), Sum(e));
    ShiftedModEqual(s.b + |d| * s.a, WeightedSum(d), WeightedSum(e));
  }

  /** Two equally long messages collide exactly when both sums differ by multiples of BASE. */
  lemma CollisionIff(adler: u32, d: bytes, e: bytes)
    requires |d| == |e| > 0
    ensures Rfc1950(adler, d) == Rfc1950(adler, e) <==>
            (Sum(d) - Sum(e)) % BASE == 0 && (WeightedSum(d) - WeightedSum(e)) % BASE == 0
  {
    SumsCollideIff(Split(adler), d, e);
    SplitJoin(Fold(Split(adler), d));
    SplitJoin(Fold(Split(adler), e));
  }

  /** Changing one byte always changes the checksum. */
  lemma OneByteDetected(adler: u32, d: bytes, i: nat, v: byte)
    requires i < |d| && v != d[i]
    ensures Rfc1950(adler, d[i := v]) != Rfc1950(adler, d)
  {
    SumsUpdate(d, i, v);
    CollisionIff(adler, d[i := v], d);
    if (v - d[i]) % BASE == 0 { ModZero(v - d[i]); }
  }

  lemma SignedNoZeroDivisors(c: int, m: nat)
    requires c != 0 && -BASE < c < BASE
    ensures (c * m) % BASE == 0 <==> m % BASE == 0
  {
    var q, r := m / BASE, m % BASE;
    assert c * m == c * r + (c * q) * BASE by { assert m == q * BASE + r; assert c * (q * BASE) == (c * q) * BASE; }
    ModShift(c * r, c * q);
    if r != 0 {
      if c > 0 {
        NoZeroDivisors(c, r);
      } else {
        NoZeroDivisors(-c, r);
        ModDiff(c * r, 0);
        ModDiff(0, c * r);
        assert 0 - c * r == (-c) * r;
      }
    }
  }

  lemma Telescope(n: int, i: int, j: int, c: int)
    ensures (n - i) * c + (n - j) * (-c) == c * (j - i)
  {
  }

  lemma TwoUpdates(d: bytes, i: nat, v: byte, j: nat, w: byte)
    requires i < j < |d|
    ensures Sum(d[i := v][j := w]) - Sum(d) == v - d[i] + w - d[j]
    ensures v - d[i] == d[j] - w ==>
              WeightedSum(d[i := v][j := w]) - WeightedSum(d) == (v - d[i]) * (j - i)
  {
    SumsUpdate(d, i, v);
    SumsUpdate(d[i := v], j, w);
    Telescope(|d|, i, j, v - d[i]);
  }

  lemma CancelIff(c: int, c': int, m: nat, weighted: int)
    requires 0 != c && -256 < c < 256 && -256 < c' < 256
    requires c == -c' ==> weighted == c * m
    ensures (c + c') % BASE == 0 && weighted % BASE == 0 <==> c == -c' && m % BASE == 0
  {
    if (c + c') % BASE == 0 {
      ModZero(c + c');
      SignedNoZeroDivisors(c, m);
    }
  }

  /** Changing two bytes escapes detection exactly when the changes cancel and the bytes
      are a multiple of BASE apart. */
  lemma TwoBytesDetectedIff(adler: u32, d: bytes, i: nat, v: byte, j: nat, w: byte)
    requires i < j < |d| && v != d[i] && w != d[j]
    ensures Rfc1950(adler, d[i := v][j := w]) == Rfc1950(adler, d) <==>
            v - d[i] == d[j] - w && (j - i) % BASE == 0
  {
    TwoUpdates(d, i, v, j, w);
    CollisionIff(adler, d[i := v][j := w], d);
    CancelIff(v - d[i], w - d[j], j - i, WeightedSum(d[i := v][j := w]) - WeightedSum(d));
  }

  lemma SmallNotZeroMod(m: nat)
    requires 0 < m < BASE
    ensures m % BASE != 0
  {
  }

  lemma NearbyBothDetected(adler: u32, d: bytes, i: nat, v: byte, j: nat, w: byte)
    requires i < j < |d| && j - i < BASE && v != d[i] && w != d[j]
    ensures Rfc1950(adler, d[i := v][j := w]) != Rfc1950(adler, d)
  {
    SmallNotZeroMod(j - i);
    TwoBytesDetectedIff(adler, d, i, v, j, w);
  }

  /** Changing one or two bytes less than BASE apart always changes the checksum. */
  lemma NearbyPairDetected(adler: u32, d: bytes, i: nat, v: byte, j: nat, w: byte)
    requires i < j < |d| && j - i < BASE && (v != d[i] || w != d[j])
    ensures Rfc1950(adler, d[i := v][j := w]) != Rfc1950(adler, d)
  {
    if v == d[i] {
      assert d[i := v] == d;
      OneByteDetected(adler, d, j, w);
    } else if w == d[j] {
      assert d[i := v][j := w] == d[i := v];
      OneByteDetected(adler, d, i, v);
    } else {
      NearbyBothDetected(adler, d, i, v, j, w);
    }
  }
}
