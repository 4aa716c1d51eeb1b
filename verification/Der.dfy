/** The DER primitives of Mbed TLS: they write backwards, from a position in a buffer towards
    its start. Lengths follow section 8.1.3 of X.690. */
module Der {
  import opened Bytes

  /** A number in base 256, most significant byte first; empty for 0. */
  function BigEndian(n: nat): (r: bytes) {
    if n == 0 then [] else BigEndian(n / 256) + [n % 256]
  }

  function BigEndianValue(s: bytes): nat {
    if s == [] then 0 else 256 * BigEndianValue(s[..|s|-1]) + s[|s|-1]
  }

  lemma {:induction false} BigEndianFits(n: nat, k: nat)
    requires k <= 3 && n < [1, 0x100, 0x1_0000, 0x100_0000][k] * 256
    ensures |BigEndian(n)| <= k + 1
  {
    if n > 0 && k > 0 {
      BigEndianFits(n / 256, k - 1);
    } else if n > 0 {
      assert n / 256 == 0 && BigEndian(n / 256) == [];
    }
  }

  /** The length octets: short form below 128, otherwise the count of octets and the octets. */
  function Length(n: u32): (r: bytes)
    ensures 1 <= |r| <= 5
  {
    BigEndianFits(n, 3);
    if n < 128 then [n] else [128 + |BigEndian(n)|] + BigEndian(n)
  }

  function Tlv(tag: byte, body: bytes): bytes
    requires |body| < WORD
  {
    [tag] + Length(|body|) + body
  }

  /** Reads length octets by the rules of X.690: the length and how many octets it took.
      Lengths in more octets than necessary are not DER and give None. */
  function ReadLength(s: bytes): Option<(nat, nat)> {
    if s == [] then None
    else if s[0] < 128 then Some((s[0] as nat, 1))
    else
      var k := s[0] - 128;
      if k == 0 || k + 1 > |s| || s[1] == 0 then None
      else
        var n := BigEndianValue(s[1..k+1]);
        if n < 128 then None else Some((n, k + 1))
  }

  lemma {:induction false} BigEndianRoundTrip(n: nat)
    ensures BigEndianValue(BigEndian(n)) == n
    ensures n > 0 ==> BigEndian(n) != [] && BigEndian(n)[0] != 0
  {
    if n > 0 {
      BigEndianRoundTrip(n / 256);
      var p := BigEndian(n / 256);
      assert (p + [n % 256])[..|p|] == p;
      if n / 256 == 0 { assert p == []; }
    }
  }

  /** What is written is read back, whatever follows, and it is the shortest form. */
  lemma LengthRoundTrip(n: u32, rest: bytes)
    ensures ReadLength(Length(n) + rest) == Some((n as nat, |Length(n)|))
  {
    if n >= 128 {
      BigEndianRoundTrip(n);
      var b, s := BigEndian(n), Length(n) + rest;
      assert s[1..|b| + 1] == b;
      assert s[1] == b[0];
    }
  }

  lemma LengthForms(n: u32)
    ensures n < 128 ==> Length(n) == [n]
    ensures 128 <= n < 256 ==> Length(n) == [0x81, n]
    ensures 256 <= n < 65536 ==> Length(n) == [0x82, n / 256, n % 256]
  {
    assert BigEndian(0) == [];
    if 0 < n < 256 {
      assert BigEndian(n) == BigEndian(n / 256) + [n % 256];
    } else if 256 <= n < 65536 {
      assert BigEndian(n / 256) == BigEndian(n / 256 / 256) + [n / 256 % 256];
      assert BigEndian(n) == BigEndian(n / 256) + [n % 256];
    }
  }

  // ----- the writers

  /** A buffer after `enc` has been written so that it ends at p0. */
  function Written(was: bytes, p0: nat, enc: bytes): (r: bytes)
    requires |enc| <= p0 <= |was|
    ensures |r| == |was|
  {
    was[..p0 - |enc|] + enc + was[p0..]
  }

  lemma WrittenTwice(was: bytes, p0: nat, x: bytes, y: bytes)
    requires |y| + |x| <= p0 <= |was|
    ensures Written(Written(was, p0, x), p0 - |x|, y) == Written(was, p0, y + x)
  {
  }

  lemma WrittenNothing(was: bytes, p0: nat)
    requires p0 <= |was|
    ensures Written(was, p0, []) == was
  {
  }

  method Put(buf: array<byte>, p0: nat, b: byte) returns (p: nat)
    requires 1 <= p0 <= buf.Length
    modifies buf
    ensures p == p0 - 1 && buf[..] == Written(old(buf[..]), p0, [b])
  {
    p := p0 - 1;
    buf[p] := b;
  }

  method WriteRaw(buf: array<byte>, p0: nat, src: bytes) returns (ok: bool, p: nat)
    requires p0 <= buf.Length
    modifies buf
    ensures ok <==> |src| <= p0
    ensures ok ==> p == p0 - |src| && buf[..] == Written(old(buf[..]), p0, src)
    ensures !ok ==> p == p0 && buf[..] == old(buf[..])
  {
    p := p0;
    ok := p >= |src|;
    if ok {
      p := p - |src|;
      forall i | 0 <= i < |src| {
        buf[p + i] := src[i];
      }
      assert buf[..] == Written(old(buf[..]), p0, src);
    }
  }

  method WriteTag(buf: array<byte>, p0: nat, tag: byte) returns (ok: bool, p: nat)
    requires p0 <= buf.Length
    modifies buf
    ensures ok <==> 1 <= p0
    ensures ok ==> p == p0 - 1 && buf[..] == Written(old(buf[..]), p0, [tag])
    ensures !ok ==> p == p0 && buf[..] == old(buf[..])
  {
    p := p0;
    ok := p >= 1;
    if ok {
      p := Put(buf, p, tag);
    }
  }

  /** The digits of a number in base 256; one zero digit for 0. */
  function Digits(n: nat): (r: bytes)
    ensures r != []
  {
    if n == 0 then [0] else BigEndian(n)
  }

  lemma LengthFromDigits(n: u32)
    ensures |Digits(n)| <= 4
    ensures Length(n) == if n < 128 then Digits(n) else [128 + |Digits(n)|] + Digits(n)
  {
    BigEndianFits(n, 3);
    LengthForms(n);
    if 0 < n < 128 {
      assert BigEndian(n) == BigEndian(n / 256) + [n % 256];
    }
  }

  /** The octets needed are counted first, so a length that does not fit writes nothing. */
  method LengthOctets(n: u32) returns (required: nat)
    ensures required == |Length(n)|
  {
    required := 1;
    if n >= 128 {
      var l: u32 := n;
      while l != 0
        invariant required + |BigEndian(l)| == |Length(n)|
      {
        required := required + 1;
        l := l / 256;
      }
    }
  }

  lemma DigitStep(n: nat, done: bytes)
    requires n != 0
    ensures |BigEndian(n)| == |BigEndian(n / 256)| + 1
    ensures BigEndian(n / 256) + ([n % 256] + done) == BigEndian(n) + done
  {
    Reassociate(BigEndian(n / 256), [n % 256], done);
  }

  lemma Reassociate(x: bytes, y: bytes, z: bytes)
    ensures x + (y + z) == x + y + z
  {
  }

  lemma DigitsStart(n: nat)
    ensures BigEndian(n / 256) + [n % 256] == Digits(n)
    ensures BigEndian(0) == []
  {
  }

  method WriteDigits(buf: array<byte>, p0: nat, n: nat) returns (p: nat)
    requires |Digits(n)| <= p0 <= buf.Length
    modifies buf
    ensures p == p0 - |Digits(n)| && buf[..] == Written(old(buf[..]), p0, Digits(n))
  {
    hide Written, BigEndian, Digits;
    var len: nat := n / 256;
    p := Put(buf, p0, n % 256);
    ghost var done: bytes := [n % 256];
    DigitsStart(n);
    while len != 0
      invariant p == p0 - |done| && |BigEndian(len)| + |done| <= p0
      invariant BigEndian(len) + done == Digits(n)
      invariant buf[..] == Written(old(buf[..]), p0, done)
    {
      var d: byte := len % 256;
      DigitStep(len, done);
      WrittenTwice(old(buf[..]), p0, done, [d]);
      p := Put(buf, p, d);
      done := [d] + done;
      len := len / 256;
    }
    DigitsStart(0);
    assert [] + done == done;
  }

  method WriteLength(buf: array<byte>, p0: nat, n: u32) returns (ok: bool, p: nat)
    requires p0 <= buf.Length
    modifies buf
    ensures ok <==> |Length(n)| <= p0
    ensures ok ==> p == p0 - |Length(n)| && buf[..] == Written(old(buf[..]), p0, Length(n))
    ensures !ok ==> p == p0 && buf[..] == old(buf[..])
  {
    p := p0;
    LengthFromDigits(n);
    var required := LengthOctets(n);
    ok := required <= p;
    if ok {
      p := WriteDigits(buf, p, n);
      if required > 1 {
        WrittenTwice(old(buf[..]), p0, Digits(n), [128 + required - 1]);
        p := Put(buf, p, 128 + required - 1);
      }
    }
  }
}
