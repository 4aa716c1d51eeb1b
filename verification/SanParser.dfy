/** The web page's reader of alternative names: it searches the raw certificate for the
    extension's object identifier and prints the names that follow it.
    It trusts the bytes it finds. Where the C code would read outside its buffers the model
    stops with the outcome Stray. */
module SanParser {
  import opened Bytes
  import opened CString
  import opened Der
  import opened SanWriter

  const SPACE := 32
  const DOT := 46

  const OUT_SIZE := 256

  /** id-ce-subjectAltName and the tag of the OCTET STRING. */
  const PATTERN: bytes := [0x55, 0x1D, 0x11, 0x04]

  datatype Outcome =
    | Text(s: bytes)
    | Error
    | Stray      // a read outside the certificate or the output buffer

  // ----- text pieces

  function Decimal(b: byte): (r: bytes)
    ensures 1 <= |r| <= 3
  {
    if b < 10 then [48 + b]
    else if b < 100 then [48 + b / 10, 48 + b % 10]
    else [48 + b / 100, 48 + b / 10 % 10, 48 + b % 10]
  }

  function Dotted(a: bytes): (r: bytes)
    requires |a| == 4
    ensures 7 <= |r| <= 15
  {
    Decimal(a[0]) + [DOT] + Decimal(a[1]) + [DOT] + Decimal(a[2]) + [DOT] + Decimal(a[3])
  }

  // ----- the pieces read back

  /** The number a text of digits stands for. */
  function Value(s: bytes): int {
    if s == [] then 0 else 10 * Value(s[..|s|-1]) + (s[|s|-1] as int - 48)
  }

  /** A byte is printed in decimal digits, without a leading zero. */
  lemma DecimalReads(b: byte)
    ensures Value(Decimal(b)) == b
    ensures forall i :: 0 <= i < |Decimal(b)| ==> 48 <= Decimal(b)[i] <= 57
    ensures b >= 10 ==> Decimal(b)[0] != 48
  {
    var d := Decimal(b);
    assert Value([]) == 0;
    if b < 10 {
      assert d[..0] == [];
    } else if b < 100 {
      assert d[..1] == [48 + b / 10] && d[..1][..0] == [];
    } else {
      var t: bytes := d[..2];
      assert t[..1][..0] == [] && Value(t[..1]) == t[0] as int - 48;
      assert Value(t) == 10 * (t[0] as int - 48) + (t[1] as int - 48);
    }
  }

  /** A text cut at every occurrence of a byte. */
  function CutAt(s: bytes, sep: byte): (r: seq<bytes>)
    ensures r != []
  {
    if s == [] then [[]]
    else if s[0] == sep then [[]] + CutAt(s[1..], sep)
    else
      var r := CutAt(s[1..], sep);
      [[s[0]] + r[0]] + r[1..]
  }

  lemma {:induction false} CutFirst(x: bytes, sep: byte, rest: bytes)
    requires sep !in x
    ensures CutAt(x + [sep] + rest, sep) == [x] + CutAt(rest, sep)
  {
    var s := x + [sep] + rest;
    if x == [] {
      assert s[1..] == rest;
    } else {
      assert s[1..] == x[1..] + [sep] + rest;
      CutFirst(x[1..], sep, rest);
      assert [x[0]] + x[1..] == x;
    }
  }

  lemma {:induction false} CutNone(x: bytes, sep: byte)
    requires sep !in x
    ensures CutAt(x, sep) == [x]
  {
    if x != [] {
      CutNone(x[1..], sep);
      assert [x[0]] + x[1..] == x;
    }
  }

  lemma NotADigit(b: byte, sep: byte)
    requires sep < 48
    ensures sep !in Decimal(b)
  {
    DecimalReads(b);
  }

  /** An address is printed as four numbers between three dots, in the order of its bytes. */
  lemma DottedReads(a: bytes)
    requires |a| == 4
    ensures var f := CutAt(Dotted(a), 46);
            |f| == 4 && forall i :: 0 <= i < 4 ==> Value(f[i]) == a[i]
  {
    hide Decimal, CutAt, Value;
    var d0, d1, d2, d3 := Decimal(a[0]), Decimal(a[1]), Decimal(a[2]), Decimal(a[3]);
    DecimalReads(a[0]);
    DecimalReads(a[1]);
    DecimalReads(a[2]);
    DecimalReads(a[3]);
    assert Dotted(a) == d0 + [46] + (d1 + [46] + (d2 + [46] + d3));
    CutFirst(d0, 46, d1 + [46] + (d2 + [46] + d3));
    CutFirst(d1, 46, d2 + [46] + d3);
    CutFirst(d2, 46, d3);
    CutNone(d3, 46);
    assert CutAt(Dotted(a), 46) == [d0, d1, d2, d3];
  }

  lemma NoSpaceInDotted(a: bytes)
    requires |a| == 4
    ensures 32 !in Dotted(a)
  {
    NotADigit(a[0], 32);
    NotADigit(a[1], 32);
    NotADigit(a[2], 32);
    NotADigit(a[3], 32);
  }

  // ----- the search

  datatype Probe = Match | Differ | Beyond

  /** Compares the pattern from its k-th byte on, stopping at the first difference. */
  function ProbeAt(data: bytes, x: nat, k: nat): Probe
    requires k <= 4
    decreases 4 - k
  {
    if k == 4 then Match
    else if x + k >= |data| then Beyond
    else if data[x + k] != PATTERN[k] then Differ
    else ProbeAt(data, x, k + 1)
  }

  // ----- the names

  /** The end of the reading loop: a trailing space is dropped. */
  function Finish(out: bytes): Outcome {
    if out == [] then Stray
    else if out[|out|-1] == SPACE then Text(out[..|out|-1])
    else Text(out)
  }

  /** One entry: the text it adds, the room the code asks for before adding it, and the length
      by which it moves on (the IP case prints four bytes whatever length is given). */
  datatype Entry =
    | Entry(text: bytes, room: nat, len: nat)
    | BadTag
    | OutOfData

  function EntryAt(data: bytes, q: nat): (e: Entry)
    ensures e.Entry? ==> |e.text| <= e.room
  {
    if q >= |data| then OutOfData
    else if data[q] != TAG_DNS && data[q] != TAG_IP then BadTag
    else if q + 1 >= |data| then OutOfData
    else
      var len: nat := data[q + 1];
      if data[q] == TAG_DNS then
        if q + 2 + len > |data| then OutOfData
        else Entry(CStr(data[q + 2..q + 2 + len]) + [SPACE], len + 1, len)
      else if q + 6 > |data| then OutOfData
      else
        var text := Dotted(data[q + 2..q + 6]) + [SPACE];
        Entry(text, |text| + 1, len)
  }

  /** The reading loop from offset q with `left` bytes of names announced. */
  function ReadNames(data: bytes, q: nat, left: int, out: bytes): (r: Outcome)
    requires |out| < OUT_SIZE
    ensures r.Text? ==> |r.s| < OUT_SIZE
    decreases left
  {
    if left <= 0 then Finish(out)
    else match EntryAt(data, q)
      case OutOfData => Stray
      case BadTag => Error
      case Entry(text, room, len) =>
        if |out| + room < OUT_SIZE then ReadNames(data, q + 2 + len, left - 2 - len, out + text)
        else Error
  }

  /** The whole function: the byte six behind the match is taken for the length of the names. */
  function AltNames(data: bytes, size: nat, x: nat): Outcome
    decreases size - x
  {
    if x >= size then Error
    else match ProbeAt(data, x, 0)
      case Beyond => Stray
      case Differ => AltNames(data, size, x + 1)
      case Match => if x + 6 >= |data| then Stray else ReadNames(data, x + 7, data[x + 6], [])
  }

  // ----- the same, as the loops compute it

  method PatternAt(raw: array<byte>, x: nat) returns (probe: Probe)
    ensures probe == ProbeAt(raw[..], x, 0)
  {
    var k := 0;
    while k < 4
      invariant k <= 4 && ProbeAt(raw[..], x, 0) == ProbeAt(raw[..], x, k)
    {
      if x + k >= raw.Length { return Beyond; }
      if raw[x + k] != PATTERN[k] { return Differ; }
      k := k + 1;
    }
    return Match;
  }

  /** One step of the reading loop. */
  lemma ReadOnce(data: bytes, q: nat, left: int, out: bytes)
    requires |out| < OUT_SIZE
    ensures ReadNames(data, q, left, out) ==
            if left <= 0 then Finish(out)
            else match EntryAt(data, q)
              case OutOfData => Stray
              case BadTag => Error
              case Entry(text, room, len) =>
                if |out| + room < OUT_SIZE then ReadNames(data, q + 2 + len, left - 2 - len, out + text)
                else Error
  {
  }

  method ReadEntry(raw: array<byte>, q: nat) returns (e: Entry)
    ensures e == EntryAt(raw[..], q)
  {
    if q >= raw.Length { return OutOfData; }
    var tag := raw[q];
    if tag != TAG_DNS && tag != TAG_IP { return BadTag; }
    if q + 1 >= raw.Length { return OutOfData; }
    var len: nat := raw[q + 1];
    if tag == TAG_DNS {
      if q + 2 + len > raw.Length { return OutOfData; }
      return Entry(CStr(raw[..][q + 2..q + 2 + len]) + [SPACE], len + 1, len);
    }
    if q + 6 > raw.Length { return OutOfData; }
    var tmp: bytes := Dotted(raw[..][q + 2..q + 6]) + [SPACE];
    return Entry(tmp, |tmp| + 1, len);
  }

  method ReadLoop(raw: array<byte>, start: nat, announced: nat) returns (r: Outcome)
    ensures r == ReadNames(raw[..], start, announced, [])
  {
    hide ReadNames, EntryAt;
    var q: nat, left: int, out: bytes := start, announced, [];
    while left > 0
      invariant |out| < OUT_SIZE
      invariant ReadNames(raw[..], start, announced, []) == ReadNames(raw[..], q, left, out)
      decreases left
    {
      var e := ReadEntry(raw, q);
      ReadOnce(raw[..], q, left, out);
      if e.OutOfData? { return Stray; }
      if e.BadTag? || |out| + e.room >= OUT_SIZE { return Error; }
      out := out + e.text;
      q := q + 2 + e.len;
      left := left - 2 - e.len;
    }
    ReadOnce(raw[..], q, left, out);
    return Finish(out);
  }

  method GetANStr(raw: array<byte>, size: nat) returns (r: Outcome)
    ensures r == AltNames(raw[..], size, 0)
    ensures r.Text? ==> |r.s| < OUT_SIZE
  {
    var x := 0;
    while x < size
      invariant AltNames(raw[..], size, 0) == AltNames(raw[..], size, x)
      decreases size - x
    {
      var probe := PatternAt(raw, x);
      if probe == Beyond { return Stray; }
      if probe == Match {
        if x + 6 >= raw.Length { return Stray; }
        r := ReadLoop(raw, x + 7, raw[x + 6]);
        return;
      }
      x := x + 1;
    }
    return Error;
  }

  // ----- what is read from a written extension

  predicate NulFree(s: bytes) {
    forall i :: 0 <= i < |s| ==> s[i] != 0
  }

  predicate GoodHosts(hosts: seq<bytes>) {
    forall i :: 0 <= i < |hosts| ==> NulFree(hosts[i]) && |hosts[i]| < WORD
  }

  function AddressText(ip: Address): (r: bytes)
    ensures |r| <= 16
  {
    if ip == NO_ADDRESS then [] else Dotted(ip) + [SPACE]
  }

  /** Hosts in reverse list order, then the address, each followed by a space. */
  function Spaced(hosts: seq<bytes>, ip: Address): bytes {
    if hosts == [] then AddressText(ip)
    else hosts[|hosts|-1] + [SPACE] + Spaced(hosts[..|hosts|-1], ip)
  }

  lemma {:induction false} SpacedEnds(hosts: seq<bytes>, ip: Address)
    requires hosts != [] || ip != NO_ADDRESS
    ensures Spaced(hosts, ip) != [] && Spaced(hosts, ip)[|Spaced(hosts, ip)|-1] == SPACE
  {
    if |hosts| > 1 || (hosts != [] && ip != NO_ADDRESS) {
      SpacedEnds(hosts[..|hosts|-1], ip);
    }
  }

  /** The names as one text, without a trailing space. */
  function Listed(hosts: seq<bytes>, ip: Address): bytes
    requires hosts != []
  {
    SpacedEnds(hosts, ip);
    Spaced(hosts, ip)[..|Spaced(hosts, ip)|-1]
  }

  /** The extension as it stands in a certificate, from its object identifier's value on. */
  function CertExtension(hosts: seq<bytes>, ip: Address): bytes
    requires forall i :: 0 <= i < |hosts| ==> |hosts[i]| < WORD
    requires |Names(hosts, ip)| + 6 < WORD
  {
    PATTERN + Length(|San(hosts, ip)|) + San(hosts, ip)
  }

  /** Text is at most 10 bytes longer than its encoding, and at least a sixth as long. */
  lemma {:induction false} TextSize(hosts: seq<bytes>, ip: Address)
    requires forall i :: 0 <= i < |hosts| ==> |hosts[i]| < WORD
    ensures |Spaced(hosts, ip)| <= |Names(hosts, ip)| + 10
    ensures |Names(hosts, ip)| <= 6 * |Spaced(hosts, ip)|
  {
    if hosts == [] {
      LengthForms(4);
    } else {
      TextSize(hosts[..|hosts|-1], ip);
    }
  }

  /** One written name: the entry read there. */
  lemma HostEntry(data: bytes, q: nat, host: bytes)
    requires NulFree(host) && |host| < 128
    requires q + 2 + |host| <= |data| && data[q..q + 2 + |host|] == Tlv(TAG_DNS, host)
    ensures EntryAt(data, q) == Entry(host + [SPACE], |host| + 1, |host|)
  {
    LengthForms(|host|);
    var t := Tlv(TAG_DNS, host);
    assert t == [TAG_DNS, |host|] + host;
    assert data[q] == t[0] && data[q + 1] == t[1];
    assert data[q + 2..q + 2 + |host|] == t[2..];
    assert t[2..] == host;
    StrLenIs(host, |host|);
    assert host[..|host|] == host;
  }

  lemma AddressEntry(data: bytes, q: nat, ip: Address)
    requires q + 6 <= |data| && data[q..q + 6] == [TAG_IP, 4] + ip
    ensures EntryAt(data, q) == Entry(Dotted(ip) + [SPACE], |Dotted(ip)| + 2, 4)
  {
  }

  lemma ReadAddress(data: bytes, q: nat, out: bytes, ip: Address)
    requires |out| < OUT_SIZE
    requires q + |AddressPart(ip)| <= |data| && data[q..q + |AddressPart(ip)|] == AddressPart(ip)
    ensures ReadNames(data, q, |AddressPart(ip)|, out) ==
            if |out| + Room([], ip) < 256 then Finish(out + AddressText(ip)) else Error
  {
    hide ReadNames, EntryAt, Finish, Dotted;
    ReadOnce(data, q, |AddressPart(ip)|, out);
    if ip == NO_ADDRESS {
      assert out + [] == out;
    } else {
      LengthForms(4);
      AddressEntry(data, q, ip);
      if |out| + |Dotted(ip)| + 2 < OUT_SIZE {
        ReadOnce(data, q + 6, 0, out + AddressText(ip));
      }
    }
  }

  /** The room the names must find in the output: their text, and one more for an address. */
  function Room(hosts: seq<bytes>, ip: Address): nat {
    |Spaced(hosts, ip)| + if ip == NO_ADDRESS then 0 else 1
  }

  lemma ReadHost(data: bytes, q: nat, out: bytes, host: bytes, more: nat)
    requires NulFree(host) && |host| < 128 && |out| < OUT_SIZE
    requires q + 2 + |host| <= |data| && data[q..q + 2 + |host|] == Tlv(TAG_DNS, host)
    ensures ReadNames(data, q, 2 + |host| + more, out) ==
            if |out| + |host| + 1 < OUT_SIZE then ReadNames(data, q + 2 + |host|, more, out + (host + [SPACE]))
            else Error
  {
    hide ReadNames, EntryAt, Tlv;
    HostEntry(data, q, host);
    ReadOnce(data, q, 2 + |host| + more, out);
  }

  predicate ShortHosts(hosts: seq<bytes>) {
    forall i :: 0 <= i < |hosts| ==> NulFree(hosts[i]) && |hosts[i]| < 128
  }

  lemma LastHost(hosts: seq<bytes>, ip: Address)
    requires hosts != [] && ShortHosts(hosts)
    ensures var n := |hosts| - 1;
            NulFree(hosts[n]) && |hosts[n]| < 128 && ShortHosts(hosts[..n]) &&
            Names(hosts, ip) == Tlv(TAG_DNS, hosts[n]) + Names(hosts[..n], ip) &&
            |Names(hosts, ip)| == 2 + |hosts[n]| + |Names(hosts[..n], ip)| &&
            Spaced(hosts, ip) == hosts[n] + [SPACE] + Spaced(hosts[..n], ip) &&
            Room(hosts, ip) == |hosts[n]| + 1 + Room(hosts[..n], ip)
  {
    LengthForms(|hosts[|hosts|-1]|);
  }

  /** Encoded names are read in order if their text finds room in 256 bytes, and otherwise the whole
      reading fails. */
  lemma {:induction false} ReadAll(data: bytes, q: nat, out: bytes, hosts: seq<bytes>, ip: Address, names: bytes)
    requires ShortHosts(hosts) && names == Names(hosts, ip) && |out| < OUT_SIZE
    requires q + |names| <= |data| && data[q..q + |names|] == names
    ensures ReadNames(data, q, |names|, out) ==
            if |out| + Room(hosts, ip) < 256 then Finish(out + Spaced(hosts, ip)) else Error
    decreases |hosts|
  {
    hide ReadNames, Finish, EntryAt, Tlv, NulFree;
    if hosts == [] {
      ReadAddress(data, q, out, ip);
    } else {
      var n := |hosts| - 1;
      var host, more := hosts[n], Names(hosts[..n], ip);
      LastHost(hosts, ip);
      hide Names, Spaced, Room, ShortHosts;
      FirstName(data, q, host, more);
      ReadHost(data, q, out, host, |more|);
      if |out| + |host| + 1 < OUT_SIZE {
        ReadAll(data, q + 2 + |host|, out + (host + [SPACE]), hosts[..n], ip, more);
        Regroup(out, host + [SPACE], Spaced(hosts[..n], ip));
      }
    }
  }

  lemma FirstName(data: bytes, q: nat, host: bytes, names: bytes)
    requires |host| < 128
    requires q + |Tlv(TAG_DNS, host) + names| <= |data|
    requires data[q..q + |Tlv(TAG_DNS, host) + names|] == Tlv(TAG_DNS, host) + names
    ensures |Tlv(TAG_DNS, host)| == 2 + |host|
    ensures data[q..q + 2 + |host|] == Tlv(TAG_DNS, host)
    ensures data[q + 2 + |host|..q + 2 + |host| + |names|] == names
  {
    LengthForms(|host|);
    var k, all := 2 + |host|, data[q..q + 2 + |host| + |names|];
    assert data[q..q + k] == all[..k];
    assert data[q + k..q + k + |names|] == all[k..];
  }

  /** A name of another kind ends the reading with an error. */
  lemma OtherKind(data: bytes, q: nat, left: nat, out: bytes)
    requires q < |data| && data[q] != 0x82 && data[q] != 0x87 && left > 0 && |out| < OUT_SIZE
    ensures ReadNames(data, q, left, out) == Error
  {
    hide ReadNames;
    ReadOnce(data, q, left, out);
  }

  /** Names announced beyond the certificate's bytes, or none at all, make the reading go astray. */
  lemma BeyondTheEnd(data: bytes, q: nat, left: nat, out: bytes)
    requires |out| < OUT_SIZE && q <= |data|
    ensures left > 0 && (q == |data| || (q + 1 < |data| && data[q] == 0x82 && q + 2 + data[q + 1] as int > |data|) ||
                         (q < |data| && data[q] == 0x87 && q + 6 > |data|)) ==>
              ReadNames(data, q, left, out) == Stray
    ensures ReadNames(data, q, 0, []) == Stray
  {
    hide ReadNames;
    ReadOnce(data, q, left, out);
    ReadOnce(data, q, 0, []);
  }

  /** An address of any announced length is printed from its first four bytes, and the reading
      goes on behind the announced ones. */
  lemma AnyAddress(data: bytes, q: nat, left: nat, out: bytes)
    requires q + 6 <= |data| && data[q] == 0x87 && left > 0 && |out| < OUT_SIZE
    ensures var text := Dotted(data[q + 2..q + 6]) + [32];
            ReadNames(data, q, left, out) ==
            if |out| + |text| + 1 < 256
            then ReadNames(data, q + 2 + data[q + 1] as int, left - 2 - data[q + 1] as int, out + text) else Error
  {
    hide ReadNames;
    ReadOnce(data, q, left, out);
  }

  lemma Regroup(out: bytes, text: bytes, more: bytes)
    ensures out + text + more == out + (text + more)
  {
  }

  /** No match of the pattern lies within `pre`. */
  ghost predicate NoMatchIn(pre: bytes) {
    forall x :: !OccursAt(pre, PATTERN, x)
  }

  lemma NoEarlierMatch(pre: bytes, rest: bytes, x: nat)
    requires NoMatchIn(pre) && x < |pre| && PATTERN <= rest
    ensures ProbeAt(pre + rest, x, 0) == Differ
  {
    var data := pre + rest;
    if x + 4 <= |pre| {
      var w := pre[x..x + 4];
      assert !OccursAt(pre, PATTERN, x);
      assert w[0] == data[x] && w[1] == data[x+1] && w[2] == data[x+2] && w[3] == data[x+3];
      assert w == [w[0], w[1], w[2], w[3]];
      ProbeFour(data, x);
    } else {
      assert data[|pre|] == rest[0] == PATTERN[0];
      ProbeFour(data, x);
    }
  }

  lemma ProbeFour(data: bytes, x: nat)
    requires x + 4 <= |data|
    ensures ProbeAt(data, x, 0) ==
            if data[x] == PATTERN[0] && data[x+1] == PATTERN[1] && data[x+2] == PATTERN[2] && data[x+3] == PATTERN[3]
            then Match else Differ
  {
  }

  lemma {:induction false} SearchFinds(pre: bytes, rest: bytes, size: nat, x: nat)
    requires NoMatchIn(pre) && [0x55, 0x1D, 0x11, 0x04] <= rest && |rest| >= 8 && x <= |pre| < size
    ensures AltNames(pre + rest, size, x) == ReadNames(pre + rest, |pre| + 7, rest[6], [])
    decreases |pre| - x
  {
    if x < |pre| {
      NoEarlierMatch(pre, rest, x);
      SearchFinds(pre, rest, size, x + 1);
    } else {
      ProbeFour(pre + rest, x);
    }
  }

  lemma ShortExtension(hosts: seq<bytes>, ip: Address)
    requires forall i :: 0 <= i < |hosts| ==> |hosts[i]| < WORD
    requires |Names(hosts, ip)| <= 125
    ensures var n := |Names(hosts, ip)|;
            CertExtension(hosts, ip) == PATTERN + [n + 2, TAG_SEQUENCE, n] + Names(hosts, ip)
  {
  }

  /** With contents too long for the short form, the byte read as a tag is none of the two. */
  lemma LongExtension(hosts: seq<bytes>, ip: Address)
    requires forall i :: 0 <= i < |hosts| ==> |hosts[i]| < WORD
    requires 125 < |Names(hosts, ip)| < 1600
    ensures |CertExtension(hosts, ip)| >= 9
    ensures CertExtension(hosts, ip)[7] != TAG_DNS && CertExtension(hosts, ip)[7] != TAG_IP
  {
    LengthForms(|Names(hosts, ip)|);
    LengthForms(|San(hosts, ip)|);
    var s := San(hosts, ip);
    assert s[0] == TAG_SEQUENCE && s[1] == Length(|Names(hosts, ip)|)[0];
    var w := CertExtension(hosts, ip);
    var l := Length(|s|);
    assert w[7] == (l + s)[3];
  }

  lemma LongIsNotRead(data: bytes, q: nat, left: nat)
    requires q < |data| && data[q] != TAG_DNS && data[q] != TAG_IP
    ensures EntryAt(data, q) == BadTag
    ensures !ReadNames(data, q, left, []).Text?
  {
  }

  lemma FinishList(hosts: seq<bytes>, ip: Address)
    requires hosts != []
    ensures Finish(Spaced(hosts, ip)) == Text(Listed(hosts, ip))
    ensures |Listed(hosts, ip)| == |Spaced(hosts, ip)| - 1
  {
  }

  lemma {:induction false} HostsAreShort(hosts: seq<bytes>, ip: Address)
    requires GoodHosts(hosts) && |Names(hosts, ip)| < 128
    ensures ShortHosts(hosts)
  {
    if hosts != [] {
      HostsAreShort(hosts[..|hosts|-1], ip);
      forall i | 0 <= i < |hosts| ensures NulFree(hosts[i]) && |hosts[i]| < 128 {
        assert i < |hosts| - 1 ==> hosts[..|hosts|-1][i] == hosts[i];
      }
    }
  }

  lemma ReadFrom(data: bytes, q: nat, hosts: seq<bytes>, ip: Address)
    requires GoodHosts(hosts) && hosts != [] && |Names(hosts, ip)| <= 125
    requires q + |Names(hosts, ip)| <= |data|
    requires data[q..q + |Names(hosts, ip)|] == Names(hosts, ip)
    ensures ReadNames(data, q, |Names(hosts, ip)|, []) == Text(Listed(hosts, ip))
  {
    TextSize(hosts, ip);
    HostsAreShort(hosts, ip);
    ReadAll(data, q, [], hosts, ip, Names(hosts, ip));
    assert [] + Spaced(hosts, ip) == Spaced(hosts, ip);
    FinishList(hosts, ip);
  }

  lemma Layout(pre: bytes, names: bytes, post: bytes)
    requires 2 <= |names| <= 125
    ensures var rest := PATTERN + [|names| + 2, TAG_SEQUENCE, |names|] + names + post;
            PATTERN <= rest && |rest| >= 8 && rest[6] == |names| &&
            (pre + rest)[|pre| + 7..|pre| + 7 + |names|] == names
  {
  }

  lemma ReadShort(pre: bytes, post: bytes, size: nat, hosts: seq<bytes>, ip: Address)
    requires GoodHosts(hosts) && hosts != [] && |Names(hosts, ip)| <= 125
    requires NoMatchIn(pre) && size > |pre|
    ensures AltNames(pre + (CertExtension(hosts, ip) + post), size, 0) == Text(Listed(hosts, ip))
  {
    hide ReadNames, AltNames, Names, Listed, NoMatchIn, San;
    var names := Names(hosts, ip);
    ShortExtension(hosts, ip);
    NonemptyNames(hosts, ip);
    Layout(pre, names, post);
    SearchFinds(pre, CertExtension(hosts, ip) + post, size, 0);
    ReadFrom(pre + (CertExtension(hosts, ip) + post), |pre| + 7, hosts, ip);
  }

  lemma ReadLong(pre: bytes, post: bytes, size: nat, hosts: seq<bytes>, ip: Address)
    requires GoodHosts(hosts) && hosts != [] && 125 < |Names(hosts, ip)| && |Names(hosts, ip)| + 6 < WORD
    requires NoMatchIn(pre) && size > |pre|
    ensures AltNames(pre + (CertExtension(hosts, ip) + post), size, 0) != Text(Listed(hosts, ip))
  {
    hide ReadNames, AltNames, Names, Listed, NoMatchIn, San;
    var rest := CertExtension(hosts, ip) + post;
    var data := pre + rest;
    if |Names(hosts, ip)| < 1600 {
      LongExtension(hosts, ip);
      assert PATTERN <= rest && rest[7] == CertExtension(hosts, ip)[7];
      SearchFinds(pre, rest, size, 0);
      assert data[|pre| + 7] == rest[7];
      LongIsNotRead(data, |pre| + 7, rest[6]);
    } else {
      TextSize(hosts, ip);
      FinishList(hosts, ip);
      TextIsShort(data, size, 0);
    }
  }

  /** Reading a certificate with the written extension in it gives the names back exactly when
      the contents of the extension are at most 125 bytes long. */
  lemma RoundTripIff(pre: bytes, post: bytes, size: nat, hosts: seq<bytes>, ip: Address)
    requires GoodHosts(hosts) && hosts != [] && |Names(hosts, ip)| + 6 < WORD
    requires NoMatchIn(pre) && size > |pre|
    ensures AltNames(pre + (CertExtension(hosts, ip) + post), size, 0) == Text(Listed(hosts, ip)) <==>
            |Names(hosts, ip)| <= 125
  {
    if |Names(hosts, ip)| <= 125 {
      ReadShort(pre, post, size, hosts, ip);
    } else {
      ReadLong(pre, post, size, hosts, ip);
    }
  }

  /** Three hosts of 60 characters are enough to go wrong: the writer has room for them, and the
      reader does not give them back. */
  lemma ThreeLongHosts(host: bytes, pre: bytes, post: bytes, size: nat)
    requires |host| == 60 && NulFree(host) && NoMatchIn(pre) && size > |pre|
    ensures var hosts := [host, host, host];
            FitsIn(hosts, NO_ADDRESS, ROOM * |hosts|) && |Names(hosts, NO_ADDRESS)| == 186 &&
            AltNames(pre + (CertExtension(hosts, NO_ADDRESS) + post), size, 0) != Text(Listed(hosts, NO_ADDRESS))
  {
    hide AltNames, Listed, NoMatchIn;
    var hosts := [host, host, host];
    LengthForms(60);
    LengthForms(186);
    assert hosts[..2] == [host, host] && hosts[..2][..1] == [host] && [host][..0] == [];
    assert Names([host], NO_ADDRESS) == Tlv(TAG_DNS, host) + [];
    assert Names([host, host], NO_ADDRESS) == Tlv(TAG_DNS, host) + Names([host], NO_ADDRESS);
    assert Names(hosts, NO_ADDRESS) == Tlv(TAG_DNS, host) + Names([host, host], NO_ADDRESS);
    RoundTripIff(pre, post, size, hosts, NO_ADDRESS);
  }

  // ----- what the text says

  /** The hosts last to first, and an address other than 0.0.0.0 in dotted form. */
  function Texts(hosts: seq<bytes>, ip: Address): seq<bytes> {
    if hosts == [] then if ip == [0, 0, 0, 0] then [] else [Dotted(ip)]
    else [hosts[|hosts|-1]] + Texts(hosts[..|hosts|-1], ip)
  }

  lemma {:induction false} CutLast(s: bytes, sep: byte)
    ensures CutAt(s + [sep], sep) == CutAt(s, sep) + [[]]
  {
    if s == [] {
      assert CutAt([], sep) == [[]] && (s + [sep])[1..] == [];
    } else {
      assert (s + [sep])[1..] == s[1..] + [sep];
      CutLast(s[1..], sep);
    }
  }

  lemma {:induction false} SpacedCut(hosts: seq<bytes>, ip: Address)
    requires forall i :: 0 <= i < |hosts| ==> 32 !in hosts[i]
    ensures CutAt(Spaced(hosts, ip), 32) == Texts(hosts, ip) + [[]]
  {
    if hosts == [] {
      if ip != NO_ADDRESS {
        NoSpaceInDotted(ip);
        CutLast(Dotted(ip), 32);
        CutNone(Dotted(ip), 32);
      }
    } else {
      var n := |hosts| - 1;
      SpacedCut(hosts[..n], ip);
      CutFirst(hosts[n], 32, Spaced(hosts[..n], ip));
      assert [hosts[n]] + (Texts(hosts[..n], ip) + [[]]) == Texts(hosts, ip) + [[]];
    }
  }

  /** Cut at its spaces, the text read back from an extension is exactly its hosts, last to first,
      and its address. */
  lemma ListedCut(hosts: seq<bytes>, ip: Address)
    requires hosts != [] && forall i :: 0 <= i < |hosts| ==> 32 !in hosts[i]
    ensures CutAt(Listed(hosts, ip), 32) == Texts(hosts, ip)
  {
    var l := Listed(hosts, ip);
    SpacedEnds(hosts, ip);
    assert l + [32] == Spaced(hosts, ip);
    SpacedCut(hosts, ip);
    CutLast(l, 32);
    assert CutAt(l, 32) == (CutAt(l, 32) + [[]])[..|CutAt(l, 32)|] == Texts(hosts, ip);
  }

  /** Without the identifier among the first `size` bytes, and at least three more to look at, there
      are no names. */
  lemma {:induction false} NoIdentifier(data: bytes, size: nat, x: nat)
    requires size + 3 <= |data|
    requires forall i :: x <= i < size ==> !OccursAt(data, [0x55, 0x1D, 0x11, 0x04], i)
    ensures AltNames(data, size, x) == Error
    decreases size - x
  {
    if x < size {
      var w := data[x..x + 4];
      assert w == [data[x], data[x+1], data[x+2], data[x+3]];
      assert !OccursAt(data, [0x55, 0x1D, 0x11, 0x04], x);
      ProbeFour(data, x);
      NoIdentifier(data, size, x + 1);
    }
  }

  lemma NonemptyNames(hosts: seq<bytes>, ip: Address)
    requires hosts != [] && forall i :: 0 <= i < |hosts| ==> |hosts[i]| < WORD
    ensures |Names(hosts, ip)| >= 2
  {
  }

  lemma {:induction false} TextIsShort(data: bytes, size: nat, x: nat)
    ensures AltNames(data, size, x).Text? ==> |AltNames(data, size, x).s| < OUT_SIZE
    decreases size - x
  {
    if x < size {
      TextIsShort(data, size, x + 1);
    }
  }

  /** The list a request is made with, [tiny.local, name], is shown as the request's own text
      of its names: name, tiny.local, address. */
  lemma RequestNames(alt: bytes, name: bytes, ip: Address)
    requires ip != NO_ADDRESS
    ensures Listed([alt, name], ip) == name + [SPACE] + alt + [SPACE] + Dotted(ip)
  {
    assert [alt, name][..1] == [alt];
    assert [alt][..0] == [];
    assert Spaced([alt], ip) == alt + [SPACE] + (Dotted(ip) + [SPACE]);
    assert Spaced([alt, name], ip) == name + [SPACE] + (alt + [SPACE] + (Dotted(ip) + [SPACE]));
  }
}
