/** The Subject Alternative Name extension of a certificate request: dNSName [2] and
    iPAddress [7] of section 4.2.1.6 of RFC 5280, written from the end of a buffer. */
module SanWriter {
  import opened Bytes
  import opened Der

  const TAG_DNS := 0x82
  const TAG_IP := 0x87
  const TAG_SEQUENCE := 0x30

  /** Room per host: at most 64 characters and one more. */
  const ROOM := 65

  /** The four bytes of the address as they lie in memory; all zero means no address. */
  type Address = a: bytes | |a| == 4 witness [0, 0, 0, 0]

  const NO_ADDRESS: Address := [0, 0, 0, 0]

  predicate ValidHosts(hosts: seq<bytes>) {
    ROOM * |hosts| < WORD && forall i :: 0 <= i < |hosts| ==> |hosts[i]| < WORD
  }

  function AddressPart(ip: Address): (r: bytes)
    ensures |r| <= 6
  {
    LengthForms(4);
    if ip == NO_ADDRESS then [] else Tlv(TAG_IP, ip)
  }

  /** The names in front of the address: each host of the list is written before the ones
      already there, so the list comes out reversed. */
  function Names(hosts: seq<bytes>, ip: Address): bytes
    requires forall i :: 0 <= i < |hosts| ==> |hosts[i]| < WORD
  {
    if hosts == [] then AddressPart(ip)
    else Tlv(TAG_DNS, hosts[|hosts|-1]) + Names(hosts[..|hosts|-1], ip)
  }

  /** The extension value; defined when its length is a 32-bit number. */
  function San(hosts: seq<bytes>, ip: Address): bytes
    requires forall i :: 0 <= i < |hosts| ==> |hosts[i]| < WORD
    requires |Names(hosts, ip)| < WORD
  {
    Tlv(TAG_SEQUENCE, Names(hosts, ip))
  }

  ghost predicate FitsIn(hosts: seq<bytes>, ip: Address, room: nat)
    requires forall i :: 0 <= i < |hosts| ==> |hosts[i]| < WORD
  {
    |Names(hosts, ip)| < WORD && |San(hosts, ip)| <= room
  }

  // ----- what a reader of DER makes of it

  /** One element: its tag, its contents, and what follows. */
  function ReadTlv(s: bytes): Option<(byte, bytes, bytes)> {
    if s == [] then None
    else match ReadLength(s[1..])
      case None => None
      case Some((n, k)) =>
        if 1 + k + n > |s| then None else Some((s[0], s[1 + k..1 + k + n], s[1 + k + n..]))
  }

  /** Elements to the end. */
  function ReadTlvs(s: bytes): Option<seq<(byte, bytes)>> {
    if s == [] then Some([])
    else match ReadTlv(s)
      case None => None
      case Some((tag, body, rest)) =>
        if |rest| >= |s| then None
        else match ReadTlvs(rest)
          case None => None
          case Some(more) => Some([(tag, body)] + more)
  }

  /** The hosts last to first as dNSName, context-specific 2, and an address other than 0.0.0.0 as
      iPAddress, context-specific 7. */
  function GeneralNames(hosts: seq<bytes>, ip: Address): seq<(byte, bytes)> {
    if hosts == [] then if ip == [0, 0, 0, 0] then [] else [(0x87, ip)]
    else [(0x82, hosts[|hosts|-1])] + GeneralNames(hosts[..|hosts|-1], ip)
  }

  lemma TlvReads(tag: byte, body: bytes, rest: bytes)
    requires |body| < WORD
    ensures ReadTlv(Tlv(tag, body) + rest) == Some((tag, body, rest))
  {
    var s, l := Tlv(tag, body) + rest, Length(|body|);
    LengthRoundTrip(|body|, body + rest);
    assert s[1..] == l + (body + rest);
    assert s[1 + |l|..1 + |l| + |body|] == body;
    assert s[1 + |l| + |body|..] == rest;
  }

  lemma {:induction false} NamesRead(hosts: seq<bytes>, ip: Address)
    requires forall i :: 0 <= i < |hosts| ==> |hosts[i]| < WORD
    ensures ReadTlvs(Names(hosts, ip)) == Some(GeneralNames(hosts, ip))
  {
    hide ReadTlv, Tlv;
    if hosts != [] {
      var n := |hosts| - 1;
      NamesRead(hosts[..n], ip);
      TlvReads(TAG_DNS, hosts[n], Names(hosts[..n], ip));
      TlvNonempty(TAG_DNS, hosts[n]);
    } else if ip != NO_ADDRESS {
      TlvReads(TAG_IP, ip, []);
      TlvNonempty(TAG_IP, ip);
      assert Tlv(TAG_IP, ip) + [] == Tlv(TAG_IP, ip);
      assert ReadTlvs([]) == Some([]) && Names(hosts, ip) == Tlv(TAG_IP, ip);
      var empty: seq<(byte, bytes)> := [];
      assert [(TAG_IP, ip)] + empty == [(TAG_IP, ip)];
    }
  }

  lemma TlvNonempty(tag: byte, body: bytes)
    requires |body| < WORD
    ensures Tlv(tag, body) != []
  {
  }

  /** Whatever the hosts and the address: the extension is one SEQUENCE of exactly these general
      names (section 4.2.1.6 of RFC 5280), read by the rules of X.690. */
  lemma SanReads(hosts: seq<bytes>, ip: Address)
    requires forall i :: 0 <= i < |hosts| ==> |hosts[i]| < WORD
    requires |Names(hosts, ip)| < WORD
    ensures ReadTlv(San(hosts, ip)) == Some((0x30, Names(hosts, ip), []))
    ensures ReadTlvs(Names(hosts, ip)) == Some(GeneralNames(hosts, ip))
  {
    TlvReads(TAG_SEQUENCE, Names(hosts, ip), []);
    assert San(hosts, ip) + [] == San(hosts, ip);
    NamesRead(hosts, ip);
  }

  /** One short host and an address, byte by byte. */
  lemma SanBytes(host: bytes, ip: Address)
    requires |host| < 100
    ensures Names([host], ip) ==
            [0x82, |host|] + host + if ip == [0, 0, 0, 0] then [] else [0x87, 4] + ip
    ensures San([host], ip) == [0x30, |Names([host], ip)|] + Names([host], ip)
  {
    LengthForms(|host|);
    LengthForms(4);
    assert [host][..0] == [];
    assert Names([host], ip) == Tlv(TAG_DNS, host) + AddressPart(ip);
    LengthForms(|Names([host], ip)|);
  }

  datatype Result =
    | NoHosts             // nothing to do, no extension is set
    | AllocFailed
    | TooSmall
    | NotSet              // the request could not take the extension
    | Extension(value: bytes)

  lemma {:induction false} NamesGrow(hosts: seq<bytes>, ip: Address, i: nat)
    requires i <= |hosts| && forall i :: 0 <= i < |hosts| ==> |hosts[i]| < WORD
    ensures |Names(hosts[..i], ip)| <= |Names(hosts, ip)|
  {
    if i == |hosts| {
      assert hosts[..i] == hosts;
    } else {
      var n := |hosts| - 1;
      NamesGrow(hosts[..n], ip, i);
      assert hosts[..n][..i] == hosts[..i];
    }
  }

  lemma TlvSize(tag: byte, body: bytes)
    requires |body| < WORD
    ensures |Tlv(tag, body)| == 1 + |Length(|body|)| + |body|
  {
  }

  /** Length and tag in front of contents of `len` bytes, which end at `end`. */
  method WriteHeader(buf: array<byte>, tag: byte, len: u32, ghost was: bytes, ghost end: nat, ghost body: bytes,
                     p0: nat)
    returns (ok: bool, p: nat)
    requires p0 <= buf.Length && |body| == len && p0 + len == end <= |was|
    requires buf[..] == Written(was, end, body)
    modifies buf
    ensures ok <==> |Tlv(tag, body)| <= end
    ensures ok ==> p == end - |Tlv(tag, body)| && buf[..] == Written(was, end, Tlv(tag, body))
  {
    hide Written, Length, Tlv;
    TlvSize(tag, body);
    ok, p := WriteLength(buf, p0, len);
    if ok {
      WrittenTwice(was, end, body, Length(len));
      ok, p := WriteTag(buf, p, tag);
      if ok {
        TlvInSteps(was, end, tag, body);
      }
    }
  }

  lemma TlvInSteps(was: bytes, end: nat, tag: byte, body: bytes)
    requires |body| < WORD && |Tlv(tag, body)| <= end <= |was|
    ensures var x := Length(|body|) + body;
            Written(Written(was, end, x), end - |x|, [tag]) == Written(was, end, Tlv(tag, body))
  {
  }

  /** Contents, then length, then tag. */
  method WriteTlv(buf: array<byte>, p0: nat, tag: byte, body: bytes) returns (ok: bool, p: nat)
    requires p0 <= buf.Length && |body| < WORD
    modifies buf
    ensures ok <==> |Tlv(tag, body)| <= p0
    ensures ok ==> p == p0 - |Tlv(tag, body)| && buf[..] == Written(old(buf[..]), p0, Tlv(tag, body))
  {
    ok, p := WriteRaw(buf, p0, body);
    if ok {
      ok, p := WriteHeader(buf, tag, |body|, old(buf[..]), p0, body, p);
    }
  }

  /** `done` has been written at the end of the buffer. */
  ghost predicate AtEnd(now: bytes, was: bytes, p: nat, done: bytes) {
    |done| + p == |was| && now == Written(was, |was|, done)
  }

  /** One more host in front of what is there. */
  method WriteHost(buf: array<byte>, p0: nat, host: bytes, ghost was: bytes, ghost done: bytes)
    returns (ok: bool, p: nat)
    requires |host| < WORD && |was| == buf.Length && AtEnd(buf[..], was, p0, done)
    modifies buf
    ensures ok <==> |Tlv(TAG_DNS, host) + done| <= |was|
    ensures ok ==> AtEnd(buf[..], was, p, Tlv(TAG_DNS, host) + done)
  {
    ok, p := WriteTlv(buf, p0, TAG_DNS, host);
    if ok {
      WrittenTwice(was, |was|, done, Tlv(TAG_DNS, host));
    }
  }

  lemma NamesStep(hosts: seq<bytes>, ip: Address, i: nat)
    requires i < |hosts| && forall i :: 0 <= i < |hosts| ==> |hosts[i]| < WORD
    ensures Names(hosts[..i + 1], ip) == Tlv(TAG_DNS, hosts[i]) + Names(hosts[..i], ip)
    ensures |Names(hosts[..i + 1], ip)| <= |Names(hosts, ip)|
  {
    assert hosts[..i + 1][..i] == hosts[..i];
    NamesGrow(hosts, ip, i + 1);
  }

  lemma NamesStart(hosts: seq<bytes>, ip: Address)
    requires forall i :: 0 <= i < |hosts| ==> |hosts[i]| < WORD
    ensures Names(hosts[..0], ip) == AddressPart(ip)
    ensures |AddressPart(ip)| <= |Names(hosts, ip)|
  {
  }

  /** The address, then the hosts in list order, each in front of what is there. */
  method WriteNames(buf: array<byte>, hosts: seq<bytes>, ip: Address) returns (ok: bool, p: nat)
    requires forall i :: 0 <= i < |hosts| ==> |hosts[i]| < WORD
    modifies buf
    ensures ok <==> |Names(hosts, ip)| <= buf.Length
    ensures ok ==> AtEnd(buf[..], old(buf[..]), p, Names(hosts, ip))
  {
    ghost var was := buf[..];
    ok, p := true, buf.Length;
    WrittenNothing(was, |was|);
    NamesStart(hosts, ip);
    if ip != NO_ADDRESS {
      ok, p := WriteTlv(buf, p, TAG_IP, ip);
      if !ok { return; }
    }
    var i := 0;
    while i < |hosts|
      invariant ok && i <= |hosts|
      invariant AtEnd(buf[..], was, p, Names(hosts[..i], ip))
    {
      NamesStep(hosts, ip, i);
      ok, p := WriteHost(buf, p, hosts[i], was, Names(hosts[..i], ip));
      if !ok { return; }
      i := i + 1;
    }
    assert hosts[..i] == hosts;
  }

  /** The buffer has 65 bytes per host; the extension is written if and only if it fits. `setOk`
      is whether the request can take an extension. The buffer is not released if the names do
      not fit. */
  method SetSubjectAltName(hosts: seq<bytes>, ip: Address, allocOk: bool, setOk: bool)
    returns (r: Result, lost: bool)
    requires ValidHosts(hosts)
    ensures r == NoHosts <==> hosts == []
    ensures r == AllocFailed <==> hosts != [] && !allocOk
    ensures r == TooSmall <==> hosts != [] && allocOk && !FitsIn(hosts, ip, 65 * |hosts|)
    ensures r == NotSet <==> hosts != [] && allocOk && FitsIn(hosts, ip, 65 * |hosts|) && !setOk
    ensures r.Extension? ==> |Names(hosts, ip)| < WORD && r.value == San(hosts, ip)
    ensures lost <==> r == TooSmall
  {
    lost := false;
    if hosts == [] { return NoHosts, lost; }
    if !allocOk { return AllocFailed, lost; }
    var buf := new byte[ROOM * |hosts|](_ => 0);
    lost := true;
    ghost var was := buf[..];
    var ok, p := WriteNames(buf, hosts, ip);
    if !ok { return TooSmall, lost; }
    ok, p := WriteHeader(buf, TAG_SEQUENCE, buf.Length - p, was, buf.Length, Names(hosts, ip), p);
    if !ok { return TooSmall, lost; }
    r := if setOk then Extension(buf[p..]) else NotSet;
    lost := false;
  }
}
