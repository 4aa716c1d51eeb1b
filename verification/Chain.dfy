/** The check of an uploaded certificate chain: it is cut behind its second END marker, parsed,
    and kept for the update task. Parsing and decoding are Mbed TLS's business and enter as
    functions. */
module Chain {
  import opened Bytes
  import opened CString

  /** -----END CERTIFICATE----- */
  const END: bytes := [45, 45, 45, 45, 45, 69, 78, 68, 32, 67, 69, 82, 84, 73, 70, 73, 67, 65, 84, 69,
                       45, 45, 45, 45, 45]

  const END_SIZE := 25
  const NEW_CRT_SIZE := 2048

  const OK := 0
  const ERR_CRT := -5
  const CHECK_1 := -6
  const CHECK_2 := -7
  const CHECK_3 := -8
  const CHECK_4 := -9
  const CHECK_5 := -10
  const ERR_SIZE := -12

  /** What parsing a PEM text yields: a return code and the CA flags of the certificates. */
  datatype Parsed = Parsed(rc: int, ca: seq<int>)

  /** The two outside functions: the parser, and the code CRTDecode returns for the first or the
      second certificate. */
  datatype X509 = X509(parse: bytes -> Parsed, decode: (bytes, nat) -> int)

  // ----- the cut

  /** The end of the second marker, or -1. */
  function SecondEnd(s: bytes): (r: int)
    ensures r == -1 || 2 * END_SIZE <= r <= |s|
  {
    var e1 := Find(s, END, 0);
    if e1 == -1 || e1 + END_SIZE >= |s| then -1
    else
      var e2 := Find(s, END, e1 + END_SIZE);
      if e2 == -1 then -1 else e2 + END_SIZE
  }

  ghost predicate TwoEnds(s: bytes) {
    exists i, j :: OccursAt(s, END, i) && OccursAt(s, END, j) && i + END_SIZE <= j
  }

  /** `c` is the shortest prefix of s with two markers that do not overlap. */
  ghost predicate ShortestWithTwoEnds(c: bytes, s: bytes) {
    c <= s && TwoEnds(c) && forall k :: 0 <= k < |c| ==> !TwoEnds(c[..k])
  }

  lemma OccursInPrefix(s: bytes, k: nat, i: int)
    requires k <= |s|
    ensures OccursAt(s[..k], END, i) <==> OccursAt(s, END, i) && i + END_SIZE <= k
  {
  }

  lemma NoSecondEnd(s: bytes)
    requires SecondEnd(s) == -1
    ensures !TwoEnds(s)
  {
  }

  lemma NoShorterCut(s: bytes, k: nat)
    requires k < SecondEnd(s)
    ensures !TwoEnds(s[..k])
  {
    forall i, j | OccursAt(s[..k], END, i) && OccursAt(s[..k], END, j) ensures !(i + END_SIZE <= j) {
      OccursInPrefix(s, k, i);
      OccursInPrefix(s, k, j);
    }
  }

  lemma CutHasTwoEnds(s: bytes)
    requires SecondEnd(s) != -1
    ensures TwoEnds(s[..SecondEnd(s)])
  {
    var e1, r := Find(s, END, 0), SecondEnd(s);
    OccursInPrefix(s, r, e1);
    OccursInPrefix(s, r, r - END_SIZE);
    assert OccursAt(s[..r], END, e1) && OccursAt(s[..r], END, r - END_SIZE);
  }

  /** Taking the first marker, and then the first behind it, is the shortest way to two. */
  lemma CutIsShortest(s: bytes)
    ensures SecondEnd(s) == -1 <==> !TwoEnds(s)
    ensures SecondEnd(s) != -1 ==> ShortestWithTwoEnds(s[..SecondEnd(s)], s)
  {
    hide SecondEnd, TwoEnds;
    var r := SecondEnd(s);
    if r == -1 {
      NoSecondEnd(s);
    } else {
      CutHasTwoEnds(s);
      LongerHasTwoEnds(s[..r], s);
      forall k | 0 <= k < r ensures !TwoEnds(s[..r][..k]) {
        NoShorterCut(s, k);
        assert s[..r][..k] == s[..k];
      }
    }
  }

  lemma ShortestUnique(c: bytes, c': bytes, s: bytes)
    requires ShortestWithTwoEnds(c, s) && ShortestWithTwoEnds(c', s)
    ensures c == c'
  {
    assert |c| <= |c'| ==> c == c'[..|c|];
    assert |c'| <= |c| ==> c' == c[..|c'|];
  }

  // ----- the checks

  /** The verdict on the parsed chain. */
  function Verdict(p: Parsed): int {
    if p.rc != 0 then CHECK_2
    else if |p.ca| < 2 then CHECK_3
    else if p.ca[0] != 0 then CHECK_4
    else if p.ca[1] != 1 then CHECK_5
    else OK
  }

  /** A chain that may be kept: the shortest text with two END markers, that parses to a
      certificate that is no CA and one that is, and that fits with its NUL. */
  ghost predicate Acceptable(c: bytes, x: X509) {
    ShortestWithTwoEnds(c, c) && Verdict(x.parse(c)) == OK && |c| + 1 < NEW_CRT_SIZE &&
    forall i :: 0 <= i < |c| ==> c[i] != 0
  }

  /** What an upload of text s stores, if anything. */
  function Kept(s: bytes, x: X509): Option<bytes> {
    var r := SecondEnd(s);
    if r != -1 && Verdict(x.parse(s[..r])) == OK && r + 1 < NEW_CRT_SIZE then Some(s[..r]) else None
  }

  function ReturnCode(s: bytes, x: X509): int {
    var r := SecondEnd(s);
    if r == -1 then CHECK_1
    else
      var c := s[..r];
      if Verdict(x.parse(c)) != OK then Verdict(x.parse(c))
      else if r + 1 >= NEW_CRT_SIZE then ERR_SIZE
      else if x.decode(c, 0) != OK then x.decode(c, 0)
      else x.decode(c, 1)
  }

  /** An upload stores exactly the acceptable prefix of its text, if there is one. */
  lemma KeptIff(s: bytes, x: X509, c: bytes)
    requires forall i :: 0 <= i < |s| ==> s[i] != 0
    ensures Kept(s, x) == Some(c) <==> c <= s && Acceptable(c, x)
  {
    CutIsShortest(s);
    var r := SecondEnd(s);
    if Kept(s, x) == Some(c) {
      assert c == s[..r];
    }
    if c <= s && Acceptable(c, x) {
      assert ShortestWithTwoEnds(c, s);
      LongerHasTwoEnds(c, s);
      ShortestUnique(c, s[..r], s);
    }
  }

  lemma LongerHasTwoEnds(c: bytes, s: bytes)
    requires c <= s && TwoEnds(c)
    ensures TwoEnds(s)
  {
    var i, j :| OccursAt(c, END, i) && OccursAt(c, END, j) && i + END_SIZE <= j;
    assert c == s[..|c|];
    OccursInPrefix(s, |c|, i);
    OccursInPrefix(s, |c|, j);
  }

  /** What is stored, check by check: the shortest text with two markers, if it parses without
      error to a certificate that is no CA and one that is, and fits with its NUL. */
  lemma KeptMeans(s: bytes, x: X509, c: bytes)
    ensures Kept(s, x) == Some(c) <==>
            ShortestWithTwoEnds(c, s) && |c| + 1 < 2048 &&
            x.parse(c).rc == 0 && |x.parse(c).ca| >= 2 && x.parse(c).ca[0] == 0 && x.parse(c).ca[1] == 1
  {
    CutIsShortest(s);
    if ShortestWithTwoEnds(c, s) {
      LongerHasTwoEnds(c, s);
      ShortestUnique(c, s[..SecondEnd(s)], s);
    }
  }

  /** The codes: -6 without two markers, and otherwise for the shortest text with two the code of
      the first check that fails, or what decoding for display gives. */
  lemma CodeMeans(s: bytes, x: X509, c: bytes)
    requires ShortestWithTwoEnds(c, s)
    ensures ReturnCode(s, x) ==
            if x.parse(c).rc != 0 then -7
            else if |x.parse(c).ca| < 2 then -8
            else if x.parse(c).ca[0] != 0 then -9
            else if x.parse(c).ca[1] != 1 then -10
            else if |c| + 1 >= 2048 then -12
            else if x.decode(c, 0) != 0 then x.decode(c, 0)
            else x.decode(c, 1)
  {
    CutIsShortest(s);
    LongerHasTwoEnds(c, s);
    ShortestUnique(c, s[..SecondEnd(s)], s);
  }

  /** The marker, as text. */
  lemma MarkerIs(i: nat)
    requires i < |END|
    ensures |END| == 25 && END[i] == "-----END CERTIFICATE-----"[i] as int
  {
  }

  /** No acceptable chain is a proper prefix of another. */
  lemma AcceptablePrefix(c: bytes, k: nat, x: X509)
    requires Acceptable(c, x) && k < |c|
    ensures !Acceptable(c[..k], x)
  {
  }

  /** An upload succeeds exactly if its chain is kept and both certificates can be decoded for
      display; a chain that cannot be decoded is kept all the same. */
  lemma SuccessIff(s: bytes, x: X509)
    ensures ReturnCode(s, x) == OK <==>
            Kept(s, x).Some? && x.decode(Kept(s, x).value, 0) == OK && x.decode(Kept(s, x).value, 1) == OK
    ensures Kept(s, x) == None ==> ReturnCode(s, x) in {CHECK_1, CHECK_2, CHECK_3, CHECK_4, CHECK_5, ERR_SIZE}
  {
  }

  // ----- the same on the buffers

  /** A chain stored with its NUL in front of what the buffer held. */
  function Stored(buf: bytes, c: bytes): (r: bytes)
    requires |c| + 1 <= |buf|
    ensures |r| == |buf|
  {
    c + [0] + buf[|c| + 1..]
  }

  lemma StoredReads(buf: bytes, c: bytes)
    requires |c| + 1 <= |buf| && forall i :: 0 <= i < |c| ==> c[i] != 0
    ensures CStr(Stored(buf, c)) == c
  {
    StrLenIs(Stored(buf, c), |c|);
  }

  function AfterUpload(buf: bytes, s: bytes, x: X509): (r: bytes)
    requires |buf| == NEW_CRT_SIZE
    ensures |r| == |buf|
  {
    match Kept(s, x) case None => buf case Some(c) => Stored(buf, c)
  }

  class CertPage {
    const newCrt: array<byte>

    ghost predicate Valid() {
      newCrt.Length == NEW_CRT_SIZE
    }

    constructor ()
      ensures Valid() && fresh(newCrt) && CStr(newCrt[..]) == []
    {
      newCrt := new byte[NEW_CRT_SIZE](_ => 0);
      new;
      StrLenIs(newCrt[..], 0);
    }

    /** The upload buffer is cut in place. */
    method CheckNewChain(pCrt: array<byte>, x: X509) returns (rc: int)
      requires Valid() && 0 in pCrt[..] && pCrt != newCrt
      modifies pCrt, newCrt
      ensures rc == ReturnCode(old(CStr(pCrt[..])), x)
      ensures !TwoEnds(old(CStr(pCrt[..]))) ==> rc == -6
      ensures forall c :: ShortestWithTwoEnds(c, old(CStr(pCrt[..]))) ==>
                rc == if x.parse(c).rc != 0 then -7
                      else if |x.parse(c).ca| < 2 then -8
                      else if x.parse(c).ca[0] != 0 then -9
                      else if x.parse(c).ca[1] != 1 then -10
                      else if |c| + 1 >= 2048 then -12
                      else if x.decode(c, 0) != 0 then x.decode(c, 0)
                      else x.decode(c, 1)
      ensures newCrt[..] == AfterUpload(old(newCrt[..]), old(CStr(pCrt[..])), x)
    {
      hide Find, StrLen, Verdict;
      ghost var s := CStr(pCrt[..]);
      Codes(s, x);
      var len := StrLen(pCrt[..]);
      var pEnd := Find(CStr(pCrt[..]), END, 0);
      if pEnd == -1 || pEnd + END_SIZE >= len { return CHECK_1; }
      pEnd := Find(CStr(pCrt[..]), END, pEnd + END_SIZE);
      if pEnd == -1 { return CHECK_1; }
      pEnd := pEnd + END_SIZE;
      pCrt[pEnd] := 0;
      CutString(pCrt[..], s, pEnd);

      var crt := CStr(pCrt[..]);
      var parsed := x.parse(crt);
      rc := Verdict(parsed);
      if rc == OK {
        rc := Keep(crt, x);
      }
    }

    lemma Codes(s: bytes, x: X509)
      ensures !TwoEnds(s) ==> ReturnCode(s, x) == -6
      ensures forall c :: ShortestWithTwoEnds(c, s) ==>
                ReturnCode(s, x) ==
                if x.parse(c).rc != 0 then -7
                else if |x.parse(c).ca| < 2 then -8
                else if x.parse(c).ca[0] != 0 then -9
                else if x.parse(c).ca[1] != 1 then -10
                else if |c| + 1 >= 2048 then -12
                else if x.decode(c, 0) != 0 then x.decode(c, 0)
                else x.decode(c, 1)
    {
      CutIsShortest(s);
      forall c | ShortestWithTwoEnds(c, s) {
        CodeMeans(s, x, c);
      }
    }

    lemma CutString(now: bytes, s: bytes, r: nat)
      requires r <= |s| && r < |now| && now[..r] == s[..r] && now[r] == 0
      requires forall i :: 0 <= i < |s| ==> s[i] != 0
      ensures CStr(now) == s[..r]
    {
    }

    /** Stored first, decoded for display afterwards. */
    method Keep(crt: bytes, x: X509) returns (rc: int)
      requires Valid()
      modifies newCrt
      ensures if |crt| + 1 < NEW_CRT_SIZE then newCrt[..] == Stored(old(newCrt[..]), crt)
              else newCrt[..] == old(newCrt[..])
      ensures rc == if |crt| + 1 >= NEW_CRT_SIZE then ERR_SIZE
                    else if x.decode(crt, 0) != OK then x.decode(crt, 0) else x.decode(crt, 1)
    {
      if |crt| + 1 >= NEW_CRT_SIZE { return ERR_SIZE; }
      forall i | 0 <= i < |crt| + 1 {
        newCrt[i] := if i < |crt| then crt[i] else 0;
      }
      assert newCrt[..] == Stored(old(newCrt[..]), crt);
      rc := x.decode(crt, 0);
      if rc == OK {
        rc := x.decode(crt, 1);
      }
    }

    /** The "newcrt" request: an empty text is refused, anything else is converted and checked. */
    method NewCrt(pCrt: array<byte>, x: X509) returns (rc: int)
      requires Valid() && 0 in pCrt[..] && pCrt != newCrt
      modifies pCrt, newCrt
      ensures newCrt[..] == AfterRequest(old(newCrt[..]), old(CStr(pCrt[..])), x)
      ensures rc == if old(CStr(pCrt[..])) == [] then -5 else ReturnCode(CrLf(old(CStr(pCrt[..]))), x)
    {
      if pCrt[0] == 0 {
        StrLenIs(pCrt[..], 0);
        return ERR_CRT;
      }
      ghost var s, rest := CStr(pCrt[..]), pCrt[..][StrLen(pCrt[..])..];
      ConvertTextarea(pCrt);
      assert rest[0] == 0 && pCrt[..][|s|] == rest[0];
      rc := CheckNewChain(pCrt, x);
    }
  }

  /** What a request with text s leaves in the buffer. */
  function AfterRequest(buf: bytes, s: bytes, x: X509): (r: bytes)
    requires |buf| == NEW_CRT_SIZE
    ensures |r| == |buf|
  {
    if s == [] then buf else AfterUpload(buf, CrLf(s), x)
  }

  /** Over any request the buffer's string stays empty or acceptable. */
  lemma RequestKeepsAcceptable(buf: bytes, s: bytes, x: X509)
    requires |buf| == NEW_CRT_SIZE && (CStr(buf) == [] || Acceptable(CStr(buf), x))
    requires forall i :: 0 <= i < |s| ==> s[i] != 0
    ensures var b := AfterRequest(buf, s, x);
            |b| == NEW_CRT_SIZE && (CStr(b) == [] || Acceptable(CStr(b), x))
  {
    NoNulAppears(s);
    var t := CrLf(s);
    if s != [] && Kept(t, x).Some? {
      var c := Kept(t, x).value;
      KeptIff(t, x, c);
      StoredReads(buf, c);
    }
  }
}
