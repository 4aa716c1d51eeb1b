/** The chunked loops that move an image between a buffer and a file. */
module Transfer {
  import opened Bytes

  const CHUNK := 4096

  const ERROR_SD := 4

  /** A file open for reading. The k-th read returns no more than `give(k)` bytes, and none at
      all if k is in `stalls`; otherwise it returns at least one while there are some. */
  class Source {
    const data: bytes
    const give: nat -> nat
    const stalls: set<nat>
    var pos: nat
    var calls: nat

    ghost predicate Valid()
      reads this
    {
      pos <= |data| && forall k :: give(k) >= 1
    }

    constructor (data: bytes, give: nat -> nat, stalls: set<nat>)
      requires forall k :: give(k) >= 1
      ensures Valid() && this.data == data && this.give == give && this.stalls == stalls
      ensures pos == 0 && calls == 0
    {
      this.data, this.give, this.stalls, pos, calls := data, give, stalls, 0, 0;
    }

    /** The stalls still to come. */
    ghost function Ahead(): set<nat>
      reads this
    {
      set k | k in stalls && calls <= k
    }

    /** The bytes the next read delivers, of at most n. */
    method Read(n: nat) returns (chunk: bytes)
      requires Valid()
      modifies this
      ensures Valid() && |chunk| <= n && pos == old(pos) + |chunk|
      ensures chunk == data[old(pos)..pos]
      ensures n > 0 && old(pos) < |data| && chunk == [] ==> |Ahead()| < |old(Ahead())|
    {
      var got := if calls in stalls then 0 else Min(Min(n, |data| - pos), give(calls));
      ghost var ahead := Ahead();
      calls := calls + 1;
      chunk := data[pos..pos + got];
      pos := pos + got;
      if calls - 1 in stalls {
        assert ahead == Ahead() + {calls - 1};
      }
    }
  }

  /** A buffer after a read has put a chunk at an index. */
  function Filled(buf: bytes, index: nat, chunk: bytes): (r: bytes)
    requires index + |chunk| <= |buf|
    ensures |r| == |buf|
  {
    buf[..index] + chunk + buf[index + |chunk|..]
  }

  /** A chunk extends the part of a file that a buffer holds. */
  lemma FilledExtends(buf: bytes, file: bytes, index: nat, chunk: bytes)
    requires |buf| == |file| && index + |chunk| <= |file|
    requires buf[..index] == file[..index] && chunk == file[index..index + |chunk|]
    ensures Filled(buf, index, chunk)[..index + |chunk|] == file[..index + |chunk|]
  {
    assert file[..index + |chunk|] == file[..index] + file[index..index + |chunk|];
  }

  // ----- reads that fail

  /** The loop's variables, the file's position, and how many rounds there were and how many of
      their reads failed. A failing read returns -1, which the code takes for a number of bytes. */
  datatype Loop = Loop(pos: nat, index: u32, size: u32, rounds: nat, failed: nat)

  datatype Returned = Got(n: nat) | Failed

  function Round(l: Loop, r: Returned, length: nat): Loop {
    match r
    case Got(n) =>
      var got := Min(Min(n, Min(l.size, CHUNK)), if l.pos <= length then length - l.pos else 0);
      Loop(l.pos + got, (l.index + got) % WORD, l.size - got, l.rounds + 1, l.failed)
    case Failed => Loop(l.pos, (l.index + WORD - 1) % WORD, (l.size + 1) % WORD, l.rounds + 1, l.failed + 1)
  }

  /** The first round is always run; the loop ends after a round that leaves no size. */
  predicate Over(l: Loop) {
    l.rounds > 0 && l.size == 0
  }

  function Rounds(l: Loop, rs: seq<Returned>, length: nat): Loop
    decreases |rs|
  {
    if rs == [] || Over(l) then l else Rounds(Round(l, rs[0], length), rs[1..], length)
  }

  /** Modulo 2^32, the size still to read is what is missing plus one for each failed read, and
      the index is that much too low. */
  ghost predicate SizeRight(l: Loop, length: nat) {
    l.pos <= length && l.size == (length - l.pos + l.failed) % WORD && l.index == (l.pos - l.failed) % WORD
  }

  lemma RoundKeepsSize(l: Loop, r: Returned, length: nat)
    requires SizeRight(l, length)
    ensures SizeRight(Round(l, r, length), length)
  {
    if r.Failed? {
      ModShift(length - l.pos + l.failed, 1);
      ModShift(l.pos - l.failed, WORD - 1);
      ModMultiple(l.pos - l.failed - 1, 1);
    } else {
      var got := Round(l, r, length).pos - l.pos;
      ModShift(length - l.pos + l.failed, -got);
      ModShift(l.pos - l.failed, got);
      assert 0 <= l.size - got < WORD;
      ModSmall(l.size - got);
    }
  }

  lemma {:induction false} SizeCountsFailures(l: Loop, rs: seq<Returned>, length: nat)
    requires SizeRight(l, length)
    ensures SizeRight(Rounds(l, rs, length), length)
    decreases |rs|
  {
    if rs != [] && !Over(l) {
      RoundKeepsSize(l, rs[0], length);
      SizeCountsFailures(Round(l, rs[0], length), rs[1..], length);
    }
  }

  lemma ModShift(a: int, b: int)
    ensures (a % WORD + b) % WORD == (a + b) % WORD
  {
    assert a == WORD * (a / WORD) + a % WORD;
    ModMultiple(a % WORD + b, a / WORD);
  }

  lemma ModMultiple(a: int, k: int)
    ensures (a + WORD * k) % WORD == a % WORD
  {
    assert (a + WORD * k) - WORD * ((a + WORD * k) / WORD) == a - WORD * ((a + WORD * k) / WORD - k);
  }

  lemma ModSmall(a: int)
    requires 0 <= a < WORD
    ensures a % WORD == a
  {
  }

  /** Over any number of reads of a file, ReadBuffer's loop has ended if and only if there was a
      read, and what is missing of the file plus the number of failed reads is a multiple of
      2^32: below that many failures, if and only if the file is read and no read failed. */
  lemma LoopEndsIff(length: u32, rs: seq<Returned>)
    ensures var l := Rounds(Loop(0, 0, length, 0, 0), rs, length);
            l.pos <= length &&
            (Over(l) <==> rs != [] && (length - l.pos + l.failed) % WORD == 0) &&
            (l.failed + length < WORD ==> (Over(l) <==> rs != [] && l.failed == 0 && l.pos == length))
  {
    var start := Loop(0, 0, length, 0, 0);
    SizeCountsFailures(start, rs, length);
    RoundsCount(start, rs, length);
    var l := Rounds(start, rs, length);
    if l.failed + length < WORD {
      ModSmall(length - l.pos + l.failed);
    }
  }

  lemma {:induction false} RoundsCount(l: Loop, rs: seq<Returned>, length: nat)
    ensures Rounds(l, rs, length).rounds >= l.rounds
    ensures rs != [] && l.rounds == 0 ==> Rounds(l, rs, length).rounds > 0
    ensures rs == [] ==> Rounds(l, rs, length) == l
    decreases |rs|
  {
    if rs != [] && !Over(l) {
      RoundsCount(Round(l, rs[0], length), rs[1..], length);
    }
  }

  /** A file open for writing. The calls in `faults` do not write all they were given: at most
      `part(k)` bytes in the k-th. */
  class Sink {
    const faults: set<nat>
    const part: nat -> nat
    var data: bytes
    var calls: nat

    constructor (faults: set<nat>, part: nat -> nat)
      ensures this.faults == faults && this.part == part && data == [] && calls == 0
    {
      this.faults, this.part, data, calls := faults, part, [], 0;
    }

    method Write(chunk: bytes) returns (full: bool)
      modifies this
      ensures calls == old(calls) + 1
      ensures full <==> old(calls) !in faults
      ensures data == old(data) + if full then chunk else chunk[..Min(part(old(calls)), |chunk|)]
    {
      full := calls !in faults;
      data := data + if full then chunk else chunk[..Min(part(calls), |chunk|)];
      calls := calls + 1;
    }
  }

  /** The number of writes for n bytes. */
  function Writes(n: nat): nat {
    (n + CHUNK - 1) / CHUNK
  }

  predicate AllWritten(faults: set<nat>, n: nat) {
    forall k :: 0 <= k < Writes(n) ==> k !in faults
  }

  lemma AllWrittenIff(faults: set<nat>, n: nat)
    ensures AllWritten(faults, n) <==> forall k: nat :: k < (n + 4095) / 4096 ==> k !in faults
  {
    assert Writes(n) == (n + 4095) / 4096;
  }

  /** Writes the first size0 bytes of a buffer; the first write that is not full ends it, and the
      file then holds some first part of them. */
  method WriteAll(fd: Sink, buf: array<byte>, size0: u32) returns (nErr: nat)
    requires fd.data == [] && fd.calls == 0 && size0 <= buf.Length
    modifies fd
    ensures nErr in {0, 4}
    ensures nErr == 0 <==> AllWritten(fd.faults, size0)
    ensures nErr == 0 <==> forall k: nat :: k < (size0 + 4095) / 4096 ==> k !in fd.faults
    ensures fd.data <= buf[..size0] && (nErr == 0 ==> fd.data == buf[..size0])
  {
    AllWrittenIff(fd.faults, size0);
    nErr := 0;
    var p: nat, size: nat := 0, size0;
    while size > 0
      invariant p + size == size0 && p <= buf.Length
      invariant fd.data == buf[..p]
      invariant Writes(size0) == fd.calls + Writes(size)
      invariant forall k :: 0 <= k < fd.calls ==> k !in fd.faults
    {
      var writeSize := Min(size, CHUNK);
      var full := fd.Write(buf[p..p + writeSize]);
      if !full {
        assert fd.calls - 1 in fd.faults;
        return ERROR_SD;
      }
      assert buf[..p + writeSize] == buf[..p] + buf[p..p + writeSize];
      p := p + writeSize;
      size := size - writeSize;
    }
  }
}
