/** The boot loader's copy of the application image from the card to RAM. */
module Loader {
  import opened Bytes
  import opened AdlerSpec
  import opened Xbin

  const LOAD_BASE := 0x8000_0000
  const BUF_SIZE := 512

  /** A full read leaves one byte of the buffer for a terminating zero. */
  const CHUNK := BUF_SIZE - 1

  /** An open file on the card: a cursor over its bytes. The calls of `Read` are numbered from
      0, and those in `faults` report an error. */
  class File {
    const data: bytes
    const faults: set<nat>
    var pos: nat
    var calls: nat

    ghost predicate Valid()
      reads this
    {
      pos <= |data|
    }

    constructor (data: bytes, faults: set<nat>)
      ensures this.data == data && this.faults == faults
      ensures Valid() && pos == 0 && calls == 0
    {
      this.data, this.faults := data, faults;
      pos, calls := 0, 0;
    }

    /** After an error nothing is known of the destination. */
    method Read(dst: array<byte>, n: nat) returns (ok: bool, got: nat)
      requires Valid() && n <= dst.Length
      modifies this, dst
      ensures Valid() && calls == old(calls) + 1
      ensures ok <==> old(calls) !in faults
      ensures ok ==> got == Min(n, |data| - old(pos)) && pos == old(pos) + got
      ensures ok ==> dst[..] == data[old(pos)..pos] + old(dst[..])[got..]
    {
      ok, got := calls !in faults, 0;
      calls := calls + 1;
      if ok {
        got := Min(n, |data| - pos);
        forall i | 0 <= i < got {
          dst[i] := data[pos + i];
        }
        pos := pos + got;
      }
    }
  }

  // ----- what the copy leaves in RAM

  /** The number of reads of the copy loop: it stops at the first short one. */
  function Chunks(payload: bytes): nat {
    |payload| / CHUNK + 1
  }

  /** Byte x of the area written: the payload, one zero, and then what the buffer still held
      from one chunk earlier, or from before the copy. */
  function RamByte(payload: bytes, tmp0: bytes, x: nat): byte
    requires |tmp0| == BUF_SIZE && x < CHUNK * Chunks(payload)
  {
    if x < |payload| then payload[x]
    else if x == |payload| then 0
    else if CHUNK <= |payload| then payload[x - CHUNK]
    else tmp0[x]
  }

  function RamAfter(payload: bytes, tmp0: bytes, ram0: bytes): (r: bytes)
    requires |tmp0| == BUF_SIZE && CHUNK * Chunks(payload) <= |ram0|
    ensures |r| == |ram0|
  {
    seq(|ram0|, x requires 0 <= x < |ram0| =>
      if x < CHUNK * Chunks(payload) then RamByte(payload, tmp0, x) else ram0[x])
  }

  /** The buffer after a read of `chunk` into it and the terminating zero. */
  function Refilled(tmp: bytes, chunk: bytes): bytes
    requires |chunk| < |tmp|
  {
    chunk + [0] + tmp[|chunk| + 1..]
  }

  function Patched(ram: bytes, dest: nat, chunk: bytes): bytes
    requires dest + |chunk| <= |ram|
  {
    ram[..dest] + chunk + ram[dest + |chunk|..]
  }

  /** RAM with the first n bytes of the payload copied. */
  function Partial(payload: bytes, ram0: bytes, n: nat): bytes
    requires n <= |payload| && n <= |ram0|
  {
    payload[..n] + ram0[n..]
  }

  /** What the buffer holds when the chunk for `dest` is about to be read. */
  function Leftover(payload: bytes, tmp0: bytes, dest: nat): bytes
    requires |tmp0| == BUF_SIZE && dest <= |payload|
  {
    if dest < CHUNK then tmp0[..CHUNK] else payload[dest - CHUNK..dest]
  }

  lemma NextChunk(payload: bytes, tmp0: bytes, tmp1: bytes, ram0: bytes, dest: nat)
    requires |tmp0| == |tmp1| == BUF_SIZE && dest + CHUNK <= |payload| && dest + CHUNK <= |ram0|
    ensures Refilled(tmp1, payload[dest..dest + CHUNK])[..CHUNK] == payload[dest..dest + CHUNK]
         == Leftover(payload, tmp0, dest + CHUNK)
    ensures Patched(Partial(payload, ram0, dest), dest, payload[dest..dest + CHUNK])
         == Partial(payload, ram0, dest + CHUNK)
  {
  }

  lemma LastChunkByte(payload: bytes, tmp0: bytes, tmp1: bytes, dest: nat, x: nat)
    requires |tmp0| == |tmp1| == BUF_SIZE
    requires dest % CHUNK == 0 && dest <= |payload| < dest + CHUNK
    requires tmp1[..CHUNK] == Leftover(payload, tmp0, dest)
    requires dest <= x < dest + CHUNK
    ensures x < CHUNK * Chunks(payload)
    ensures Refilled(tmp1, payload[dest..])[x - dest] == RamByte(payload, tmp0, x)
  {
    ChunksAre(payload, dest);
    hide Chunks;
    var k, n := x - dest, |payload| - dest;
    if k < n {
      assert Refilled(tmp1, payload[dest..])[k] == payload[dest..][k];
    } else if k > n {
      assert Refilled(tmp1, payload[dest..])[k] == tmp1[k] == tmp1[..CHUNK][k];
    }
  }

  lemma LastChunk(payload: bytes, tmp0: bytes, tmp1: bytes, ram0: bytes, dest: nat)
    requires |tmp0| == |tmp1| == BUF_SIZE
    requires dest % CHUNK == 0 && dest <= |payload| < dest + CHUNK <= |ram0|
    requires tmp1[..CHUNK] == Leftover(payload, tmp0, dest)
    ensures Chunks(payload) * CHUNK == dest + CHUNK
    ensures Patched(Partial(payload, ram0, dest), dest, Refilled(tmp1, payload[dest..])[..CHUNK])
         == RamAfter(payload, tmp0, ram0)
  {
    hide RamAfter, RamByte, Leftover, Chunks;
    ChunksAre(payload, dest);
    var chunk: bytes := Refilled(tmp1, payload[dest..])[..CHUNK];
    var p, r := Patched(Partial(payload, ram0, dest), dest, chunk), RamAfter(payload, tmp0, ram0);
    forall x | 0 <= x < |ram0| ensures p[x] == r[x] {
      RamAfterAt(payload, tmp0, ram0, x);
      if x < dest {
        RamByteBefore(payload, tmp0, x);
        assert p[x] == payload[x];
      } else if x < dest + CHUNK {
        LastChunkByte(payload, tmp0, tmp1, dest, x);
        assert p[x] == chunk[x - dest];
      } else {
        assert p[x] == Partial(payload, ram0, dest)[x] == ram0[x];
      }
    }
  }

  /** The file and the payload move on together. */
  lemma ReadOn(data: bytes, p0: nat, payload: bytes, dest: nat, got: nat)
    requires p0 <= |data| && dest + got <= |payload| && data[p0..] == payload[dest..]
    ensures p0 + got <= |data|
    ensures data[p0..p0 + got] == payload[dest..dest + got]
    ensures data[p0 + got..] == payload[dest + got..]
    ensures dest + got == |payload| ==> payload[dest..dest + got] == payload[dest..]
  {
  }

  lemma ChunksAre(payload: bytes, dest: nat)
    requires dest % CHUNK == 0 && dest <= |payload| < dest + CHUNK
    ensures Chunks(payload) * CHUNK == dest + CHUNK
  {
  }

  lemma RamAfterAt(payload: bytes, tmp0: bytes, ram0: bytes, x: nat)
    requires |tmp0| == BUF_SIZE && CHUNK * Chunks(payload) <= |ram0| && x < |ram0|
    ensures RamAfter(payload, tmp0, ram0)[x] ==
            if x < CHUNK * Chunks(payload) then RamByte(payload, tmp0, x) else ram0[x]
  {
  }

  lemma RamByteBefore(payload: bytes, tmp0: bytes, x: nat)
    requires |tmp0| == BUF_SIZE && x < |payload| && x < CHUNK * Chunks(payload)
    ensures RamByte(payload, tmp0, x) == payload[x]
  {
  }

  // ----- the five ways out

  datatype Outcome =
    | NotOpened
    | BadHeader
    | ReadError(chunk: nat)   // the read of this chunk failed, the ones before were complete
    | BadImage
    | Loaded

  /** The header structure after the first read; a short file leaves the rest as it was. */
  function HeaderRead(data: bytes, xbin0: Header): Header {
    var m := Min(HEADER_SIZE, |data|);
    data[..m] + xbin0[m..]
  }

  function Payload(data: bytes): bytes {
    data[Min(HEADER_SIZE, |data|)..]
  }

  ghost predicate CopyFailsAt(faults: set<nat>, payload: bytes, c: nat) {
    c < Chunks(payload) && c + 1 in faults && forall b :: 1 <= b <= c ==> b !in faults
  }

  ghost predicate ReadsSucceed(faults: set<nat>, payload: bytes) {
    forall b :: 1 <= b <= Chunks(payload) ==> b !in faults
  }

  /** RAM is large enough for a file that will be copied, and for the size its header announces. */
  predicate RoomFor(data: bytes, xbin0: Header, ramSize: nat) {
    HeaderOk(HeaderRead(data, xbin0)) ==>
      CHUNK * Chunks(Payload(data)) <= ramSize && DataTotalSize(HeaderRead(data, xbin0)) <= ramSize
  }

  /** `o` is the outcome of a call on a file of this content, with these reads failing. */
  ghost predicate IsOutcome(o: Outcome, openOk: bool, data: bytes, faults: set<nat>,
                            xbin0: Header, tmp0: bytes, ram0: bytes)
    requires |tmp0| == BUF_SIZE && (openOk ==> RoomFor(data, xbin0, |ram0|))
  {
    var h, payload := HeaderRead(data, xbin0), Payload(data);
    if !openOk then o == NotOpened
    else if 0 in faults || !HeaderOk(h) then o == BadHeader
    else if !ReadsSucceed(faults, payload) then o.ReadError? && CopyFailsAt(faults, payload, o.chunk)
    else if DataOk(h, RamAfter(payload, tmp0, ram0)[..DataTotalSize(h)]) then o == Loaded
    else o == BadImage
  }

  class BootLoader {
    var entryPoint: u32
    const xbin: array<byte>
    const tmp: array<byte>
    const ram: array<byte>
    const noDivide: bool

    ghost predicate Valid()
      reads this
    {
      xbin.Length == HEADER_SIZE && tmp.Length == BUF_SIZE && xbin != tmp && xbin != ram && tmp != ram
    }

    constructor (ram: array<byte>, noDivide: bool)
      ensures Valid() && this.ram == ram && this.noDivide == noDivide && entryPoint == 0
      ensures fresh(xbin) && fresh(tmp)
    {
      entryPoint := 0;
      xbin := new byte[HEADER_SIZE](_ => 0);
      tmp := new byte[BUF_SIZE](_ => 0);
      this.ram := ram;
      this.noDivide := noDivide;
    }

    /** One round of the copy loop: a read, the terminating zero, and a whole chunk to RAM. */
    method CopyChunk(file: File, dest: nat) returns (ok: bool, got: nat)
      requires Valid() && file.Valid() && dest + CHUNK <= ram.Length
      modifies file, tmp, ram
      ensures file.Valid() && file.calls == old(file.calls) + 1
      ensures ok <==> old(file.calls) !in file.faults
      ensures !ok ==> ram[..] == old(ram[..])
      ensures ok ==> got == Min(CHUNK, |file.data| - old(file.pos)) && file.pos == old(file.pos) + got
      ensures ok ==> tmp[..] == Refilled(old(tmp[..]), file.data[old(file.pos)..file.pos])
      ensures ok ==> ram[..] == Patched(old(ram[..]), dest,
                                        Refilled(old(tmp[..]), file.data[old(file.pos)..file.pos])[..CHUNK])
    {
      ok, got := file.Read(tmp, CHUNK);
      if !ok {
        return;
      }
      tmp[got] := 0;
      assert tmp[..] == Refilled(old(tmp[..]), file.data[old(file.pos)..file.pos]);
      forall x | 0 <= x < CHUNK {
        ram[dest + x] := tmp[x];
      }
      assert ram[..] == Patched(old(ram[..]), dest, tmp[..CHUNK]);
    }

    /** What is true when the chunk for `dest` is about to be read. */
    ghost predicate Ready(file: File, payload: bytes, tmp0: bytes, ram0: bytes, dest: nat)
      requires Valid() && file.Valid() && |tmp0| == BUF_SIZE
      reads this, file, tmp, ram
    {
      dest <= |payload| && dest <= |ram0| == ram.Length && dest % CHUNK == 0 &&
      file.data[file.pos..] == payload[dest..] &&
      ram[..] == Partial(payload, ram0, dest) && tmp[..CHUNK] == Leftover(payload, tmp0, dest)
    }

    /** One round, as progress in the copy of the payload. */
    method CopyNext(file: File, ghost payload: bytes, ghost tmp0: bytes, ghost ram0: bytes, dest: nat)
      returns (ok: bool, got: nat)
      requires Valid() && file.Valid() && |tmp0| == BUF_SIZE
      requires Ready(file, payload, tmp0, ram0, dest) && dest + CHUNK <= ram.Length
      requires CHUNK * Chunks(payload) <= |ram0|
      modifies file, tmp, ram
      ensures file.Valid() && file.calls == old(file.calls) + 1
      ensures ok <==> old(file.calls) !in file.faults
      ensures !ok ==> ram[..] == Partial(payload, ram0, dest)
      ensures ok ==> got == Min(CHUNK, |payload| - dest)
      ensures ok && got == CHUNK ==> Ready(file, payload, tmp0, ram0, dest + CHUNK)
      ensures ok && got != CHUNK ==>
                CHUNK * Chunks(payload) == dest + CHUNK && ram[..] == RamAfter(payload, tmp0, ram0)
    {
      hide RamAfter, Leftover, Refilled, Patched, Chunks, Partial;
      ghost var tmp1, p0 := tmp[..], file.pos;
      assert tmp1[..CHUNK] == tmp[..CHUNK];
      ok, got := CopyChunk(file, dest);
      if ok {
        ReadOn(file.data, p0, payload, dest, got);
        if got == CHUNK {
          NextChunk(payload, tmp0, tmp1, ram0, dest);
          assert tmp[..CHUNK] == tmp[..][..CHUNK];
        } else {
          LastChunk(payload, tmp0, tmp1, ram0, dest);
        }
      }
    }

    /** The copy loop, from just behind the header. */
    method CopyPayload(file: File) returns (ok: bool, ghost failed: nat)
      requires Valid() && file.Valid() && file.calls == 1
      requires CHUNK * Chunks(file.data[file.pos..]) <= ram.Length
      modifies file, tmp, ram
      ensures ok <==> ReadsSucceed(file.faults, old(file.data[file.pos..]))
      ensures ok ==> ram[..] == RamAfter(old(file.data[file.pos..]), old(tmp[..]), old(ram[..]))
      ensures !ok ==> CopyFailsAt(file.faults, old(file.data[file.pos..]), failed)
      ensures !ok ==> ram[..] == Partial(old(file.data[file.pos..]), old(ram[..]), CHUNK * failed)
    {
      ghost var payload, tmp0, ram0 := file.data[file.pos..], tmp[..], ram[..];
      var dest, got := 0, CHUNK;
      failed := 0;
      assert tmp[..CHUNK] == tmp0[..CHUNK];
      while got == CHUNK
        invariant file.Valid() && file.calls == failed + 1
        invariant forall b :: 1 <= b <= failed ==> b !in file.faults
        invariant dest == CHUNK * failed
        invariant got == CHUNK ==> Ready(file, payload, tmp0, ram0, dest)
        invariant got != CHUNK ==> dest == CHUNK * Chunks(payload) && ram[..] == RamAfter(payload, tmp0, ram0)
        decreases if got == CHUNK then 1 + |payload| - dest else 0
      {
        ok, got := CopyNext(file, payload, tmp0, ram0, dest);
        if !ok {
          assert failed + 1 in file.faults;
          return;
        }
        dest := dest + CHUNK;
        failed := failed + 1;
      }
      ok := true;
    }

    /** Copies the image and checks it. */
    method ImageCopy(openOk: bool, file: File) returns (ret: nat, ghost outcome: Outcome)
      requires Valid() && file.Valid() && file.pos == 0 && file.calls == 0
      requires openOk ==> RoomFor(file.data, xbin[..], ram.Length)
      modifies this`entryPoint, file, xbin, tmp, ram
      ensures IsOutcome(outcome, openOk, file.data, file.faults, old(xbin[..]), old(tmp[..]), old(ram[..]))
      ensures ret == if outcome == Loaded then 1 else 0
      ensures match outcome
              case NotOpened => entryPoint == old(entryPoint)
              case BadHeader | BadImage => entryPoint == 0
              case ReadError(_) | Loaded => entryPoint == 0x8000_0000
      ensures ret == 0 && entryPoint != 0 <==>
              outcome.ReadError? || (outcome == NotOpened && old(entryPoint) != 0)
      ensures match outcome
              case NotOpened | BadHeader => ram[..] == old(ram[..])
              case ReadError(c) =>
                ram[..] == Partial(Payload(file.data), old(ram[..]), 511 * c)
              case BadImage | Loaded =>
                ram[..] == RamAfter(Payload(file.data), old(tmp[..]), old(ram[..]))
    {
      hide RamAfter, HeaderOk, Chunks, ReadsSucceed, Partial;
      if !openOk {
        return 0, NotOpened;
      }
      entryPoint := LOAD_BASE;
      var ok, got := file.Read(xbin, HEADER_SIZE);
      if ok {
        assert xbin[0..HEADER_SIZE] == xbin[..] == HeaderRead(file.data, old(xbin[..]));
        ok := CheckHeader(xbin, 0, noDivide);
      }
      if !ok {
        entryPoint := 0;
        return 0, BadHeader;
      }
      ghost var h := HeaderRead(file.data, old(xbin[..]));
      ghost var failed;
      ok, failed := CopyPayload(file);
      if !ok {
        return 0, ReadError(failed);
      }
      assert xbin[..] == h;
      var size := DataTotalSize(xbin[..]);
      var crc := Checksum(ram, 0, size, noDivide);
      assert ram[0..size] == ram[..][..size];
      if crc != DataCrc(xbin[..]) {
        entryPoint := 0;
        return 0, BadImage;
      }
      return 1, Loaded;
    }
  }

  // ----- consequences

  /** After a copy that was not cut short, RAM starts with `d`. */
  ghost predicate RamHolds(data: bytes, xbin0: Header, tmp0: bytes, ram0: bytes, d: bytes)
    requires |tmp0| == BUF_SIZE && RoomFor(data, xbin0, |ram0|)
  {
    HeaderOk(HeaderRead(data, xbin0)) && d <= RamAfter(Payload(data), tmp0, ram0)
  }

  /** The outcome is determined by the file, the faults and the buffers before the call. */
  lemma OutcomeUnique(o: Outcome, o': Outcome, openOk: bool, data: bytes, faults: set<nat>,
                      xbin0: Header, tmp0: bytes, ram0: bytes)
    requires |tmp0| == BUF_SIZE && (openOk ==> RoomFor(data, xbin0, |ram0|))
    requires IsOutcome(o, openOk, data, faults, xbin0, tmp0, ram0)
    requires IsOutcome(o', openOk, data, faults, xbin0, tmp0, ram0)
    ensures o == o'
  {
  }

  /** A failed first read of the copy is an outcome of any file with a good header; the call then
      returns 0 and leaves the entry point set. */
  lemma ReadErrorHappens(data: bytes, xbin0: Header, tmp0: bytes, ram0: bytes)
    requires |tmp0| == BUF_SIZE && RoomFor(data, xbin0, |ram0|) && HeaderOk(HeaderRead(data, xbin0))
    ensures IsOutcome(ReadError(0), true, data, {1}, xbin0, tmp0, ram0)
  {
    assert 1 in {1} && 1 <= Chunks(Payload(data));
  }

  /** RAM behind a copied payload: the payload in order, a zero, and up to the end of the last
      chunk the bytes from one chunk earlier (or the buffer's, if there was no earlier chunk). */
  lemma RamHoldsPayload(payload: bytes, tmp0: bytes, ram0: bytes)
    requires |tmp0| == BUF_SIZE && CHUNK * Chunks(payload) <= |ram0|
    ensures RamAfter(payload, tmp0, ram0)[..|payload|] == payload
    ensures Chunks(payload) == |payload| / 511 + 1 && CHUNK == 511
    ensures |payload| < CHUNK * Chunks(payload) <= |payload| + CHUNK
    ensures RamAfter(payload, tmp0, ram0)[|payload|] == 0
    ensures forall x :: |payload| < x < CHUNK * Chunks(payload) ==>
              RamAfter(payload, tmp0, ram0)[x] ==
              if CHUNK <= |payload| then RamAfter(payload, tmp0, ram0)[x - CHUNK] else tmp0[x]
    ensures RamAfter(payload, tmp0, ram0)[CHUNK * Chunks(payload)..] == ram0[CHUNK * Chunks(payload)..]
  {
  }

  /** What a loaded image has been checked for. */
  lemma LoadedMeans(data: bytes, faults: set<nat>, xbin0: Header, tmp0: bytes, ram0: bytes)
    requires |tmp0| == BUF_SIZE && RoomFor(data, xbin0, |ram0|)
    requires IsOutcome(Loaded, true, data, faults, xbin0, tmp0, ram0)
    ensures HeaderOk(HeaderRead(data, xbin0))
    ensures var h := HeaderRead(data, xbin0);
            DataTotalSize(h) <= |Payload(data)| ==> DataOk(h, Payload(data)[..DataTotalSize(h)])
  {
    var h, payload := HeaderRead(data, xbin0), Payload(data);
    if DataTotalSize(h) <= |payload| {
      RamHoldsPayload(payload, tmp0, ram0);
      assert RamAfter(payload, tmp0, ram0)[..DataTotalSize(h)]
          == RamAfter(payload, tmp0, ram0)[..|payload|][..DataTotalSize(h)];
    }
  }

  /** A file whose first 256 bytes are not a header of this version ends with entry point 0 (outcome
      BadHeader), however it is sealed, and so does one whose header checksum is wrong. */
  lemma OtherHeaderRefused(data: bytes, o: Outcome, faults: set<nat>, xbin0: Header, tmp0: bytes, ram0: bytes)
    requires HEADER_SIZE <= |data| && |tmp0| == BUF_SIZE && RoomFor(data, xbin0, |ram0|)
    requires IsOutcome(o, true, data, faults, xbin0, tmp0, ram0)
    ensures o != BadHeader ==>
              data[0..4] == [0x78, 0x62, 0x69, 0x6E] && data[4..8] == [0x78, 0x62, 0x69, 0x6E] &&
              data[8..12] == [3, 0, 0, 1] && Rfc1950(1, data[..252]) == Le32(data, 252)
  {
    hide HeaderOk, DataOk, RoomFor, RamAfter, Rfc1950;
    var h := HeaderRead(data, xbin0);
    assert h == data[..HEADER_SIZE] && h[..252] == data[..252];
    assert h[0..4] == data[0..4] && h[4..8] == data[4..8] && h[8..12] == data[8..12];
    HeaderOkIff(h);
  }

  /** A loadable file with one or two bytes of its header changed ends with entry point 0
      (outcome BadHeader), whatever else happens. */
  lemma CorruptHeaderRefused(data: bytes, i: nat, v: byte, j: nat, w: byte, o: Outcome, faults: set<nat>,
                             xbin0: Header, xbin1: Header, tmp0: bytes, ram0: bytes)
    requires HEADER_SIZE <= |data| && HeaderOk(HeaderRead(data, xbin0))
    requires i < j < HEADER_SIZE && (v != data[i] || w != data[j])
    requires |tmp0| == BUF_SIZE && RoomFor(data[i := v][j := w], xbin1, |ram0|)
    requires IsOutcome(o, true, data[i := v][j := w], faults, xbin1, tmp0, ram0)
    ensures o == BadHeader
  {
    var h := HeaderRead(data, xbin0);
    HeaderCorruptionRejected(h, i, v, j, w);
    assert HeaderRead(data[i := v][j := w], xbin1) == h[i := v][j := w];
  }

  /** A loadable file with one or two nearby bytes of the checked image changed is never loaded,
      and if the reads succeed it ends with entry point 0 (outcome BadImage). */
  lemma CorruptImageRefused(data: bytes, i: nat, v: byte, j: nat, w: byte, o: Outcome, faults: set<nat>,
                            xbin0: Header, tmp0: bytes, tmp1: bytes, ram0: bytes, ram1: bytes)
    requires HEADER_SIZE <= |data|
    requires |tmp0| == |tmp1| == BUF_SIZE
    requires RoomFor(data, xbin0, |ram0|) && IsOutcome(Loaded, true, data, {}, xbin0, tmp0, ram0)
    requires DataTotalSize(HeaderRead(data, xbin0)) <= |Payload(data)|
    requires HEADER_SIZE <= i < j < HEADER_SIZE + DataTotalSize(HeaderRead(data, xbin0))
    requires j - i < BASE && (v != data[i] || w != data[j])
    requires RoomFor(data[i := v][j := w], xbin0, |ram1|)
    requires IsOutcome(o, true, data[i := v][j := w], faults, xbin0, tmp1, ram1)
    ensures o != Loaded
    ensures faults == {} ==> o == BadImage
  {
    var data', h := data[i := v][j := w], HeaderRead(data, xbin0);
    var n := DataTotalSize(h);
    var d: bytes := Payload(data)[..n];
    LoadedMeans(data, {}, xbin0, tmp0, ram0);
    assert HeaderRead(data', xbin0) == h;
    assert Payload(data')[..n] == d[i - HEADER_SIZE := v][j - HEADER_SIZE := w];
    NearbyPairDetected(ADLER_START, d, i - HEADER_SIZE, v, j - HEADER_SIZE, w);
    if o == Loaded {
      LoadedMeans(data', faults, xbin0, tmp1, ram1);
    }
  }
}
