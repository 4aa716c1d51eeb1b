/** Installing an uploaded firmware image, and the way of an image from the upload over the
    card into RAM. */
module FwInstall {
  import opened Bytes
  import opened AdlerSpec
  import opened Xbin
  import Loader

  /** A file that is a complete image: header, and all the data it announces. */
  predicate ValidImage(f: bytes) {
    HEADER_SIZE <= |f| && HeaderOk(f[..HEADER_SIZE]) &&
    |f| >= HEADER_SIZE + DataTotalSize(f[..HEADER_SIZE]) &&
    DataOk(f[..HEADER_SIZE], f[HEADER_SIZE..HEADER_SIZE + DataTotalSize(f[..HEADER_SIZE])])
  }

  /** The part of the file that the header accounts for. */
  function ImagePart(f: bytes): bytes
    requires ValidImage(f)
  {
    f[..HEADER_SIZE + DataTotalSize(f[..HEADER_SIZE])]
  }

  /** A valid image and its part that the header accounts for, in the file's bytes. */
  lemma ValidImageMeans(f: bytes)
    ensures ValidImage(f) <==>
            256 <= |f| && f[0..4] == [0x78, 0x62, 0x69, 0x6E] && f[4..8] == [0x78, 0x62, 0x69, 0x6E] &&
            f[8..12] == [3, 0, 0, 1] && Rfc1950(1, f[..252]) == Le32(f, 252) &&
            256 + Le32(f, 16) <= |f| && Rfc1950(1, f[256..256 + Le32(f, 16)]) == Le32(f, 28)
    ensures ValidImage(f) ==> ImagePart(f) == f[..256 + Le32(f, 16)]
  {
    if 256 <= |f| {
      var h: Header := f[..256];
      assert h[0..4] == f[0..4] && h[4..8] == f[4..8] && h[8..12] == f[8..12] && h[..252] == f[..252];
      assert Le32(h, 252) == Le32(f, 252) && Le32(h, 16) == Le32(f, 16) && Le32(h, 28) == Le32(f, 28);
      hide Rfc1950;
      HeaderOkIff(h);
    }
  }

  // ----- every data has a valid image

  function Zeros(n: nat): (r: bytes)
    ensures |r| == n
  {
    seq(n, _ => 0)
  }

  /** The fields of XBIN_HEADER in order, up to its checksum. */
  function Fields(name: bytes, version: u32, data: bytes): (r: bytes)
    requires |name| == NAME_SIZE && |data| < WORD
    ensures |r| == COVERED
  {
    Le32Bytes(MAGIC) + Le32Bytes(MAGIC) + Le32Bytes(SIZE_VERSION) + Zeros(4) + Le32Bytes(|data|) + Zeros(8) +
    Le32Bytes(Rfc1950(ADLER_START, data)) + name + Le32Bytes(version) + Zeros(196)
  }

  function Sealed(name: bytes, version: u32, data: bytes): bytes
    requires |name| == NAME_SIZE && |data| < WORD
  {
    var f := Fields(name, version, data);
    f + Le32Bytes(Rfc1950(ADLER_START, f)) + data
  }

  lemma FieldsAre(name: bytes, version: u32, data: bytes)
    requires |name| == NAME_SIZE && |data| < WORD
    ensures var f := Fields(name, version, data);
            Le32(f, 0) == MAGIC && Le32(f, 4) == MAGIC && Le32(f, 8) == SIZE_VERSION && Le32(f, 16) == |data| &&
            Le32(f, 28) == Rfc1950(ADLER_START, data) && f[32..52] == name && Le32(f, 52) == version
  {
    hide Rfc1950;
    var f := Fields(name, version, data);
    assert f[0..4] == f[4..8] == Le32Bytes(MAGIC) && f[8..12] == Le32Bytes(SIZE_VERSION);
    assert f[16..20] == Le32Bytes(|data|) && f[28..32] == Le32Bytes(Rfc1950(ADLER_START, data));
    assert f[52..56] == Le32Bytes(version);
    Le32OfBytes(f, 0, MAGIC);
    Le32OfBytes(f, 4, MAGIC);
    Le32OfBytes(f, 8, SIZE_VERSION);
    Le32OfBytes(f, 16, |data|);
    Le32OfBytes(f, 28, Rfc1950(ADLER_START, data));
    Le32OfBytes(f, 52, version);
  }

  /** Whatever the name, the version and the data: with the right sizes and checksums in its header
      they make a valid image, which has exactly this name, version and data. */
  lemma SealedIsValid(name: bytes, version: u32, data: bytes)
    requires |name| == NAME_SIZE && |data| < WORD
    ensures var f := Sealed(name, version, data);
            ValidImage(f) && ImagePart(f) == f && f[HEADER_SIZE..] == data &&
            DataName(f[..HEADER_SIZE]) == name && DataVersion(f[..HEADER_SIZE]) == version
  {
    hide Rfc1950, Fields;
    var h, f := Fields(name, version, data), Sealed(name, version, data);
    var header: Header := h + Le32Bytes(Rfc1950(ADLER_START, h));
    FieldsAre(name, version, data);
    assert f[..HEADER_SIZE] == header && header[..COVERED] == h;
    assert f[HEADER_SIZE..HEADER_SIZE + |data|] == f[HEADER_SIZE..] == data;
    assert header[COVERED..COVERED + 4] == Le32Bytes(Rfc1950(ADLER_START, h));
    Le32OfBytes(header, COVERED, Rfc1950(ADLER_START, h));
    assert DataName(header) == h[32..52];
    assert DataVersion(header) == Le32(h, 52);
    assert DataTotalSize(header) == Le32(h, 16) && DataCrc(header) == Le32(h, 28);
    assert Le32(header, 0) == Le32(h, 0) && Le32(header, 4) == Le32(h, 4) && Le32(header, 8) == Le32(h, 8);
  }

  // ----- the check of a file

  /** What reading n bytes behind the header puts in front of a buffer; a short file leaves the
      rest of it as it was. */
  function DataRead(f: bytes, buf: bytes, n: nat): (r: bytes)
    requires n <= |buf|
    ensures |r| == n
  {
    var p := Loader.Payload(f);
    p[..Min(n, |p|)] + buf[Min(n, |p|)..n]
  }

  /** The header structure is static: a short file leaves the rest of it as it was. */
  method ReadHeader(f: bytes, xbin: array<byte>)
    requires xbin.Length == HEADER_SIZE
    modifies xbin
    ensures xbin[..] == Loader.HeaderRead(f, old(xbin[..]))
  {
    forall i | 0 <= i < Min(HEADER_SIZE, |f|) {
      xbin[i] := f[i];
    }
  }

  method ReadData(f: bytes, buf: array<byte>, n: nat)
    requires n <= buf.Length
    modifies buf
    ensures buf[..n] == DataRead(f, old(buf[..]), n)
  {
    var from := Min(HEADER_SIZE, |f|);
    forall i | 0 <= i < Min(n, |f| - from) {
      buf[i] := f[from + i];
    }
  }

  /** Read over what structure and buffer held, header and data have the right checksums. */
  predicate Passes(f: bytes, xbin0: Header, buf: bytes)
    requires Fits(f, xbin0, |buf|)
  {
    var h := Loader.HeaderRead(f, xbin0);
    HeaderOk(h) && DataOk(h, DataRead(f, buf, DataTotalSize(h)))
  }

  /** The data announced by a good header does not exceed a buffer of `room` bytes. */
  predicate Fits(f: bytes, xbin0: Header, room: nat) {
    var h := Loader.HeaderRead(f, xbin0);
    HeaderOk(h) ==> DataTotalSize(h) <= room
  }

  /** The data behind a good header in `xbin`, read into `buf`, against the header's checksum. */
  method CheckData(f: bytes, xbin: array<byte>, buf: array<byte>, noDivide: bool) returns (ok: bool)
    requires xbin.Length == HEADER_SIZE && xbin != buf && DataTotalSize(xbin[..]) <= buf.Length
    modifies buf
    ensures var h: Header := xbin[..];
            buf[..DataTotalSize(h)] == DataRead(f, old(buf[..]), DataTotalSize(h)) &&
            (ok <==> DataOk(h, DataRead(f, old(buf[..]), DataTotalSize(h))))
  {
    var h: Header := xbin[..];
    var n := DataTotalSize(h);
    ReadData(f, buf, n);
    var crc := Checksum(buf, 0, n, noDivide);
    assert buf[0..n] == buf[..n];
    ok := crc == DataCrc(h);
    assert xbin[..] == h;
  }

  /** The header into `xbin`, and its magics, version and checksum. */
  method CheckFileHeader(f: bytes, xbin: array<byte>, noDivide: bool) returns (ok: bool)
    requires xbin.Length == HEADER_SIZE
    modifies xbin
    ensures xbin[..] == Loader.HeaderRead(f, old(xbin[..]))
    ensures ok <==> HeaderOk(Loader.HeaderRead(f, old(xbin[..])))
  {
    ReadHeader(f, xbin);
    assert xbin[0..HEADER_SIZE] == xbin[..];
    ok := CheckHeader(xbin, 0, noDivide);
  }

  /** The check of a file that is open: header, then data into `buf`. */
  method CheckFile(f: bytes, xbin: array<byte>, buf: array<byte>, noDivide: bool) returns (ok: bool)
    requires xbin.Length == HEADER_SIZE && xbin != buf && Fits(f, xbin[..], buf.Length)
    modifies xbin, buf
    ensures ok <==> Passes(f, old(xbin[..]), old(buf[..]))
  {
    ok := CheckFileHeader(f, xbin, noDivide);
    if ok {
      ok := CheckData(f, xbin, buf, noDivide);
    }
  }

  /** A file that is as long as its header, and, if that is good, as the data it announces. */
  predicate Complete(f: bytes) {
    HEADER_SIZE <= |f| &&
    (HeaderOk(f[..HEADER_SIZE]) ==> HEADER_SIZE + DataTotalSize(f[..HEADER_SIZE]) <= |f|)
  }

  /** For a complete file the check does not depend on what structure and buffer held. */
  lemma CompletePassesIff(f: bytes, xbin0: Header, buf: bytes)
    requires Complete(f) && Fits(f, xbin0, |buf|)
    ensures Loader.HeaderRead(f, xbin0) == f[..HEADER_SIZE]
    ensures Passes(f, xbin0, buf) <==> ValidImage(f)
    ensures ValidImage(f) ==> var n := DataTotalSize(f[..HEADER_SIZE]);
                              DataRead(f, buf, n) == f[HEADER_SIZE..HEADER_SIZE + n]
  {
    hide HeaderOk, DataOk;
    var h := Loader.HeaderRead(f, xbin0);
    assert h == f[..HEADER_SIZE];
    if HeaderOk(h) {
      var n := DataTotalSize(h);
      assert Loader.Payload(f)[..n] == f[HEADER_SIZE..HEADER_SIZE + n];
      assert DataRead(f, buf, n) == f[HEADER_SIZE..HEADER_SIZE + n];
    }
  }

  /** The content of a new heap block of n bytes. */
  function Fresh(heap: nat -> byte, n: nat): bytes {
    seq(n, i requires 0 <= i => heap(i))
  }

  /** The slot's file opens, its header is good, there is memory for its data, and the data is
      good. */
  predicate SlotPasses(slot: Option<bytes>, xbin0: Header, allocOk: bool, heap: nat -> byte) {
    slot.Some? && allocOk &&
    var n := DataTotalSize(Loader.HeaderRead(slot.value, xbin0));
    Passes(slot.value, xbin0, Fresh(heap, n))
  }

  /** The header and the data that are read from a slot. */
  function SlotHeader(slot: bytes, xbin0: Header): Header {
    Loader.HeaderRead(slot, xbin0)
  }

  function SlotData(slot: bytes, xbin0: Header, heap: nat -> byte): bytes {
    var n := DataTotalSize(SlotHeader(slot, xbin0));
    DataRead(slot, Fresh(heap, n), n)
  }

  // ----- the copy

  /** How the copy's file operations go: whether firmware.bin opens for writing, how many bytes of
      header and data the two writes put into it (their results are not looked at), and how many
      bytes reading it back delivers, if it opens for that. */
  datatype Target = Target(opens: bool, wrote: nat, back: Option<nat>)

  /** What the slot is to become: the header and the data read from it. */
  function SlotImage(slot: bytes, xbin0: Header, heap: nat -> byte): bytes {
    SlotHeader(slot, xbin0) + SlotData(slot, xbin0, heap)
  }

  function FirstBytes(f: bytes, n: nat): bytes {
    f[..Min(n, |f|)]
  }

  /** firmware.bin after xbin_Copy. */
  function Installed(slot: Option<bytes>, xbin0: Header, allocOk: bool, heap: nat -> byte,
                     firmware0: Option<bytes>, t: Target): Option<bytes> {
    if SlotPasses(slot, xbin0, allocOk, heap) && t.opens
    then Some(FirstBytes(SlotImage(slot.value, xbin0, heap), t.wrote))
    else firmware0
  }

  /** If the target does not open for writing, an old firmware.bin is read into the block: the data
      it announces behind a good header must fit. */
  predicate OldFits(slot: Option<bytes>, xbin0: Header, allocOk: bool, heap: nat -> byte,
                    firmware0: Option<bytes>, t: Target) {
    SlotPasses(slot, xbin0, allocOk, heap) && !t.opens && firmware0.Some? && t.back.Some? ==>
      Fits(FirstBytes(firmware0.value, t.back.value), SlotHeader(slot.value, xbin0),
           |SlotData(slot.value, xbin0, heap)|)
  }

  /** xbin_Copy returns 0: what is read back of a file just written always passes; what is read of
      an old one has to, over the slot's header and data. */
  predicate CopyOk(slot: Option<bytes>, xbin0: Header, allocOk: bool, heap: nat -> byte,
                   firmware0: Option<bytes>, t: Target)
    requires OldFits(slot, xbin0, allocOk, heap, firmware0, t)
  {
    SlotPasses(slot, xbin0, allocOk, heap) && t.back.Some? &&
    (t.opens ||
     (firmware0.Some? &&
      Passes(FirstBytes(firmware0.value, t.back.value), SlotHeader(slot.value, xbin0),
             SlotData(slot.value, xbin0, heap))))
  }

  /** xbin_Copy: the slot's image is checked and written as firmware.bin, and whatever is in
      firmware.bin then is read back, over the header and the data that are in memory. */
  method XbinCopy(slot: Option<bytes>, xbin: array<byte>, allocOk: bool, heap: nat -> byte,
                  firmware0: Option<bytes>, t: Target, noDivide: bool)
    returns (nErr: int, firmware: Option<bytes>)
    requires xbin.Length == HEADER_SIZE
    requires OldFits(slot, xbin[..], allocOk, heap, firmware0, t)
    modifies xbin
    ensures firmware == Installed(slot, old(xbin[..]), allocOk, heap, firmware0, t)
    ensures nErr == if CopyOk(slot, old(xbin[..]), allocOk, heap, firmware0, t) then 0 else -1
  {
    hide HeaderOk, DataOk, DataRead, FirstBytes;
    nErr, firmware := -1, firmware0;
    if slot == None { return; }
    ghost var xbin0: Header := xbin[..];
    var ok := CheckFileHeader(slot.value, xbin, noDivide);
    if !ok || !allocOk { return; }
    var n := DataTotalSize(xbin[..]);
    var memory := new byte[n](i requires 0 <= i => heap(i));
    assert memory[..] == Fresh(heap, n);
    ok := CheckData(slot.value, xbin, memory, noDivide);
    if !ok { return; }
    assert memory[..] == memory[..n] == SlotData(slot.value, xbin0, heap);
    if t.opens {
      firmware := Some(FirstBytes(xbin[..] + memory[..], t.wrote));
      if t.back.Some? {
        TruncatedPasses(xbin[..], memory[..], t.wrote, t.back.value);
      }
    }
    if firmware.Some? && t.back.Some? {
      ok := CheckFile(FirstBytes(firmware.value, t.back.value), xbin, memory, noDivide);
      if ok { nErr := 0; }
    }
  }

  /** The read-back cannot notice a short write: what is missing of the file is still in memory. */
  lemma TruncatedPasses(h: Header, data: bytes, wrote: nat, back: nat)
    requires HeaderOk(h) && DataOk(h, data)
    ensures var f := FirstBytes(FirstBytes(h + data, wrote), back);
            Fits(f, h, |data|) && Passes(f, h, data)
  {
    hide HeaderOk;
    var k := Min(Min(wrote, |h + data|), back);
    var f := FirstBytes(FirstBytes(h + data, wrote), back);
    assert f == (h + data)[..k];
    assert Loader.HeaderRead(f, h) == h;
    if k <= HEADER_SIZE {
      assert Loader.Payload(f) == [];
    } else {
      assert Loader.Payload(f) == (h + data)[HEADER_SIZE..k];
      assert (h + data)[HEADER_SIZE..k] == data[..k - HEADER_SIZE];
    }
    assert DataRead(f, data, |data|) == data;
  }

  lemma SlotOfComplete(f: bytes, xbin0: Header, allocOk: bool, heap: nat -> byte)
    requires Complete(f)
    ensures SlotPasses(Some(f), xbin0, allocOk, heap) <==> ValidImage(f) && allocOk
    ensures SlotHeader(f, xbin0) == f[..HEADER_SIZE]
    ensures ValidImage(f) ==> SlotImage(f, xbin0, heap) == ImagePart(f)
  {
    hide HeaderOk, DataOk;
    var n := DataTotalSize(Loader.HeaderRead(f, xbin0));
    CompletePassesIff(f, xbin0, Fresh(heap, n));
    if ValidImage(f) {
      Rebuilt(f, f[..HEADER_SIZE], f[HEADER_SIZE..HEADER_SIZE + n]);
    }
  }

  /** For a complete slot file, whatever firmware.bin was. firmware.bin becomes as much of a valid
      image's part as gets written, if there is memory and the target opens, and otherwise stays.
      0 is returned if and only if the image is valid, there is memory, firmware.bin opens for
      reading, and it has just been written or, if it is an old one read completely, is valid. */
  lemma CopyIff(slot: Option<bytes>, xbin0: Header, allocOk: bool, heap: nat -> byte,
                firmware0: Option<bytes>, t: Target)
    requires slot.Some? ==> Complete(slot.value)
    requires OldFits(slot, xbin0, allocOk, heap, firmware0, t)
    ensures var good := slot.Some? && ValidImage(slot.value) && allocOk;
            Installed(slot, xbin0, allocOk, heap, firmware0, t) ==
              (if good && t.opens then Some(FirstBytes(ImagePart(slot.value), t.wrote)) else firmware0) &&
            (t.opens ==> (CopyOk(slot, xbin0, allocOk, heap, firmware0, t) <==> good && t.back.Some?)) &&
            (!t.opens && firmware0.Some? && Complete(firmware0.value) &&
             t.back.Some? && |firmware0.value| <= t.back.value ==>
               (CopyOk(slot, xbin0, allocOk, heap, firmware0, t) <==> good && ValidImage(firmware0.value))) &&
            (!t.opens && (firmware0 == None || t.back == None) ==>
               !CopyOk(slot, xbin0, allocOk, heap, firmware0, t))
  {
    hide HeaderOk, DataOk, DataRead, ValidImage, Passes;
    if slot.Some? {
      SlotOfComplete(slot.value, xbin0, allocOk, heap);
      if !t.opens && firmware0.Some? && SlotPasses(slot, xbin0, allocOk, heap) && t.back.Some? {
        if Complete(firmware0.value) && |firmware0.value| <= t.back.value {
          assert FirstBytes(firmware0.value, t.back.value) == firmware0.value;
          CompletePassesIff(firmware0.value, SlotHeader(slot.value, xbin0), SlotData(slot.value, xbin0, heap));
        }
      }
    }
  }

  /** When 0 is returned, the slot's image is in firmware.bin if and only if it was written in full,
      or, if the target did not open, was there already. */
  lemma OkInstalledIff(slot: Option<bytes>, xbin0: Header, allocOk: bool, heap: nat -> byte,
                       firmware0: Option<bytes>, t: Target)
    requires OldFits(slot, xbin0, allocOk, heap, firmware0, t)
    requires CopyOk(slot, xbin0, allocOk, heap, firmware0, t)
    ensures var image := SlotImage(slot.value, xbin0, heap);
            Installed(slot, xbin0, allocOk, heap, firmware0, t) == Some(image) <==>
            if t.opens then |image| <= t.wrote else firmware0 == Some(image)
  {
    assert slot.Some?;
    hide SlotImage, SlotPasses, Passes;
    var image := SlotImage(slot.value, xbin0, heap);
    if t.opens && |image| <= t.wrote {
      assert image[..|image|] == image;
    }
  }

  /** When -1 is returned for an image that passes, it is in firmware.bin all the same if and only
      if the file does not open for reading and the image was written in full, or was there
      already without being written. */
  lemma FailedInstalledIff(slot: Option<bytes>, xbin0: Header, allocOk: bool, heap: nat -> byte,
                           firmware0: Option<bytes>, t: Target)
    requires OldFits(slot, xbin0, allocOk, heap, firmware0, t)
    requires SlotPasses(slot, xbin0, allocOk, heap) && !CopyOk(slot, xbin0, allocOk, heap, firmware0, t)
    ensures var image := SlotImage(slot.value, xbin0, heap);
            Installed(slot, xbin0, allocOk, heap, firmware0, t) == Some(image) <==>
            t.back == None && if t.opens then |image| <= t.wrote else firmware0 == Some(image)
  {
    assert slot.Some?;
    hide SlotPasses, Passes, DataRead, HeaderOk, DataOk;
    var h, data := SlotHeader(slot.value, xbin0), SlotData(slot.value, xbin0, heap);
    var image := SlotImage(slot.value, xbin0, heap);
    assert image[..|image|] == image == h + data;
    if firmware0 == Some(image) && t.back.Some? && !t.opens {
      SlotParts(slot, xbin0, allocOk, heap);
      TruncatedPasses(h, data, |image|, t.back.value);
    }
  }

  lemma SlotParts(slot: Option<bytes>, xbin0: Header, allocOk: bool, heap: nat -> byte)
    requires SlotPasses(slot, xbin0, allocOk, heap)
    ensures HeaderOk(SlotHeader(slot.value, xbin0))
    ensures DataOk(SlotHeader(slot.value, xbin0), SlotData(slot.value, xbin0, heap))
  {
  }

  /** With the target not opening, an old valid firmware.bin that is no larger stays, and 0 is
      returned as if the slot's image were installed. */
  lemma OldFirmwareStays(f: bytes, g: bytes, xbin0: Header, heap: nat -> byte, wrote: nat)
    requires ValidImage(f) && ValidImage(g) && |ImagePart(g)| <= |ImagePart(f)|
    ensures var t := Target(false, wrote, Some(|g|));
            OldFits(Some(f), xbin0, true, heap, Some(g), t) &&
            CopyOk(Some(f), xbin0, true, heap, Some(g), t) &&
            Installed(Some(f), xbin0, true, heap, Some(g), t) == Some(g)
  {
    hide HeaderOk, DataOk, DataRead, Passes;
    var t := Target(false, wrote, Some(|g|));
    CompleteIfValid(f);
    CompleteIfValid(g);
    SlotOfComplete(f, xbin0, true, heap);
    assert FirstBytes(g, |g|) == g;
    assert Loader.HeaderRead(g, SlotHeader(f, xbin0)) == g[..HEADER_SIZE];
    CopyIff(Some(f), xbin0, true, heap, Some(g), t);
  }

  /** However little of a valid image is written (none of it, say, on a full card), 0 is returned:
      firmware.bin is then no longer a valid image. */
  lemma ShortWriteReturnsOk(f: bytes, xbin0: Header, heap: nat -> byte, firmware0: Option<bytes>, t: Target)
    requires ValidImage(f) && t.opens && t.wrote < |ImagePart(f)| && t.back.Some?
    ensures OldFits(Some(f), xbin0, true, heap, firmware0, t)
    ensures CopyOk(Some(f), xbin0, true, heap, firmware0, t)
    ensures Installed(Some(f), xbin0, true, heap, firmware0, t) == Some(ImagePart(f)[..t.wrote])
    ensures !ValidImage(ImagePart(f)[..t.wrote])
  {
    hide HeaderOk, DataOk, DataRead, Passes, ValidImage;
    CompleteIfValid(f);
    CopyIff(Some(f), xbin0, true, heap, firmware0, t);
    PartIsValid(f);
    PartOfPart(f);
    StoredIsValidIff(ImagePart(f), t.wrote);
  }

  lemma PartOfPart(f: bytes)
    requires ValidImage(f)
    ensures ValidImage(ImagePart(f)) && ImagePart(ImagePart(f)) == ImagePart(f)
  {
    hide HeaderOk, DataOk;
    PartIsValid(f);
  }

  lemma Rebuilt(f: bytes, h: bytes, data: bytes)
    requires ValidImage(f) && h == f[..HEADER_SIZE]
    requires data == f[HEADER_SIZE..HEADER_SIZE + DataTotalSize(f[..HEADER_SIZE])]
    ensures h + data == ImagePart(f) && ValidImage(h + data)
    ensures (h + data)[..HEADER_SIZE] == h
  {
    PartIsValid(f);
    assert h + data == ImagePart(f);
  }

  lemma PartIsValid(f: bytes)
    requires ValidImage(f)
    ensures ValidImage(ImagePart(f)) && ImagePart(f)[..HEADER_SIZE] == f[..HEADER_SIZE]
    ensures ImagePart(f)[HEADER_SIZE..] == f[HEADER_SIZE..HEADER_SIZE + DataTotalSize(f[..HEADER_SIZE])]
  {
    var p, n := ImagePart(f), DataTotalSize(f[..HEADER_SIZE]);
    assert p[..HEADER_SIZE] == f[..HEADER_SIZE];
    assert p[HEADER_SIZE..HEADER_SIZE + n] == f[HEADER_SIZE..HEADER_SIZE + n];
  }

  /** An installed image boots: whatever the loader's buffers and RAM held before, if no read
      fails the image is loaded, and its data is in RAM from the load base on. */
  lemma InstalledImageBoots(f: bytes, o: Loader.Outcome, xbin0: Header, tmp0: bytes, ram0: bytes)
    requires ValidImage(f) && |tmp0| == Loader.BUF_SIZE && Loader.RoomFor(f, xbin0, |ram0|)
    requires Loader.IsOutcome(o, true, f, {}, xbin0, tmp0, ram0)
    ensures o == Loader.Loaded
    ensures Loader.RamHolds(f, xbin0, tmp0, ram0, f[HEADER_SIZE..HEADER_SIZE + DataTotalSize(f[..HEADER_SIZE])])
  {
    hide HeaderOk, DataOk;
    var h, payload := Loader.HeaderRead(f, xbin0), Loader.Payload(f);
    var n := DataTotalSize(f[..HEADER_SIZE]);
    assert h == f[..HEADER_SIZE];
    ValidParts(f);
    Loader.RamHoldsPayload(payload, tmp0, ram0);
    var ram := Loader.RamAfter(payload, tmp0, ram0);
    assert ram[..n] == ram[..|payload|][..n] == f[HEADER_SIZE..HEADER_SIZE + n];
  }

  lemma ValidParts(f: bytes)
    requires ValidImage(f)
    ensures HeaderOk(f[..HEADER_SIZE]) && HEADER_SIZE + DataTotalSize(f[..HEADER_SIZE]) <= |f|
    ensures DataOk(f[..HEADER_SIZE], f[HEADER_SIZE..HEADER_SIZE + DataTotalSize(f[..HEADER_SIZE])])
  {
  }

  /** An accepted upload was checked over memory from the upload on; the file stored from it has
      only its `size` bytes, and is a valid image if and only if these hold all the data that
      the header announces. Its image part is then the upload's. */
  lemma StoredIsValidIff(mem: bytes, size: nat)
    requires ValidImage(mem) && size <= |mem|
    ensures ValidImage(mem[..size]) <==> |ImagePart(mem)| <= size
    ensures |ImagePart(mem)| <= size ==> ImagePart(mem[..size]) == ImagePart(mem)
  {
    hide HeaderOk, DataOk;
    if HEADER_SIZE <= size {
      assert mem[..size][..HEADER_SIZE] == mem[..HEADER_SIZE];
      var n := DataTotalSize(mem[..HEADER_SIZE]);
      if HEADER_SIZE + n <= size {
        assert mem[..size][HEADER_SIZE..HEADER_SIZE + n] == mem[HEADER_SIZE..HEADER_SIZE + n];
      }
    }
  }

  /** From the upload to RAM: an accepted upload of any size that holds its announced data, once
      stored, is installed as its image part if and only if all of that is written, whatever
      follows the data in the upload; and then it boots with exactly the uploaded data at the
      load base. */
  lemma UploadedImageBoots(mem: bytes, size: nat, xbin0: Header, heap: nat -> byte, firmware0: Option<bytes>,
                           t: Target, o: Loader.Outcome, xbin1: Header, tmp0: bytes, ram0: bytes)
    requires ValidImage(mem) && |ImagePart(mem)| <= size <= |mem| && t.opens
    requires |tmp0| == Loader.BUF_SIZE && Loader.RoomFor(ImagePart(mem), xbin1, |ram0|)
    requires Loader.IsOutcome(o, true, ImagePart(mem), {}, xbin1, tmp0, ram0)
    ensures OldFits(Some(mem[..size]), xbin0, true, heap, firmware0, t)
    ensures CopyOk(Some(mem[..size]), xbin0, true, heap, firmware0, t) <==> t.back.Some?
    ensures Installed(Some(mem[..size]), xbin0, true, heap, firmware0, t) == Some(ImagePart(mem)) <==>
            |ImagePart(mem)| <= t.wrote
    ensures o == Loader.Loaded
    ensures Loader.RamHolds(ImagePart(mem), xbin1, tmp0, ram0, ImagePart(mem)[HEADER_SIZE..])
  {
    hide HeaderOk, DataOk, DataRead, Loader.IsOutcome, Loader.RoomFor, Loader.RamAfter, Loader.RamHolds,
         Installed, CopyOk;
    StoredIsValidIff(mem, size);
    CompleteIfValid(mem[..size]);
    CopyIff(Some(mem[..size]), xbin0, true, heap, firmware0, t);
    PartIsValid(mem);
    var p := ImagePart(mem);
    assert p[..|p|] == p;
    var n := DataTotalSize(p[..HEADER_SIZE]);
    assert p[HEADER_SIZE..HEADER_SIZE + n] == p[HEADER_SIZE..];
    InstalledImageBoots(p, o, xbin1, tmp0, ram0);
  }

  lemma CompleteIfValid(f: bytes)
    requires ValidImage(f)
    ensures Complete(f)
  {
  }
}
