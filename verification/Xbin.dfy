/** The 256-byte header of a firmware image, the check of a whole image, and what the two
    stored checksums protect. */
module Xbin {
  import opened Bytes
  import opened AdlerSpec
  import AdlerFast

  const MAGIC := 0x6E69_6278
  const SIZE_VERSION := 0x0100_0003
  const ADLER_START := 1
  const HEADER_SIZE := 256
  const COVERED := 252

  const NAME_SIZE := 20

  const ERROR_NO_FW := 1
  const ERROR_CRC := 2

  /** XBIN_HEADER as it lies in memory. */
  type Header = h: bytes | |h| == HEADER_SIZE witness seq(HEADER_SIZE, _ => 0)

  function DataTotalSize(h: Header): u32 {
    Le32(h, 16)
  }

  function DataCrc(h: Header): u32 {
    Le32(h, 28)
  }

  function DataName(h: Header): bytes {
    h[32..52]
  }

  function DataVersion(h: Header): u32 {
    Le32(h, 52)
  }

  function HeaderCrc(h: Header): u32 {
    Le32(h, COVERED)
  }

  predicate MagicOk(h: Header) {
    Le32(h, 0) == MAGIC && Le32(h, 4) == MAGIC && Le32(h, 8) == SIZE_VERSION
  }

  predicate HeaderOk(h: Header) {
    MagicOk(h) && Rfc1950(ADLER_START, h[..COVERED]) == HeaderCrc(h)
  }

  predicate DataOk(h: Header, data: bytes) {
    |data| == DataTotalSize(h) && Rfc1950(ADLER_START, data) == DataCrc(h)
  }

  /** The words of a header, byte by byte: twice "xbin" and the header version 3 of size 256, and
      the checksum of the first 252 bytes from the start value 1. */
  lemma HeaderOkIff(h: Header)
    ensures MagicOk(h) <==>
            h[0..4] == [0x78, 0x62, 0x69, 0x6E] && h[4..8] == [0x78, 0x62, 0x69, 0x6E] && h[8..12] == [3, 0, 0, 1]
    ensures HeaderOk(h) <==>
            h[0..4] == [0x78, 0x62, 0x69, 0x6E] && h[4..8] == [0x78, 0x62, 0x69, 0x6E] && h[8..12] == [3, 0, 0, 1] &&
            Rfc1950(1, h[..252]) == Le32(h, 252)
  {
    hide Rfc1950;
    WordIff(h, 0, [0x78, 0x62, 0x69, 0x6E]);
    WordIff(h, 4, [0x78, 0x62, 0x69, 0x6E]);
    WordIff(h, 8, [3, 0, 0, 1]);
  }

  lemma WordIff(h: bytes, k: nat, w: bytes)
    requires |w| == 4 && k + 4 <= |h|
    ensures Le32(h, k) == Le32(w, 0) <==> h[k..k + 4] == w
  {
    var v := h[k..k + 4];
    assert Le32(v, 0) == Le32(h, k);
    if Le32(v, 0) == Le32(w, 0) {
      Le32Injective(v, w, 0);
      assert v == w;
    }
  }

  /** Whether image data has its header's size and checksum, in the header's bytes. */
  lemma DataOkIff(h: Header, data: bytes)
    ensures DataOk(h, data) <==>
            |data| == Le32(h, 16) && Rfc1950(1, data) == Le32(h, 28)
  {
  }

  lemma StartAgrees(d: bytes)
    ensures AdlerFast.Agrees(ADLER_START, d)
  {
  }

  /** The checksum of a stretch of memory, from the start value. */
  method Checksum(mem: array<byte>, off: nat, len: u32, noDivide: bool) returns (r: u32)
    requires off + len <= mem.Length
    ensures r == Rfc1950(ADLER_START, mem[off..off + len])
  {
    StartAgrees(mem[off..off + len]);
    r := AdlerFast.Adler32(ADLER_START, mem, off, len, noDivide);
  }

  method CheckHeader(mem: array<byte>, off: nat, noDivide: bool) returns (ok: bool)
    requires off + HEADER_SIZE <= mem.Length
    ensures ok == HeaderOk(mem[off..off + HEADER_SIZE])
  {
    var h: Header := mem[off..off + HEADER_SIZE];
    ok := MagicOk(h);
    if ok {
      assert mem[off..off + COVERED] == h[..COVERED];
      var crc := Checksum(mem, off, COVERED, noDivide);
      ok := crc == HeaderCrc(h);
    }
  }

  /** `image` is the memory from the image on. The check goes by the header alone, not by the
      image's size, and reads what the header announces. */
  method Check(image: array<byte>, noDivide: bool) returns (nErr: nat)
    requires HEADER_SIZE <= image.Length
    requires HeaderOk(image[..HEADER_SIZE]) ==>
               HEADER_SIZE + DataTotalSize(image[..HEADER_SIZE]) <= image.Length
    ensures nErr == 0 <==>
            HeaderOk(image[..HEADER_SIZE]) &&
            DataOk(image[..HEADER_SIZE],
                   image[HEADER_SIZE..HEADER_SIZE + DataTotalSize(image[..HEADER_SIZE])])
    ensures nErr == 1 <==> !MagicOk(image[..HEADER_SIZE])
    ensures nErr in {0, 1, 2}
    ensures nErr != 1 <==>
            image[0..4] == [0x78, 0x62, 0x69, 0x6E] && image[4..8] == [0x78, 0x62, 0x69, 0x6E] &&
            image[8..12] == [3, 0, 0, 1]
  {
    var h: Header := image[..HEADER_SIZE];
    assert image[0..HEADER_SIZE] == h;
    HeaderOkIff(h);
    assert h[0..4] == image[0..4] && h[4..8] == image[4..8] && h[8..12] == image[8..12];
    nErr := ERROR_NO_FW;
    if MagicOk(h) {
      var headerOk := CheckHeader(image, 0, noDivide);
      nErr := ERROR_CRC;
      if headerOk {
        var crc := Checksum(image, HEADER_SIZE, DataTotalSize(h), noDivide);
        if crc == DataCrc(h) {
          nErr := 0;
        }
      }
    }
  }

  // ----- what the checksums protect

  lemma OneByteMovesBothSums(s: Sums, d: bytes, i: nat, v: byte)
    requires i < |d| < BASE && v != d[i]
    ensures Fold(s, d[i := v]).a != Fold(s, d).a && Fold(s, d[i := v]).b != Fold(s, d).b
  {
    hide Fold, Sum, WeightedSum;
    var e := d[i := v];
    SumsUpdate(d, i, v);
    ClosedForm(s, d);
    ClosedForm(s, e);
    ShiftedModEqual(s.a, Sum(e), Sum(d));
    ShiftedModEqual(s.b + |d| * s.a, WeightedSum(e), WeightedSum(d));
    NotZeroMod(v - d[i], |d| - i);
  }

  /** A change of one covered byte changes both halves of the checksum. */
  lemma OneByteMovesBothHalves(adler: u32, d: bytes, i: nat, v: byte)
    requires i < |d| < BASE && v != d[i]
    ensures Rfc1950(adler, d[i := v]) % 65536 != Rfc1950(adler, d) % 65536
    ensures Rfc1950(adler, d[i := v]) / 65536 != Rfc1950(adler, d) / 65536
  {
    OneByteMovesBothSums(Split(adler), d, i, v);
    SplitJoin(Fold(Split(adler), d));
    SplitJoin(Fold(Split(adler), d[i := v]));
  }

  lemma NotZeroMod(c: int, m: nat)
    requires c != 0 && -256 < c < 256 && 0 < m < BASE
    ensures c % BASE != 0 && (m * c) % BASE != 0
  {
    if c % BASE == 0 { ModZero(c); }
    SignedNoZeroDivisors(c, m);
    assert m * c == c * m;
  }

  /** Whatever one or two bytes of a valid header are changed, among the covered bytes, the
      stored checksum, or both, the header is no longer accepted. */
  lemma HeaderCorruptionRejected(h: Header, i: nat, v: byte, j: nat, w: byte)
    requires HeaderOk(h) && i < j < HEADER_SIZE
    requires v != h[i] || w != h[j]
    ensures !HeaderOk(h[i := v][j := w])
  {
    var h' := h[i := v][j := w];
    var d, d' := h[..COVERED], h'[..COVERED];
    if j < COVERED {
      assert d' == d[i := v][j := w];
      NearbyPairDetected(ADLER_START, d, i, v, j, w);
      assert HeaderCrc(h') == HeaderCrc(h);
    } else if i < COVERED && v != h[i] {
      assert d' == d[i := v];
      OneByteMovesBothHalves(ADLER_START, d, i, v);
      Le32Update(h[i := v], COVERED, j, w);
      assert Le32(h[i := v], COVERED) == HeaderCrc(h);
    } else {
      assert d' == d;
      if HeaderCrc(h') == HeaderCrc(h) {
        Le32Injective(h, h', COVERED);
      }
    }
  }

  /** With the header intact, image data with one byte changed is never accepted, and with two
      bytes changed only if the changes cancel at a distance that is a multiple of BASE. */
  lemma DataCorruption(h: Header, data: bytes, i: nat, v: byte, j: nat, w: byte)
    requires DataOk(h, data) && i < j < |data| && v != data[i]
    ensures !DataOk(h, data[i := v])
    ensures w != data[j] ==>
              (DataOk(h, data[i := v][j := w]) <==> v - data[i] == data[j] - w && (j - i) % BASE == 0)
  {
    OneByteDetected(ADLER_START, data, i, v);
    if w != data[j] {
      TwoBytesDetectedIff(ADLER_START, data, i, v, j, w);
    }
  }
}
