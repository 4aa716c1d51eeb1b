/** The device key and the certificate chain: their files on the card, the buffers they are
    loaded into after a reset, and who writes them. */
module CertStore {
  import opened Bytes
  import opened CString

  const STORE_SIZE := 2048

  datatype Path = DeviceKey | ChainCrt

  type Files = map<Path, bytes>

  /** The card; opening a file for writing can fail, writing to an open file does not. */
  class Card {
    var files: Files

    /** CREATE_ALWAYS: an existing file is emptied. */
    method Create(path: Path, opens: bool) returns (ok: bool)
      modifies this
      ensures ok == opens
      ensures files == if opens then old(files)[path := []] else old(files)
    {
      ok := opens;
      if ok {
        files := files[path := []];
      }
    }

    method Append(path: Path, data: bytes)
      requires path in files
      modifies this
      ensures files == old(files)[path := old(files)[path] + data]
    {
      files := files[path := files[path] + data];
    }
  }

  // ----- loading

  /** A buffer of zeros with the file's bytes in front, if they leave room for a NUL; `got` bounds
      how many bytes the one read delivers. */
  function LoadedBuffer(files: Files, path: Path, got: nat): (r: bytes)
    ensures |r| == STORE_SIZE
  {
    if path in files && |files[path]| < STORE_SIZE
    then
      var n := Min(got, |files[path]|);
      files[path][..n] + seq(STORE_SIZE - n, _ => 0)
    else seq(STORE_SIZE, _ => 0)
  }

  function LoadedSize(files: Files, path: Path, got: nat, size0: nat): nat {
    if path in files && |files[path]| < STORE_SIZE then Min(got, |files[path]|) + 1 else size0
  }

  /** A file without NULs comes back byte for byte, one NUL counted, exactly when it is shorter
      than the buffer and the read delivers all of it. */
  lemma ReloadIff(files: Files, path: Path, got: nat)
    requires path in files && forall i :: 0 <= i < |files[path]| ==> files[path][i] != 0
    ensures CStr(LoadedBuffer(files, path, got)) == files[path] &&
            LoadedSize(files, path, got, 0) == |files[path]| + 1 <==>
            |files[path]| < 2048 && |files[path]| <= got
  {
    var f := files[path];
    if |f| < STORE_SIZE {
      StrLenIs(LoadedBuffer(files, path, got), Min(got, |f|));
    }
  }

  /** A missing file, or one as long as the buffer or longer, leaves the size as it was and the
      buffer all zeros. */
  lemma NotLoaded(files: Files, path: Path, got: nat, size0: nat)
    requires path in files ==> |files[path]| >= 2048
    ensures LoadedSize(files, path, got, size0) == size0
    ensures LoadedBuffer(files, path, got) == seq(2048, _ => 0)
  {
  }

  class Store {
    const deviceKey: array<byte>
    const chainCert: array<byte>
    var deviceKeySize: nat
    var chainCertSize: nat

    ghost predicate Valid() {
      deviceKey.Length == STORE_SIZE && chainCert.Length == STORE_SIZE && deviceKey != chainCert
    }

    constructor ()
      ensures Valid() && fresh(deviceKey) && fresh(chainCert)
      ensures deviceKeySize == 0 && chainCertSize == 0
    {
      deviceKey, chainCert := new byte[STORE_SIZE](_ => 0), new byte[STORE_SIZE](_ => 0);
      deviceKeySize, chainCertSize := 0, 0;
    }

    method Load(card: Card, path: Path, got: nat, buf: array<byte>, size0: nat) returns (size: nat)
      requires buf.Length == STORE_SIZE
      modifies buf
      ensures buf[..] == LoadedBuffer(card.files, path, got)
      ensures size == LoadedSize(card.files, path, got, size0)
    {
      size := size0;
      forall i | 0 <= i < STORE_SIZE {
        buf[i] := 0;
      }
      if path in card.files {
        var length := |card.files[path]|;
        if length < STORE_SIZE {
          var readCount := Min(got, length);
          forall i | 0 <= i < readCount {
            buf[i] := card.files[path][i];
          }
          buf[readCount] := 0;
          size := readCount + 1;
        }
      }
      assert buf[..] == LoadedBuffer(card.files, path, got);
    }

    /** `keyGot` and `chainGot` bound what the two reads deliver. */
    method Init(card: Card, keyGot: nat, chainGot: nat)
      requires Valid()
      modifies this, deviceKey, chainCert
      ensures DeviceKey !in card.files ==>
                deviceKeySize == old(deviceKeySize) && deviceKey[..] == seq(2048, _ => 0)
      ensures ChainCrt !in card.files ==>
                chainCertSize == old(chainCertSize) && chainCert[..] == seq(2048, _ => 0)
      ensures deviceKey[..] == LoadedBuffer(card.files, DeviceKey, keyGot)
      ensures chainCert[..] == LoadedBuffer(card.files, ChainCrt, chainGot)
      ensures deviceKeySize == LoadedSize(card.files, DeviceKey, keyGot, old(deviceKeySize))
      ensures chainCertSize == LoadedSize(card.files, ChainCrt, chainGot, old(chainCertSize))
    {
      deviceKeySize := Load(card, DeviceKey, keyGot, deviceKey, deviceKeySize);
      chainCertSize := Load(card, ChainCrt, chainGot, chainCert, chainCertSize);
    }
  }

  /** 0 if both files can be opened; opening a file that exists can fail. */
  method Check(card: Card, keyOpens: bool, chainOpens: bool) returns (rc: int)
    ensures rc == if DeviceKey in card.files && keyOpens && ChainCrt in card.files && chainOpens then 0 else -1
  {
    rc := 0;
    if DeviceKey !in card.files || !keyOpens { rc := -1; }
    if ChainCrt !in card.files || !chainOpens { rc := -1; }
  }

  // ----- writing

  function AfterKeyWrite(files: Files, key: bytes, opens: bool): Files {
    if opens then files[DeviceKey := key] else files
  }

  function AfterChainWrite(files: Files, crt: bytes, inter: bytes, opens: bool): Files {
    if opens then files[ChainCrt := crt + inter] else files
  }

  method WriteKey(card: Card, key: bytes, opens: bool)
    modifies card
    ensures card.files == AfterKeyWrite(old(card.files), key, opens)
  {
    var fd := card.Create(DeviceKey, opens);
    if fd {
      card.Append(DeviceKey, key);
      assert [] + key == key;
    }
  }

  /** The device certificate, and the intermediate one behind it. */
  method WriteChain(card: Card, crt: bytes, inter: bytes, opens: bool)
    modifies card
    ensures card.files == AfterChainWrite(old(card.files), crt, inter, opens)
  {
    var fd := card.Create(ChainCrt, opens);
    if fd {
      card.Append(ChainCrt, crt);
      card.Append(ChainCrt, inter);
      assert [] + crt + inter == crt + inter;
    }
  }

  /** Called when the startup task has everything. The arrays are the memory from each of its
      buffers on: a device certificate that fills its buffer is read on to the next NUL. */
  method ElcaCallback(card: Card, nError: int, keyData: array<byte>, crtData: array<byte>, interData: array<byte>,
                      keyOpens: bool, chainOpens: bool)
    requires 0 in keyData[..] && 0 in crtData[..] && 0 in interData[..]
    modifies card
    ensures nError != 0 ==> card.files == old(card.files)
    ensures nError == 0 ==>
              var files := if keyOpens then old(card.files)[DeviceKey := CStr(keyData[..])] else old(card.files);
              card.files == if chainOpens then files[ChainCrt := CStr(crtData[..]) + CStr(interData[..])] else files
  {
    if nError == 0 {
      WriteKey(card, CStr(keyData[..]), keyOpens);
      WriteChain(card, CStr(crtData[..]), CStr(interData[..]), chainOpens);
    }
  }

  /** The update task's write, of the first `len` bytes of its buffer. */
  method WriteChainCert(card: Card, buf: array<byte>, len: nat, opens: bool) returns (rc: int)
    requires len <= buf.Length
    modifies card
    ensures rc == if opens then 0 else -1
    ensures card.files == if opens then old(card.files)[ChainCrt := buf[..len]] else old(card.files)
  {
    rc := -1;
    var fd := card.Create(ChainCrt, opens);
    if fd {
      card.Append(ChainCrt, buf[..len]);
      assert [] + buf[..len] == buf[..len];
      rc := 0;
    }
  }

  // ----- what is written comes back

  /** After a reset, with reads that deliver everything, the buffer holds exactly this text, and
      its size counts one NUL. */
  predicate Reloads(files: Files, path: Path, text: bytes) {
    CStr(LoadedBuffer(files, path, STORE_SIZE)) == text && LoadedSize(files, path, STORE_SIZE, 0) == |text| + 1
  }

  /** Of what the startup callback writes, the key is loaded back after a reset if and only if it
      is shorter than 2048 bytes, and the chain if and only if both certificates together are. */
  lemma StartupRoundTripIff(files: Files, key: bytes, crt: bytes, inter: bytes)
    requires 0 in key && 0 in crt && 0 in inter
    ensures var f := AfterChainWrite(AfterKeyWrite(files, CStr(key), true), CStr(crt), CStr(inter), true);
            (Reloads(f, DeviceKey, CStr(key)) <==> |CStr(key)| < 2048) &&
            (Reloads(f, ChainCrt, CStr(crt) + CStr(inter)) <==> |CStr(crt)| + |CStr(inter)| < 2048)
  {
    Terminated(key);
    Terminated(crt);
    Terminated(inter);
    var f := AfterChainWrite(AfterKeyWrite(files, CStr(key), true), CStr(crt), CStr(inter), true);
    ReloadIff(f, DeviceKey, STORE_SIZE);
    ReloadIff(f, ChainCrt, STORE_SIZE);
  }

  /** Texts that end inside the client's buffers always meet both conditions. */
  lemma StartupRoundTrip(files: Files, key: bytes, crt: bytes, inter: bytes)
    requires 0 in key && 0 in crt && 0 in inter
    requires |key| == |crt| == |inter| == 1024
    ensures var f := AfterChainWrite(AfterKeyWrite(files, CStr(key), true), CStr(crt), CStr(inter), true);
            Reloads(f, DeviceKey, CStr(key)) && Reloads(f, ChainCrt, CStr(crt) + CStr(inter))
  {
    StartupRoundTripIff(files, key, crt, inter);
    Terminated(key);
    Terminated(crt);
    Terminated(inter);
  }

  lemma Terminated(s: bytes)
    requires 0 in s
    ensures |CStr(s)| == StrLen(s) < |s|
    ensures forall i :: 0 <= i < |CStr(s)| ==> CStr(s)[i] != 0
  {
  }

  /** Everything the update task can write is loaded back after a reset. */
  lemma UpdateRoundTrip(files: Files, newCrt: bytes)
    requires |newCrt| == STORE_SIZE && StrLen(newCrt) + 1 < STORE_SIZE
    ensures var f := AfterChainWrite(files, newCrt[..StrLen(newCrt)], [], true);
            Reloads(f, ChainCrt, CStr(newCrt))
  {
    var f := AfterChainWrite(files, newCrt[..StrLen(newCrt)], [], true);
    assert f[ChainCrt] == CStr(newCrt);
    ReloadIff(f, ChainCrt, STORE_SIZE);
  }
}
