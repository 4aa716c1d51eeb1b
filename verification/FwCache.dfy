/** The names and versions of the two firmware slots: cached when a slot is written or first
    asked for, and expected to agree with the headers on the card. */
module FwCache {
  import opened Bytes
  import opened CString
  import opened Transfer
  import opened Xbin

  /** e m p t y NUL */
  const EMPTY: bytes := [101, 109, 112, 116, 121, 0]

  type Name = n: bytes | |n| == NAME_SIZE witness seq(NAME_SIZE, _ => 0)

  /** One slot: its file on the card, and the cached name and version. */
  datatype Slot = Slot(file: Option<bytes>, name: Name, version: u32)

  // ----- what a fresh read gives

  function FreshName(file: Option<bytes>): bytes {
    match file
    case None => CStr(EMPTY)
    case Some(f) => if |f| >= HEADER_SIZE then CStr(DataName(f[..HEADER_SIZE])) else []
  }

  function FreshVersion(file: Option<bytes>): u32 {
    match file
    case None => 0
    case Some(f) => if |f| >= HEADER_SIZE then DataVersion(f[..HEADER_SIZE]) else 0
  }

  // ----- the operations on one slot

  /** How a query gets at a file that is there. */
  datatype Access = Reads | ReadFails | OpenFails

  /** The name is read if its first character is NUL. */
  function AfterGetName(s: Slot, access: Access): Slot {
    if s.name[0] != 0 then s
    else if s.file == None || access == OpenFails then s.(name := EMPTY + s.name[|EMPTY|..])
    else if access == Reads && |s.file.value| >= HEADER_SIZE
    then s.(name := DataName(s.file.value[..HEADER_SIZE]))
    else s
  }

  function AfterGetVersion(s: Slot, access: Access): Slot {
    if s.version != 0 then s else s.(version := FreshVersion(if access == Reads then s.file else None))
  }

  /** `buf` is the memory from the upload on, which starts with the header; `wrote` of its bytes
      are in the file, or the file could not be opened. */
  function AfterUpload(s: Slot, buf: bytes, wrote: Option<nat>): Slot
    requires HEADER_SIZE <= |buf| && (wrote.Some? ==> wrote.value <= |buf|)
  {
    Slot(if wrote.Some? then Some(buf[..wrote.value]) else s.file,
         DataName(buf[..HEADER_SIZE]), DataVersion(buf[..HEADER_SIZE]))
  }

  /** What queries of a void cache answer, and cache: "empty" without a file, and otherwise name and
      version from the file's header, if it is there. */
  lemma FreshMeans(file: Option<bytes>)
    ensures FreshName(file) ==
            match file
            case None => [101, 109, 112, 116, 121]
            case Some(f) => if |f| >= 256 then CStr(f[32..52]) else []
    ensures FreshVersion(file) ==
            match file
            case None => 0
            case Some(f) => if |f| >= 256 then Le32(f, 52) else 0
    ensures CStr(EMPTY) == [101, 109, 112, 116, 121]
  {
    StrLenIs(EMPTY, 5);
    assert EMPTY[..5] == [101, 109, 112, 116, 121];
    if file.Some? && |file.value| >= 256 {
      assert DataName(file.value[..256]) == file.value[32..52];
    }
  }

  // ----- agreement

  /** What is cached, if anything, is what the card holds. */
  predicate Agrees(s: Slot) {
    (s.name[0] != 0 ==> CStr(s.name) == FreshName(s.file)) &&
    (s.version != 0 ==> s.version == FreshVersion(s.file))
  }

  lemma EmptyText()
    ensures CStr(EMPTY) == EMPTY[..5] && forall t: bytes :: CStr(EMPTY + t) == CStr(EMPTY)
  {
    StrLenIs(EMPTY, 5);
    forall t: bytes ensures CStr(EMPTY + t) == CStr(EMPTY) {
      assert forall i :: 0 <= i < 5 ==> (EMPTY + t)[i] == EMPTY[i] != 0;
      StrLenIs(EMPTY + t, 5);
      assert (EMPTY + t)[..5] == EMPTY[..5];
    }
  }

  lemma NoText(n: Name)
    requires n[0] == 0
    ensures CStr(n) == []
  {
  }

  lemma SomeText(n: Name)
    requires n[0] != 0
    ensures CStr(n) != []
  {
  }

  /** From an agreeing cache, a query that can read the file answers what a fresh read would, and
      the cache still agrees. */
  lemma NameIsFresh(s: Slot)
    requires Agrees(s)
    ensures CStr(AfterGetName(s, Reads).name) == FreshName(s.file) && Agrees(AfterGetName(s, Reads))
  {
    EmptyText();
    if s.name[0] == 0 {
      NoText(s.name);
    }
  }

  lemma VersionIsFresh(s: Slot)
    requires Agrees(s)
    ensures AfterGetVersion(s, Reads).version == FreshVersion(s.file) && Agrees(AfterGetVersion(s, Reads))
  {
  }

  /** A name query caches "empty" if it cannot open the file: the cache then agrees if and only if
      a name was cached already, or the file's own name is that text, or there is no file. No
      other query that cannot get at its file caches anything. */
  lemma FailedAccessAgreesIff(s: Slot)
    requires Agrees(s)
    ensures Agrees(AfterGetName(s, OpenFails)) <==> s.name[0] != 0 || FreshName(s.file) == CStr(EMPTY)
    ensures Agrees(AfterGetName(s, ReadFails))
    ensures Agrees(AfterGetVersion(s, OpenFails)) && Agrees(AfterGetVersion(s, ReadFails))
  {
    EmptyText();
  }

  lemma HeaderOfPrefix(buf: bytes, size: nat)
    requires HEADER_SIZE <= size <= |buf|
    ensures buf[..size][..HEADER_SIZE] == buf[..HEADER_SIZE]
  {
  }

  /** The header's name and version, as far as they are not void, are the file's. */
  predicate HeaderIsOf(buf: bytes, file: Option<bytes>)
    requires HEADER_SIZE <= |buf|
  {
    var h: Header := buf[..HEADER_SIZE];
    (DataName(h)[0] != 0 ==> CStr(DataName(h)) == FreshName(file)) &&
    (DataVersion(h) != 0 ==> DataVersion(h) == FreshVersion(file))
  }

  predicate VoidHeader(buf: bytes)
    requires HEADER_SIZE <= |buf|
  {
    DataName(buf[..HEADER_SIZE])[0] == 0 && DataVersion(buf[..HEADER_SIZE]) == 0
  }

  /** After an upload, complete or not, the cache agrees exactly when the file got its whole header,
      or the header's name and version are both void; if the file could not be opened, exactly
      when they are those of the old file. */
  lemma UploadAgreesIff(s: Slot, buf: bytes, wrote: Option<nat>)
    requires HEADER_SIZE <= |buf| && (wrote.Some? ==> wrote.value <= |buf|)
    ensures Agrees(AfterUpload(s, buf, wrote)) <==>
            match wrote
            case Some(n) => n >= HEADER_SIZE || VoidHeader(buf)
            case None => HeaderIsOf(buf, s.file)
  {
    if wrote.Some? {
      if wrote.value >= HEADER_SIZE {
        HeaderOfPrefix(buf, wrote.value);
      } else if DataName(buf[..HEADER_SIZE])[0] != 0 {
        SomeText(DataName(buf[..HEADER_SIZE]));
      }
    }
  }

  // ----- both slots, over runs

  datatype State = State(one: Slot, two: Slot)

  datatype Event =
    | Name(index: nat, access: Access)
    | Version(index: nat, access: Access)
    | Upload(index: nat, buf: bytes, wrote: Option<nat>)   // of an image that passed its check

  function SlotOf(s: State, index: nat): Slot {
    if index == 1 then s.one else s.two
  }

  function WithSlot(s: State, index: nat, slot: Slot): State {
    if index == 1 then s.(one := slot) else s.(two := slot)
  }

  predicate ValidIndex(index: nat) {
    index == 1 || index == 2
  }

  predicate Possible(e: Event) {
    e.Upload? ==> HEADER_SIZE <= |e.buf| && (e.wrote.Some? ==> e.wrote.value <= |e.buf|)
  }

  /** Queries with another index answer "error" or 0 and change nothing; an upload takes any
      index other than 1 for 2. */
  function Step(s: State, e: Event): State
    requires Possible(e)
  {
    match e
    case Name(i, access) => if ValidIndex(i) then WithSlot(s, i, AfterGetName(SlotOf(s, i), access)) else s
    case Version(i, access) => if ValidIndex(i) then WithSlot(s, i, AfterGetVersion(SlotOf(s, i), access)) else s
    case Upload(i, buf, wrote) => WithSlot(s, i, AfterUpload(SlotOf(s, i), buf, wrote))
  }

  predicate BothAgree(s: State) {
    Agrees(s.one) && Agrees(s.two)
  }

  /** Both queries of a slot, if they can read its file, are answered as by a fresh read. */
  predicate AnswersFresh(s: Slot) {
    CStr(AfterGetName(s, Reads).name) == FreshName(s.file) &&
    AfterGetVersion(s, Reads).version == FreshVersion(s.file)
  }

  predicate WouldAnswerFresh(s: State) {
    AnswersFresh(s.one) && AnswersFresh(s.two)
  }

  /** The cache agrees with the card exactly if all queries would be answered fresh. */
  lemma AgreesIffAnswersFresh(s: State)
    ensures BothAgree(s) <==> WouldAnswerFresh(s)
  {
    OneAgreesIff(s.one);
    OneAgreesIff(s.two);
  }

  lemma OneAgreesIff(s: Slot)
    ensures Agrees(s) <==> AnswersFresh(s)
  {
    if Agrees(s) {
      NameIsFresh(s);
      VersionIsFresh(s);
    }
  }

  /** An upload puts a whole header into the file, or has a void name and version, or, if it cannot
      open the file, those of the file that stays; and a name query that has to open the file can
      do so, or the file's name reads "empty". */
  predicate KeepsAgreement(s: State, e: Event)
    requires Possible(e)
  {
    match e
    case Name(i, access) =>
      ValidIndex(i) && access == OpenFails ==> SlotOf(s, i).name[0] != 0 || FreshName(SlotOf(s, i).file) == CStr(EMPTY)
    case Version(_, _) => true
    case Upload(i, buf, None) => HeaderIsOf(buf, SlotOf(s, i).file)
    case Upload(_, buf, Some(n)) => n >= HEADER_SIZE || VoidHeader(buf)
  }

  lemma StepAgreesIff(s: State, e: Event)
    requires BothAgree(s) && Possible(e)
    ensures BothAgree(Step(s, e)) <==> KeepsAgreement(s, e)
  {
    match e
    case Name(i, _) => NameIsFresh(SlotOf(s, i)); FailedAccessAgreesIff(SlotOf(s, i));
    case Version(i, _) => VersionIsFresh(SlotOf(s, i)); FailedAccessAgreesIff(SlotOf(s, i));
    case Upload(i, buf, wrote) => UploadAgreesIff(SlotOf(s, i), buf, wrote);
  }

  predicate AlwaysFresh(s: State, es: seq<Event>)
    requires forall e :: e in es ==> Possible(e)
    decreases |es|
  {
    WouldAnswerFresh(s) && (es != [] ==> AlwaysFresh(Step(s, es[0]), es[1..]))
  }

  predicate AlwaysKeeps(s: State, es: seq<Event>)
    requires forall e :: e in es ==> Possible(e)
    decreases |es|
  {
    es != [] ==> KeepsAgreement(s, es[0]) && AlwaysKeeps(Step(s, es[0]), es[1..])
  }

  /** Over every run of queries and of uploads, successful or not, from a cache that agrees with the
      card (at boot it is void): at all times every query that can read its file is answered as
      by a fresh read, if and only if every step keeps the agreement. */
  lemma {:induction false} AnswersAreFreshIff(s: State, es: seq<Event>)
    requires BothAgree(s) && forall e :: e in es ==> Possible(e)
    ensures AlwaysFresh(s, es) <==> AlwaysKeeps(s, es)
    decreases |es|
  {
    hide WouldAnswerFresh, BothAgree, KeepsAgreement;
    AgreesIffAnswersFresh(s);
    if es != [] {
      assert es[0] in es;
      StepAgreesIff(s, es[0]);
      AgreesIffAnswersFresh(Step(s, es[0]));
      if KeepsAgreement(s, es[0]) {
        AnswersAreFreshIff(Step(s, es[0]), es[1..]);
      }
    }
  }

  /** While an upload's file is written it yields after each chunk of 4096 bytes; the cache is set
      before the first one, and agrees with what the file has got so far under the same condition
      as with the whole file. */
  lemma AgreesAtEachYield(s: Slot, buf: bytes, size: nat, chunks: nat)
    requires HEADER_SIZE <= |buf| && size <= |buf| && chunks >= 1
    ensures Agrees(AfterUpload(s, buf, Some(Min(size, CHUNK * chunks)))) <==>
            Agrees(AfterUpload(s, buf, Some(size)))
  {
    UploadAgreesIff(s, buf, Some(Min(size, CHUNK * chunks)));
    UploadAgreesIff(s, buf, Some(size));
  }

  /** A file shorter than its header and a name are enough to go wrong: the next query of the
      name is not answered as by a fresh read. */
  lemma ShortUpload(s: Slot, buf: bytes, size: nat)
    requires size < HEADER_SIZE <= |buf| && DataName(buf[..HEADER_SIZE])[0] != 0
    ensures !AnswersFresh(AfterUpload(s, buf, Some(size)))
  {
    SomeText(DataName(buf[..HEADER_SIZE]));
  }

  /** One open that fails is enough as well: the name stays "empty" for a file that has another. */
  lemma EmptySticks(s: Slot)
    requires s.name[0] == 0 && FreshName(s.file) != CStr(EMPTY)
    ensures !AnswersFresh(AfterGetName(s, OpenFails))
    ensures CStr(AfterGetName(AfterGetName(s, OpenFails), Reads).name) == CStr(EMPTY)
  {
    EmptyText();
  }

  /** Indices 1 and 2 name the two slots; a query of any other changes nothing, and an upload to any
      other goes to the second. */
  lemma IndexMeans(s: State, i: nat, access: Access, buf: bytes, wrote: Option<nat>)
    requires Possible(Upload(i, buf, wrote))
    ensures Step(s, Name(i, access)) ==
            if i == 1 then s.(one := AfterGetName(s.one, access))
            else if i == 2 then s.(two := AfterGetName(s.two, access)) else s
    ensures Step(s, Version(i, access)) ==
            if i == 1 then s.(one := AfterGetVersion(s.one, access))
            else if i == 2 then s.(two := AfterGetVersion(s.two, access)) else s
    ensures Step(s, Upload(i, buf, wrote)) ==
            if i == 1 then s.(one := AfterUpload(s.one, buf, wrote)) else s.(two := AfterUpload(s.two, buf, wrote))
  {
  }

  /** An upload caches the name and version in the header's bytes, and leaves the file with what was
      written; a read that fails caches nothing. */
  lemma CachedMeans(s: Slot, buf: bytes, wrote: Option<nat>)
    requires 256 <= |buf| && (wrote.Some? ==> wrote.value <= |buf|)
    ensures var u := AfterUpload(s, buf, wrote);
            u.name == buf[32..52] && u.version == Le32(buf, 52) &&
            u.file == match wrote case Some(n) => Some(buf[..n]) case None => s.file
    ensures s.file.Some? ==> AfterGetName(s, ReadFails) == s && AfterGetVersion(s, ReadFails) == s
    ensures AfterGetVersion(s, OpenFails) == s
  {
    assert buf[..256][32..52] == buf[32..52];
    assert Le32(buf[..256], 52) == Le32(buf, 52);
  }

  // ----- the operations

  class Cache {
    var files: map<nat, bytes>       // the slots' files, by 1 and 2
    const name1: array<byte>
    const name2: array<byte>
    var version1: u32
    var version2: u32

    ghost predicate Valid() {
      name1.Length == NAME_SIZE && name2.Length == NAME_SIZE && name1 != name2
    }

    function File(i: nat): Option<bytes>
      reads this
    {
      if i in files then Some(files[i]) else None
    }

    ghost function Abs(): State
      requires Valid()
      reads this, name1, name2
    {
      State(Slot(File(1), name1[..], version1), Slot(File(2), name2[..], version2))
    }

    constructor (files: map<nat, bytes>)
      ensures Valid() && fresh(name1) && fresh(name2) && this.files == files
      ensures BothAgree(Abs())
    {
      this.files := files;
      name1, name2 := new byte[NAME_SIZE](_ => 0), new byte[NAME_SIZE](_ => 0);
      version1, version2 := 0, 0;
    }

    static method CopyName(dst: array<byte>, src: bytes)
      requires |src| <= dst.Length
      modifies dst
      ensures dst[..] == src + old(dst[..])[|src|..]
    {
      forall i | 0 <= i < |src| {
        dst[i] := src[i];
      }
    }

    /** None is the answer "error". */
    method GetName(index: nat, access: Access) returns (name: Option<array<byte>>)
      requires Valid()
      modifies name1, name2
      ensures name == if index == 1 then Some(name1) else if index == 2 then Some(name2) else None
      ensures Abs() == Step(old(Abs()), Name(index, access))
    {
      if index != 1 && index != 2 { return None; }
      var p := if index == 1 then name1 else name2;
      if p[0] == 0 {
        if index in files && access != OpenFails {
          if access == Reads && HEADER_SIZE <= |files[index]| {
            CopyName(p, DataName(files[index][..HEADER_SIZE]));
          }
        } else {
          CopyName(p, EMPTY);
        }
      }
      return Some(p);
    }

    method GetVersion(index: nat, access: Access) returns (version: u32)
      requires Valid()
      modifies this`version1, this`version2
      ensures Abs() == Step(old(Abs()), Version(index, access))
      ensures version == if index == 1 then version1 else if index == 2 then version2 else 0
    {
      if index != 1 && index != 2 { return 0; }
      version := if index == 1 then version1 else version2;
      if version == 0 {
        if index in files && access != OpenFails {
          if access == Reads && HEADER_SIZE <= |files[index]| {
            version := DataVersion(files[index][..HEADER_SIZE]);
          }
        }
        if index == 1 { version1 := version; } else { version2 := version; }
      }
    }

    /** Name and version of a header become the slot's. */
    method CacheHeader(index: nat, h: Header)
      requires Valid()
      modifies name1, name2, this`version1, this`version2
      ensures Abs() == WithSlot(old(Abs()), index, Slot(SlotOf(old(Abs()), index).file, DataName(h), DataVersion(h)))
    {
      if index == 1 {
        CopyName(name1, DataName(h));
        version1 := DataVersion(h);
      } else {
        CopyName(name2, DataName(h));
        version2 := DataVersion(h);
      }
    }

    method SetFile(index: nat, content: bytes)
      requires Valid()
      modifies this`files
      ensures Abs() == WithSlot(old(Abs()), index, SlotOf(old(Abs()), index).(file := Some(content)))
    {
      files := files[(if index == 1 then 1 else 2) := content];
    }

    /** The image is checked, the cache is set, and then the file is written. `buf` is the memory
        from the upload on, of which the first `size` bytes were uploaded: the check goes by the
        header and reads on behind them if that announces more. */
    method FwUpload(index: nat, buf: array<byte>, size: u32, fd: Sink?, noDivide: bool) returns (nErr: nat)
      requires Valid() && HEADER_SIZE <= buf.Length && size <= buf.Length && buf != name1 && buf != name2
      requires HeaderOk(buf[..HEADER_SIZE]) ==> HEADER_SIZE + DataTotalSize(buf[..HEADER_SIZE]) <= buf.Length
      requires fd != null ==> fd.data == [] && fd.calls == 0
      modifies this, name1, name2, fd
      ensures nErr in {0, 1, 2, 4}
      ensures nErr == 1 <==> !MagicOk(old(buf[..HEADER_SIZE]))
      ensures nErr in {0, 4} <==>
                HeaderOk(old(buf[..HEADER_SIZE])) &&
                DataOk(old(buf[..HEADER_SIZE]),
                       old(buf[..])[HEADER_SIZE..HEADER_SIZE + DataTotalSize(old(buf[..HEADER_SIZE]))])
      ensures nErr in {1, 2} ==> Abs() == old(Abs())
      ensures nErr in {0, 4} ==>
                (nErr == 0 <==> fd != null && AllWritten(fd.faults, size)) &&
                (fd != null ==> fd.data <= old(buf[..size]) && (nErr == 0 ==> fd.data == old(buf[..size]))) &&
                Abs() == Step(old(Abs()), Upload(index, old(buf[..]), if fd == null then None else Some(|fd.data|)))
    {
      hide HeaderOk, DataOk, MagicOk, DataName, DataVersion;
      nErr := Xbin.Check(buf, noDivide);
      if nErr == 0 {
        var h: Header := buf[..HEADER_SIZE];
        assert buf[..][..HEADER_SIZE] == h;
        CacheHeader(index, h);
        if fd == null { return ERROR_SD; }
        nErr := WriteAll(fd, buf, size);
        SetFile(index, fd.data);
        assert fd.data == buf[..size][..|fd.data|] == buf[..|fd.data|];
      }
    }
  }
}
