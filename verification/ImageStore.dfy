/** Who owns the heap buffer of the web image: it passes between the mount and unmount
    callbacks, the upgrade of a slot, and xfile_Mount, which may hand back another buffer. */
module ImageStore {
  import opened Bytes
  import opened Transfer

  /** A heap block; 0 is NULL. */
  type Block = nat

  const NULL: Block := 0

  /** Which of its ways xfile_Mount takes for an image (a function of the image, except that a
      failed allocation or decompression shows as a refusal). */
  datatype Mounting =
    | Refused(headerOk: bool)
    | AsIs
    | Replaced(image: bytes)

  /** live: the blocks allocated and not freed; web: pWebImageBuffer; image and name: the block
      that xfile's pImageBuffer and pDataName point into. */
  datatype State = State(live: map<Block, bytes>, next: Block, web: Block, size: nat, image: Block, name: Block)

  const BOOT := State(map[], 1, NULL, 0, NULL, NULL)

  predicate Live(s: State, b: Block) {
    b == NULL || b in s.live
  }

  function Free(s: State, b: Block): State
    requires Live(s, b)
  {
    s.(live := s.live - {b})
  }

  function Alloc(s: State, content: bytes): State {
    s.(live := s.live[s.next := content], next := s.next + 1)
  }

  /** xfile_Mount on block b. */
  function XfileMount(s: State, b: Block, m: Mounting): State {
    match m
    case Refused(headerOk) => s.(image := NULL, name := if headerOk then b else s.name)
    case AsIs => s.(image := b, name := b)
    case Replaced(image) => Alloc(s, image).(image := s.next, name := b)
  }

  /** The block it returns. */
  function MountResult(s: State, b: Block, m: Mounting): Block {
    match m case Refused(_) => NULL case AsIs => b case Replaced(_) => s.next
  }

  /** Mounting what pWebImageBuffer holds; a replaced block is freed. */
  function Finish(s: State, m: Mounting): State
    requires s.web in s.live
  {
    var s1, r := XfileMount(s, s.web, m), MountResult(s, s.web, m);
    if r == NULL || r == s.web then s1 else Free(s1, s.web).(web := r)
  }

  /** Reading a file into a new block and mounting it. */
  function Mounted(s: State, file: bytes, allocOk: bool, m: Mounting): State {
    if !allocOk then s.(web := NULL, size := |file|)
    else Finish(Alloc(s, file).(web := s.next, size := |file|), m)
  }

  function UnMounted(s: State): State
    requires Live(s, s.web)
  {
    Free(s, s.web).(image := NULL, name := NULL, size := 0, web := NULL)
  }

  datatype Event =
    | CardIn(file: Option<bytes>, allocOk: bool, mounting: Mounting)
    | CardOut
    | Upgrade(file: Option<bytes>, allocOk: bool, mounting: Mounting)

  /** The file is that of the selected slot, if it can be opened. */
  function Step(s: State, e: Event): State
    requires Live(s, s.web)
  {
    match e
    case CardIn(None, _, _) => s
    case CardIn(Some(file), allocOk, m) =>
      var s' := Mounted(s, file, allocOk, m);
      if allocOk && m.Refused? then Free(s', s'.web).(size := 0, web := NULL) else s'
    case CardOut => if s.web != NULL then UnMounted(s) else s
    case Upgrade(None, _, _) => s
    case Upgrade(Some(file), allocOk, m) => Mounted(UnMounted(s), file, allocOk, m)
  }

  // ----- ownership

  /** Block numbers are given out once, and the pointers to blocks that are used are live. */
  predicate Inv(s: State) {
    s.next > 0 && NULL !in s.live && (forall b :: b in s.live ==> b < s.next) && s.name < s.next &&
    Live(s, s.web) && Live(s, s.image)
  }

  lemma StepInv(s: State, e: Event)
    requires Inv(s)
    ensures Inv(Step(s, e))
  {
  }

  /** The live blocks are exactly pWebImageBuffer, or none. */
  predicate Owned(s: State) {
    s.live.Keys == if s.web == NULL then {} else {s.web}
  }

  /** No card is mounted over an image that is still held. */
  predicate NoMountOver(s: State, e: Event) {
    e.CardIn? && e.file.Some? ==> s.web == NULL
  }

  lemma MountedOwned(s: State, file: bytes, allocOk: bool, m: Mounting)
    requires Inv(s) && s.live == map[]
    ensures Owned(Mounted(s, file, allocOk, m))
  {
  }

  lemma NothingLive(s: State)
    requires Inv(s) && Owned(s)
    ensures UnMounted(s).live == map[] && Inv(UnMounted(s))
    ensures s.web == NULL ==> s.live == map[]
  {
  }

  /** A block held before a mount is lost by it. */
  lemma MountOverLoses(s: State, e: Event)
    requires Inv(s) && Owned(s) && !NoMountOver(s, e)
    ensures !Owned(Step(s, e))
  {
    assert s.web in s.live;
    assert s.web in Step(s, e).live && Step(s, e).web != s.web;
  }

  lemma StepOwnedIff(s: State, e: Event)
    requires Inv(s) && Owned(s)
    ensures Owned(Step(s, e)) <==> NoMountOver(s, e)
  {
    NothingLive(s);
    if !NoMountOver(s, e) {
      MountOverLoses(s, e);
    } else {
      match e
      case CardIn(Some(file), allocOk, m) =>
        MountedOwned(s, file, allocOk, m);
        var s' := Mounted(s, file, allocOk, m);
        assert (s'.live - {s'.web}).Keys == {};
      case Upgrade(Some(file), allocOk, m) => MountedOwned(UnMounted(s), file, allocOk, m);
      case _ =>
    }
  }

  // ----- runs

  ghost predicate AlwaysOwned(s: State, es: seq<Event>)
    requires Inv(s)
    decreases |es|
  {
    Owned(s) && (es != [] ==> (StepInv(s, es[0]); AlwaysOwned(Step(s, es[0]), es[1..])))
  }

  ghost predicate NeverMountsOver(s: State, es: seq<Event>)
    requires Inv(s)
    decreases |es|
  {
    es != [] ==> NoMountOver(s, es[0]) && (StepInv(s, es[0]); NeverMountsOver(Step(s, es[0]), es[1..]))
  }

  /** Over every run: no block is ever lost or kept beside pWebImageBuffer if and only if no card
      is mounted over an image that is still held. Every free is of a live block in either case
      (`Free` requires it). */
  lemma {:induction false} OwnedIff(s: State, es: seq<Event>)
    requires Inv(s) && Owned(s)
    ensures AlwaysOwned(s, es) <==> NeverMountsOver(s, es)
    decreases |es|
  {
    if es != [] {
      StepInv(s, es[0]);
      StepOwnedIff(s, es[0]);
      if Owned(Step(s, es[0])) {
        OwnedIff(Step(s, es[0]), es[1..]);
      }
    }
  }

  /** Card events alternate, and a slot file can only be opened while a card is in. */
  predicate Alternating(es: seq<Event>, cardIn: bool) {
    es != [] ==>
      match es[0]
      case CardIn(_, _, _) => !cardIn && Alternating(es[1..], true)
      case CardOut => cardIn && Alternating(es[1..], false)
      case Upgrade(file, _, _) => (file.Some? ==> cardIn) && Alternating(es[1..], cardIn)
  }

  lemma {:induction false} AlternatingNeverMountsOver(s: State, es: seq<Event>, cardIn: bool)
    requires Inv(s) && Alternating(es, cardIn) && (!cardIn ==> s.web == NULL)
    ensures NeverMountsOver(s, es)
    decreases |es|
  {
    if es != [] {
      StepInv(s, es[0]);
      AlternatingNeverMountsOver(Step(s, es[0]), es[1..], if es[0].Upgrade? then cardIn else es[0].CardIn?);
    }
  }

  /** From boot, over every alternating run of card events mixed with upgrades, with any
      allocation or mount failing and any image replaced, the live blocks are exactly
      pWebImageBuffer or none. */
  lemma AlternatingRunsOwn(es: seq<Event>)
    requires Alternating(es, false)
    ensures AlwaysOwned(BOOT, es)
  {
    AlternatingNeverMountsOver(BOOT, es, false);
    OwnedIff(BOOT, es);
  }

  /** What mounting a file does: without memory there is no image; a refused image stays in the
      block it was read into, but xfile has none; an accepted one is the block's, or the block it was
      unpacked into, and xfile uses that. */
  lemma MountedMeans(s: State, file: bytes, allocOk: bool, m: Mounting)
    requires Inv(s)
    ensures var s' := Mounted(s, file, allocOk, m);
            s'.size == |file| &&
            (!allocOk ==> s' == s.(web := 0, size := |file|)) &&
            (allocOk ==> s'.web in s'.live && s'.web !in s.live &&
                         s'.live == s.live[s'.web := if m.Replaced? then m.image else file] &&
                         s'.image == (if m.Refused? then 0 else s'.web) &&
                         s'.name == (if m == Refused(false) then s.name else s.next))
  {
  }

  /** What each event does: a card's image that is refused is given up, pulling the card or beginning
      an upgrade gives up the image there was, and nothing happens without a file. */
  lemma StepMeans(s: State, file: bytes, allocOk: bool, m: Mounting)
    requires Inv(s)
    ensures Step(s, CardIn(None, allocOk, m)) == s && Step(s, Upgrade(None, allocOk, m)) == s
    ensures Step(s, CardIn(Some(file), allocOk, m)) ==
            var s' := Mounted(s, file, allocOk, m);
            if allocOk && m.Refused? then s'.(live := s'.live - {s'.web}, size := 0, web := 0) else s'
    ensures Step(s, CardOut) ==
            if s.web == 0 then s else s.(live := s.live - {s.web}, web := 0, size := 0, image := 0, name := 0)
    ensures Step(s, Upgrade(Some(file), allocOk, m)) ==
            Mounted(s.(live := s.live - {s.web}, web := 0, size := 0, image := 0, name := 0), file, allocOk, m)
  {
  }

  // ----- the pointer to the image's name

  /** xfile's name pointer is left pointing into a freed block by exactly two kinds of step:
      a mount that replaces the buffer, and a card whose image is refused behind a good header. */
  predicate KeepsName(s: State, e: Event) {
    match e
    case CardIn(Some(_), true, m) => m.AsIs? || m == Refused(false)
    case Upgrade(Some(_), true, m) => !m.Replaced?
    case _ => true
  }

  predicate NameLive(s: State) {
    Live(s, s.name)
  }

  lemma NameLiveIff(s: State, e: Event)
    requires Inv(s) && Owned(s) && NoMountOver(s, e) && NameLive(s)
    ensures NameLive(Step(s, e)) <==> KeepsName(s, e)
  {
  }

  ghost predicate AlwaysNameLive(s: State, es: seq<Event>)
    requires Inv(s)
    decreases |es|
  {
    NameLive(s) && (es != [] ==> (StepInv(s, es[0]); AlwaysNameLive(Step(s, es[0]), es[1..])))
  }

  ghost predicate AlwaysKeepsName(s: State, es: seq<Event>)
    requires Inv(s)
    decreases |es|
  {
    es != [] ==> KeepsName(s, es[0]) && (StepInv(s, es[0]); AlwaysKeepsName(Step(s, es[0]), es[1..]))
  }

  lemma {:induction false} NameRunsIff(s: State, es: seq<Event>)
    requires Inv(s) && Owned(s) && NeverMountsOver(s, es) && NameLive(s)
    ensures AlwaysNameLive(s, es) <==> AlwaysKeepsName(s, es)
    decreases |es|
  {
    if es != [] {
      StepInv(s, es[0]);
      StepOwnedIff(s, es[0]);
      NameLiveIff(s, es[0]);
      if NameLive(Step(s, es[0])) {
        NameRunsIff(Step(s, es[0]), es[1..]);
      }
    }
  }

  /** From boot, over every alternating run: xfile's name pointer is at all times NULL or points
      into a live block if and only if no step mounts a replaced image or refuses a newly
      inserted card's image behind a good header. */
  lemma AlwaysNameLiveIff(es: seq<Event>)
    requires Alternating(es, false)
    ensures AlwaysNameLive(BOOT, es) <==> AlwaysKeepsName(BOOT, es)
  {
    AlternatingNeverMountsOver(BOOT, es, false);
    NameRunsIff(BOOT, es);
  }

  /** A card with a compressed image is enough: after it is mounted the name pointer points into
      a freed block. */
  lemma NameOfReplaced(file: bytes, image: bytes)
    ensures Alternating([CardIn(Some(file), true, Replaced(image))], false)
    ensures !NameLive(Step(BOOT, CardIn(Some(file), true, Replaced(image))))
  {
  }

  // ----- the files

  datatype Path = Web1 | Web2 | WebBin

  /** Opening a file for reading: it must exist, and the open must not fail. */
  function Opened(files: map<Path, bytes>, fails: set<Path>, path: Path): Option<bytes> {
    if path in files && path !in fails then Some(files[path]) else None
  }

  /** The slot that web.bin names; 1 without it. */
  function SelectedIndex(files: map<Path, bytes>, fails: set<Path>): nat {
    match Opened(files, fails, WebBin)
    case Some(b) => if b != [] then b[0] else 1
    case None => 1
  }

  /** Where an upload for a slot goes. */
  function SlotPath(index: nat): Path {
    if index == 1 then Web1 else Web2
  }

  /** The image file of a slot, if it opens. */
  function SlotFile(files: map<Path, bytes>, fails: set<Path>, index: nat): Option<bytes> {
    if index == 1 then Opened(files, fails, Web1)
    else if index == 2 then Opened(files, fails, Web2)
    else None
  }

  function Selected(files: map<Path, bytes>, fails: set<Path>): Option<bytes> {
    SlotFile(files, fails, SelectedIndex(files, fails))
  }

  /** Without web.bin, or with an empty one, the first slot's file is selected; otherwise the one
      its first byte names, and none for any other byte. */
  lemma SelectedMeans(files: map<Path, bytes>, fails: set<Path>)
    ensures WebBin !in files || WebBin in fails || files[WebBin] == [] ==>
              Selected(files, fails) == Opened(files, fails, Web1)
    ensures WebBin in files && WebBin !in fails && files[WebBin] != [] ==>
              Selected(files, fails) ==
              if files[WebBin][0] == 1 then Opened(files, fails, Web1)
              else if files[WebBin][0] == 2 then Opened(files, fails, Web2)
              else None
    ensures forall path :: Opened(files, fails, path) ==
                           if path in files && path !in fails then Some(files[path]) else None
  {
  }

  /** Which file an upgrade of a slot reads and an upload to it writes. */
  lemma SlotMeans(files: map<Path, bytes>, fails: set<Path>, index: nat)
    ensures SlotFile(files, fails, index) ==
            if index == 1 then Opened(files, fails, Web1) else if index == 2 then Opened(files, fails, Web2) else None
    ensures SlotPath(index) == if index == 1 then Web1 else Web2
  {
  }

  /** What an upgrade writes makes its slot the one that is mounted from then on. */
  function AfterUpgrade(files: map<Path, bytes>, fails: set<Path>, index: byte): map<Path, bytes> {
    if WebBin in fails then files else files[WebBin := [index]]
  }

  /** A card that is put in after an upgrade of a slot mounts that slot if and only if web.bin
      could be written, or named that slot's file already. */
  lemma UpgradeSelectsIff(files: map<Path, bytes>, fails: set<Path>, index: byte)
    requires index == 1 || index == 2
    ensures SelectedIndex(AfterUpgrade(files, fails, index), {}) == index <==>
            WebBin !in fails || SelectedIndex(files, {}) == index
  {
  }

  // ----- the operations

  /** What comes from outside: files that cannot be opened, how reads are split, what is in a new
      heap block, whether there is one, and xfile_Mount's decision on an image. */
  datatype Outside = Outside(fails: set<Path>, give: nat -> nat, stalls: set<nat>, heap: nat -> byte,
                             allocOk: bool, xfile: bytes -> Mounting)
  {
    ghost predicate Valid() {
      forall k :: give(k) >= 1
    }

    function Content(n: nat): (r: bytes)
      ensures |r| == n
    {
      seq<byte>(n, i requires 0 <= i => heap(i))
    }
  }

  function Decision(xfile: bytes -> Mounting, file: Option<bytes>): Mounting {
    match file case Some(f) => xfile(f) case None => Refused(false)
  }

  /** The heap, the image's pointers, and the files on the card. */
  class Store {
    var live: map<Block, bytes>
    var next: Block
    var web: Block
    var size: nat
    var image: Block
    var name: Block
    var xfileRoot: bool              // the web server's root is the image, not the ROM
    var files: map<Path, bytes>

    function Abs(): State
      reads this
    {
      State(live, next, web, size, image, name)
    }

    constructor (files: map<Path, bytes>)
      ensures Abs() == BOOT && !xfileRoot && this.files == files
    {
      live, next, web, size, image, name := map[], 1, NULL, 0, NULL, NULL;
      xfileRoot, this.files := false, files;
    }

    /** A new block; `content` is what the heap happens to hold there. */
    method Xmalloc(content: bytes, ok: bool) returns (b: Block)
      modifies this`live, this`next
      ensures ok ==> b == old(next) && Abs() == Alloc(old(Abs()), content)
      ensures !ok ==> b == NULL && Abs() == old(Abs())
    {
      b := NULL;
      if ok {
        b := next;
        live, next := live[next := content], next + 1;
      }
    }

    method Xfree(b: Block)
      requires Live(Abs(), b)
      modifies this`live
      ensures Abs() == Free(old(Abs()), b)
    {
      live := live - {b};
    }

    /** One round of ReadBuffer's loop: at most 4096 bytes into a block that is still allocated. */
    method ReadChunk(fd: Source, p: Block, index: nat, left: nat) returns (got: nat)
      requires fd.Valid() && p in live && index + left == |live[p]|
      modifies this`live, fd
      ensures fd.Valid() && got <= Min(left, 4096) && fd.pos == old(fd.pos) + got
      ensures live == old(live)[p := Filled(old(live[p]), index, fd.data[old(fd.pos)..fd.pos])]
      ensures left > 0 && old(fd.pos) < |fd.data| && got == 0 ==> |fd.Ahead()| < |old(fd.Ahead())|
    {
      var chunk := fd.Read(Min(left, CHUNK));
      got := |chunk|;
      live := live[p := Filled(live[p], index, chunk)];
    }

    /** Reads a whole file into a block, however short each read is, and however often a read
        returns nothing. */
    method ReadBuffer(fd: Source, p: Block, size0: u32)
      requires fd.Valid() && fd.pos == 0 && p in live && |fd.data| == size0 == |live[p]|
      modifies this`live, fd
      ensures live == old(live)[p := fd.data]
    {
      var index: u32, left: u32 := 0, size0;
      var more := true;
      while more
        invariant fd.Valid() && fd.pos == index && index + left == size0
        invariant more || left == 0
        invariant p in live && |live[p]| == size0 && live[p][..index] == fd.data[..index]
        invariant live == old(live)[p := live[p]]
        decreases more, left, |fd.Ahead()|
      {
        ghost var was := live[p];
        var bytesRead := ReadChunk(fd, p, index, left);
        FilledExtends(was, fd.data, index, fd.data[index..index + bytesRead]);
        index := index + bytesRead;
        left := left - bytesRead;
        more := left != 0;
      }
      assert live[p] == live[p][..size0] == fd.data[..size0] == fd.data;
    }

    /** What the block holds is handed to `xfile`, which decides. */
    method XMount(b: Block, xfile: bytes -> Mounting) returns (r: Block)
      requires b in live
      modifies this`live, this`next, this`image, this`name
      ensures Abs() == XfileMount(old(Abs()), b, xfile(old(live[b])))
      ensures r == MountResult(old(Abs()), b, xfile(old(live[b])))
    {
      image := NULL;
      match xfile(live[b])
      case Refused(headerOk) =>
        if headerOk { name := b; }
        r := NULL;
      case AsIs =>
        image, name, r := b, b, b;
      case Replaced(content) =>
        name := b;
        r := Xmalloc(content, true);
        image := r;
    }

    /** The size is noted and a block of it allocated, before anything is read. */
    method Allocate(content: bytes, allocOk: bool)
      modifies this`live, this`next, this`web, this`size
      ensures Abs() == if allocOk then Alloc(old(Abs()), content).(web := old(next), size := |content|)
                       else old(Abs()).(web := NULL, size := |content|)
    {
      size := |content|;
      web := Xmalloc(content, allocOk);
    }

    /** What pWebImageBuffer holds is mounted; 0 if it is accepted. */
    method MountImage(xfile: bytes -> Mounting) returns (nErr: int)
      requires Inv(Abs()) && web in live
      modifies this`live, this`next, this`web, this`image, this`name
      ensures Abs() == Finish(old(Abs()), xfile(old(live[web])))
      ensures nErr == if xfile(old(live[web])).Refused? then -1 else 0
    {
      nErr := -1;
      var r := XMount(web, xfile);
      if r != NULL {
        nErr := 0;
        if r != web {
          Xfree(web);
          web := r;
        }
      }
    }

    /** Allocates, reads the whole file into the block, and mounts it. */
    method Mount(fd: Source, content: bytes, allocOk: bool, xfile: bytes -> Mounting) returns (nErr: int)
      requires Inv(Abs()) && fd.Valid() && fd.pos == 0 && |fd.data| == |content| < WORD
      modifies this`live, this`next, this`web, this`size, this`image, this`name, fd
      ensures Abs() == Mounted(old(Abs()), fd.data, allocOk, xfile(fd.data))
      ensures nErr == if allocOk && !xfile(fd.data).Refused? then 0 else -1
    {
      nErr := -1;
      Allocate(content, allocOk);
      if web != NULL {
        ReadBuffer(fd, web, size);
        assert live == old(live)[web := fd.data];
        nErr := MountImage(xfile);
      }
    }

    method UnMount()
      requires Inv(Abs())
      modifies this`live, this`web, this`size, this`image, this`name
      ensures Inv(Abs()) && Abs() == UnMounted(old(Abs()))
    {
      image, name := NULL, NULL;
      Xfree(web);
      size, web := 0, NULL;
    }

    /** The file of a slot that opens, mounted at card insertion: a refused image is freed. */
    method MountInserted(file: bytes, out: Outside)
      requires Inv(Abs()) && out.Valid() && |file| < WORD
      modifies this`live, this`next, this`web, this`size, this`image, this`name, this`xfileRoot
      ensures Inv(Abs())
      ensures Abs() == Step(old(Abs()), CardIn(Some(file), out.allocOk, out.xfile(file)))
      ensures xfileRoot == if out.allocOk then !out.xfile(file).Refused? else old(xfileRoot)
    {
      StepInv(Abs(), CardIn(Some(file), out.allocOk, out.xfile(file)));
      var fd := new Source(file, out.give, out.stalls);
      var nErr := Mount(fd, out.Content(|file|), out.allocOk, out.xfile);
      if nErr == 0 {
        xfileRoot := true;
      } else if web != NULL {
        Xfree(web);
        size, web := 0, NULL;
        xfileRoot := false;
      }
    }

    /** Opens the file of the slot that web.bin names, and mounts it; the web server's root
        follows. */
    method SDMountCallback(out: Outside)
      requires Inv(Abs()) && out.Valid()
      requires var file := Selected(files, out.fails); file.Some? ==> |file.value| < WORD
      modifies this`live, this`next, this`web, this`size, this`image, this`name, this`xfileRoot
      ensures Inv(Abs())
      ensures var file := Selected(files, out.fails);
              Abs() == Step(old(Abs()), CardIn(file, out.allocOk, Decision(out.xfile, file))) &&
              (web != NULL <==> if file.Some? then out.allocOk && !out.xfile(file.value).Refused?
                                else old(web) != NULL) &&
              (file.Some? && out.allocOk && out.xfile(file.value).AsIs? ==> web in live && live[web] == file.value) &&
              (xfileRoot <==> if file.Some? && out.allocOk then !out.xfile(file.value).Refused? else old(xfileRoot))
    {
      var index: nat := 1;
      if WebBin in files && WebBin !in out.fails && files[WebBin] != [] {
        index := files[WebBin][0];
      }
      if index == 1 && Web1 in files && Web1 !in out.fails {
        MountInserted(files[Web1], out);
      } else if index == 2 && Web2 in files && Web2 !in out.fails {
        MountInserted(files[Web2], out);
      }
    }

    method SDUnMountCallback()
      requires Inv(Abs())
      modifies this`live, this`web, this`size, this`image, this`name, this`xfileRoot
      ensures Inv(Abs()) && Abs() == Step(old(Abs()), CardOut) && !xfileRoot
    {
      if web != NULL {
        UnMount();
      }
      xfileRoot := false;
    }

    /** The image of a slot takes the place of the one in use, and web.bin names the slot. An
        image that cannot be mounted is not an error. */
    method UpgradeWeb(index: byte, out: Outside) returns (nErr: int)
      requires Inv(Abs()) && out.Valid()
      requires var file := SlotFile(files, out.fails, index); file.Some? ==> |file.value| < WORD
      modifies this`live, this`next, this`web, this`size, this`image, this`name, this`files
      ensures Inv(Abs())
      ensures var file := SlotFile(old(files), out.fails, index);
              Abs() == Step(old(Abs()), Upgrade(file, out.allocOk, Decision(out.xfile, file))) &&
              nErr == (if file.Some? then 0 else -1) &&
              files == (if file.Some? then AfterUpgrade(old(files), out.fails, index) else old(files))
    {
      nErr := -1;
      if index != 1 && index != 2 { return; }
      var path := SlotPath(index);
      if path in files && path !in out.fails {
        var fd := new Source(files[path], out.give, out.stalls);
        StepInv(Abs(), Upgrade(Some(fd.data), out.allocOk, out.xfile(fd.data)));
        UnMount();
        var mounted := Mount(fd, out.Content(|fd.data|), out.allocOk, out.xfile);
        if WebBin !in out.fails {
          files := files[WebBin := [index]];
        }
        nErr := 0;
      }
    }

    /** Uploads an image to a slot: `check` is the image check, and nothing is written if it
        fails; any index other than 1 is taken for 2. */
    method WebUpload(index: byte, buf: array<byte>, size: u32, check: bytes -> nat, fd: Sink?) returns (nErr: nat)
      requires size <= buf.Length
      requires fd != null ==> fd.data == [] && fd.calls == 0
      modifies fd, this`files
      ensures check(buf[..]) != 0 ==> nErr == check(buf[..])
      ensures check(buf[..]) == 0 ==> nErr in {0, 4} && (nErr == 0 <==> fd != null && AllWritten(fd.faults, size))
      ensures check(buf[..]) != 0 || fd == null ==> files == old(files)
      ensures check(buf[..]) == 0 && fd != null ==>
                files == old(files)[SlotPath(index) := fd.data] && fd.data <= buf[..size] &&
                (nErr == 0 ==> fd.data == buf[..size])
    {
      nErr := check(buf[..]);
      if nErr == 0 {
        if fd != null {
          nErr := WriteAll(fd, buf, size);
          files := files[SlotPath(index) := fd.data];
        } else {
          nErr := ERROR_SD;
        }
      }
    }

    /** An accepted upload followed by an upgrade of its slot: xfile_Mount decides on exactly the
        uploaded bytes, however they are split on the way to the card and back, and a card put
        in from then on mounts them too. */
    method UploadAndUpgrade(index: byte, buf: array<byte>, size: u32, check: bytes -> nat, fd: Sink, out: Outside)
      returns (nErr: nat)
      requires size <= buf.Length && fd.data == [] && fd.calls == 0 && (index == 1 || index == 2)
      requires Inv(Abs()) && out.Valid()
      modifies fd, this
      ensures Inv(Abs())
      ensures nErr != 0 || SlotPath(index) in out.fails ==> Abs() == old(Abs())
      ensures var image := old(buf[..size]);
              nErr == 0 && SlotPath(index) !in out.fails ==>
                Abs() == Step(old(Abs()), Upgrade(Some(image), out.allocOk, out.xfile(image))) &&
                (WebBin !in out.fails ==> Selected(files, {}) == Some(image)) &&
                (out.allocOk && out.xfile(image).AsIs? ==> web in live && live[web] == image)
    {
      nErr := WebUpload(index, buf, size, check, fd);
      if nErr == 0 {
        var upgraded := UpgradeWeb(index, out);
      }
    }
  }
}
