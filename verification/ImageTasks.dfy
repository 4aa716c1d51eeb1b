/** Upgrades of the web image as the scheduler interleaves them. ReadBuffer yields before every
    read, and several web tasks of one priority exist, so while one upgrade reads its file into
    its block another upgrade, or the card task, can run and free or replace what
    pWebImageBuffer points to. The card task's own mount is not interrupted: its priority is
    above the web tasks'. */
module ImageTasks {
  import opened Bytes
  import opened Transfer
  import I = ImageStore

  /** An upgrade in flight: its block, the file, how much is read, and whether the card it was
      opened on is still in (reads fail afterwards). */
  datatype Job = Job(block: I.Block, file: bytes, got: nat, cardIn: bool)

  /** core: heap and pointers; stray: some task has gone on reading into a block it no longer owns,
      or has mounted no memory at all. */
  datatype State = State(core: I.State, jobs: seq<Job>, stray: bool)

  datatype Event =
    | CardIn(file: Option<bytes>, allocOk: bool)
    | CardOut
    | Upgrade(file: Option<bytes>, allocOk: bool)
    | Chunk(i: nat, n: nat)     // the i-th job's next read delivers up to n bytes

  /** xfile_Mount's decision on an image, and what a new block of the heap happens to hold. */
  datatype World = World(xfile: bytes -> I.Mounting, heap: (I.Block, nat) -> bytes)
  {
    ghost predicate Valid() {
      forall b, n :: |heap(b, n)| == n
    }
  }

  const BOOT := State(I.BOOT, [], false)

  function Without(jobs: seq<Job>, i: nat): seq<Job>
    requires i < |jobs|
  {
    jobs[..i] + jobs[i + 1..]
  }

  /** An upgrade up to its first yield: the old image is gone, a block allocated. */
  function Begin(s: State, file: bytes, allocOk: bool, w: World): State
    requires I.Live(s.core, s.core.web)
  {
    var u := I.UnMounted(s.core);
    if !allocOk then s.(core := u.(web := I.NULL, size := |file|))
    else s.(core := I.Alloc(u, w.heap(u.next, |file|)).(web := u.next, size := |file|),
            jobs := s.jobs + [Job(u.next, file, 0, true)])
  }

  /** How many bytes a read for at most 4096 delivers. */
  function Delivered(j: Job, n: nat): (d: nat)
    requires j.got <= |j.file|
    ensures d <= |j.file| - j.got
  {
    Min(Min(n, CHUNK), |j.file| - j.got)
  }

  /** A read of a job whose block is live, and after the last one the mount of whatever
      pWebImageBuffer is then. */
  function Read(s: State, i: nat, n: nat, w: World): State
    requires i < |s.jobs| && s.jobs[i].got <= |s.jobs[i].file|
    requires s.jobs[i].block in s.core.live && |s.core.live[s.jobs[i].block]| == |s.jobs[i].file|
  {
    var j := s.jobs[i];
    var d := Delivered(j, n);
    var block := Filled(s.core.live[j.block], j.got, j.file[j.got..j.got + d]);
    var core := s.core.(live := s.core.live[j.block := block]);
    if j.got + d < |j.file| then s.(core := core, jobs := s.jobs[i := j.(got := j.got + d)])
    else if core.web !in core.live then s.(core := core, stray := true)
    else s.(core := I.Finish(core, w.xfile(core.live[core.web])), jobs := Without(s.jobs, i))
  }

  ghost predicate Inv(s: State) {
    I.Inv(s.core) &&
    forall i :: 0 <= i < |s.jobs| ==> JobInv(s, s.jobs[i])
  }

  ghost predicate JobInv(s: State, j: Job) {
    0 < j.block < s.core.next && j.got <= |j.file| &&
    (j.block in s.core.live ==> |s.core.live[j.block]| == |j.file|)
  }

  function CoreEvent(e: Event, w: World): I.Event
    requires !e.Chunk?
  {
    match e
    case CardIn(file, allocOk) => I.CardIn(file, allocOk, I.Decision(w.xfile, file))
    case CardOut => I.CardOut
    case Upgrade(file, allocOk) => I.Upgrade(file, allocOk, I.Decision(w.xfile, file))
  }

  ghost function Step(s: State, e: Event, w: World): State
    requires Inv(s)
  {
    if s.stray then s
    else match e
      case CardIn(_, _) => s.(core := I.Step(s.core, CoreEvent(e, w)))
      case CardOut =>
        s.(core := I.Step(s.core, I.CardOut),
           jobs := seq(|s.jobs|, i requires 0 <= i < |s.jobs| => s.jobs[i].(cardIn := false)))
      case Upgrade(None, _) => s
      case Upgrade(Some(file), allocOk) => Begin(s, file, allocOk, w)
      case Chunk(i, n) =>
        if i >= |s.jobs| || !s.jobs[i].cardIn then s
        else if s.jobs[i].block !in s.core.live then s.(stray := true)
        else Read(s, i, n, w)
  }

  // ----- what every step keeps

  lemma BeginInv(s: State, file: bytes, allocOk: bool, w: World)
    requires Inv(s) && w.Valid()
    ensures Inv(Begin(s, file, allocOk, w))
  {
  }

  lemma ReadInv(s: State, i: nat, n: nat, w: World)
    requires Inv(s) && i < |s.jobs| && s.jobs[i].block in s.core.live
    ensures Inv(Read(s, i, n, w))
  {
  }

  lemma StepInv(s: State, e: Event, w: World)
    requires Inv(s) && w.Valid()
    ensures Inv(Step(s, e, w))
  {
    match e
    case Upgrade(Some(file), allocOk) => BeginInv(s, file, allocOk, w);
    case Chunk(i, n) =>
      if !s.stray && i < |s.jobs| && s.jobs[i].block in s.core.live {
        ReadInv(s, i, n, w);
      }
    case _ =>
  }

  // ----- reads that keep their block

  /** Nothing has gone astray, the live blocks are pWebImageBuffer or none, and at most one read
      is in flight, into the live block pWebImageBuffer, which holds what has been read. */
  ghost predicate Good(s: State) {
    !s.stray && I.Owned(s.core) && |s.jobs| <= 1 &&
    forall i :: 0 <= i < |s.jobs| ==> HasBlock(s.core, s.jobs[i])
  }

  ghost predicate HasBlock(core: I.State, j: Job) {
    j.cardIn && j.block == core.web && j.block in core.live &&
    j.got <= |j.file| == |core.live[j.block]| && core.live[j.block][..j.got] == j.file[..j.got]
  }

  /** No card is mounted over an image still held, and no card is pulled and no upgrade begun
      while a read is in flight. */
  predicate Quiet(s: State, e: Event) {
    match e
    case CardIn(file, _) => file.Some? ==> s.core.web == I.NULL
    case CardOut => s.jobs == []
    case Upgrade(file, _) => file.Some? ==> s.jobs == []
    case Chunk(_, _) => true
  }

  lemma BeginGood(s: State, file: bytes, allocOk: bool, w: World)
    requires Inv(s) && Good(s) && w.Valid() && s.jobs == []
    ensures Good(Begin(s, file, allocOk, w))
  {
    I.NothingLive(s.core);
    var s' := Begin(s, file, allocOk, w);
    if allocOk {
      assert s'.jobs[0] == Job(s'.core.web, file, 0, true);
    }
  }

  lemma BeginOverLoses(s: State, file: bytes, allocOk: bool, w: World)
    requires Inv(s) && Good(s) && w.Valid() && s.jobs != []
    ensures !Good(Begin(s, file, allocOk, w))
  {
    var s' := Begin(s, file, allocOk, w);
    assert s'.jobs[0] == s.jobs[0];
  }

  lemma ReadGood(s: State, i: nat, n: nat, w: World)
    requires Inv(s) && Good(s) && i < |s.jobs|
    ensures Good(Read(s, i, n, w))
  {
    var j := s.jobs[i];
    assert HasBlock(s.core, j);
    var d := Delivered(j, n);
    var chunk := j.file[j.got..j.got + d];
    FilledExtends(s.core.live[j.block], j.file, j.got, chunk);
    var block := Filled(s.core.live[j.block], j.got, chunk);
    var core := s.core.(live := s.core.live[j.block := block]);
    var s' := Read(s, i, n, w);
    if j.got + d < |j.file| {
      assert s'.jobs == [j.(got := j.got + d)];
    } else {
      FinishOwned(core, w.xfile(core.live[core.web]));
      assert s'.jobs == [];
    }
  }

  lemma FinishOwned(core: I.State, m: I.Mounting)
    requires I.Inv(core) && I.Owned(core) && core.web in core.live
    ensures I.Owned(I.Finish(core, m)) && I.Inv(I.Finish(core, m))
  {
  }

  lemma CardOutLoses(s: State, w: World)
    requires Inv(s) && Good(s) && s.jobs != []
    ensures !Good(Step(s, CardOut, w))
  {
    var s' := Step(s, CardOut, w);
    assert !HasBlock(s'.core, s'.jobs[0]);
  }

  lemma CardOverLoses(s: State, e: Event, w: World)
    requires Inv(s) && Good(s) && e.CardIn? && !Quiet(s, e)
    ensures !Good(Step(s, e, w))
  {
    I.MountOverLoses(s.core, CoreEvent(e, w));
  }

  /** A step keeps every read its block, and every block its owner, exactly if it is quiet. */
  lemma StepGoodIff(s: State, e: Event, w: World)
    requires Inv(s) && Good(s) && w.Valid()
    ensures Good(Step(s, e, w)) <==> Quiet(s, e)
  {
    hide I.Owned, HasBlock;
    match e
    case CardIn(file, allocOk) =>
      if Quiet(s, e) { CardInGood(s, e, w); } else { CardOverLoses(s, e, w); }
    case CardOut =>
      if s.jobs == [] { CardOutGood(s, w); } else { CardOutLoses(s, w); }
    case Upgrade(None, _) =>
    case Upgrade(Some(file), allocOk) =>
      if s.jobs == [] { BeginGood(s, file, allocOk, w); } else { BeginOverLoses(s, file, allocOk, w); }
    case Chunk(i, n) =>
      if i < |s.jobs| {
        JobHasBlock(s, i);
        ReadGood(s, i, n, w);
      }
  }

  lemma JobHasBlock(s: State, i: nat)
    requires Good(s) && i < |s.jobs|
    ensures s.jobs[i].cardIn && s.jobs[i].block == s.core.web && s.core.web in s.core.live
  {
    assert HasBlock(s.core, s.jobs[i]);
  }

  lemma CardOutGood(s: State, w: World)
    requires Inv(s) && Good(s) && s.jobs == []
    ensures Good(Step(s, CardOut, w))
  {
    I.StepOwnedIff(s.core, I.CardOut);
  }

  lemma CardInGood(s: State, e: Event, w: World)
    requires Inv(s) && Good(s) && e.CardIn? && Quiet(s, e)
    ensures Good(Step(s, e, w))
  {
    I.StepOwnedIff(s.core, CoreEvent(e, w));
    if s.jobs != [] {
      JobHasBlock(s, 0);
      assert I.NULL !in s.core.live;
    }
  }

  // ----- runs

  ghost predicate AlwaysGood(s: State, es: seq<Event>, w: World)
    requires Inv(s) && w.Valid()
    decreases |es|
  {
    Good(s) && (es != [] ==> (StepInv(s, es[0], w); AlwaysGood(Step(s, es[0], w), es[1..], w)))
  }

  ghost predicate AlwaysQuiet(s: State, es: seq<Event>, w: World)
    requires Inv(s) && w.Valid()
    decreases |es|
  {
    es != [] ==> Quiet(s, es[0]) && (StepInv(s, es[0], w); AlwaysQuiet(Step(s, es[0], w), es[1..], w))
  }

  /** Over every run of card events, upgrade requests and single reads, in any order: at all times
      each read in flight has its block live and in pWebImageBuffer, no block is lost, and nothing
      is written astray, if and only if every step is quiet. */
  lemma {:induction false} GoodIff(s: State, es: seq<Event>, w: World)
    requires Inv(s) && Good(s) && w.Valid()
    ensures AlwaysGood(s, es, w) <==> AlwaysQuiet(s, es, w)
    decreases |es|
  {
    if es != [] {
      StepInv(s, es[0], w);
      StepGoodIff(s, es[0], w);
      if Good(Step(s, es[0], w)) {
        GoodIff(Step(s, es[0], w), es[1..], w);
      } else {
        NotGoodNow(Step(s, es[0], w), es[1..], w);
      }
    }
  }

  lemma NotGoodNow(s: State, es: seq<Event>, w: World)
    requires Inv(s) && w.Valid() && !Good(s)
    ensures !AlwaysGood(s, es, w)
  {
  }

  /** Card events alternate, and a slot file can only be opened while a card is in. */
  predicate Alternating(es: seq<Event>, cardIn: bool) {
    es != [] ==>
      match es[0]
      case CardIn(_, _) => !cardIn && Alternating(es[1..], true)
      case CardOut => cardIn && Alternating(es[1..], false)
      case Upgrade(file, _) => (file.Some? ==> cardIn) && Alternating(es[1..], cardIn)
      case Chunk(_, _) => Alternating(es[1..], cardIn)
  }

  /** No card is pulled and no upgrade begun while a read is in flight. */
  predicate Alone(s: State, e: Event) {
    s.jobs != [] ==> e != CardOut && !(e.Upgrade? && e.file.Some?)
  }

  ghost predicate AlwaysAlone(s: State, es: seq<Event>, w: World)
    requires Inv(s) && w.Valid()
    decreases |es|
  {
    es != [] ==> Alone(s, es[0]) && (StepInv(s, es[0], w); AlwaysAlone(Step(s, es[0], w), es[1..], w))
  }

  function CardAfter(e: Event, cardIn: bool): bool {
    match e case CardIn(_, _) => true case CardOut => false case _ => cardIn
  }

  lemma NoCardNoImage(s: State, e: Event, cardIn: bool, w: World)
    requires Inv(s) && Good(s) && w.Valid() && Alternating([e], cardIn)
    requires !cardIn ==> s.core.web == I.NULL
    ensures !CardAfter(e, cardIn) ==> Step(s, e, w).core.web == I.NULL
    ensures Quiet(s, e) <==> Alone(s, e)
  {
    if s.jobs != [] {
      JobHasBlock(s, 0);
    }
    if e.Chunk? && e.i < |s.jobs| {
      JobHasBlock(s, e.i);
    }
  }

  lemma {:induction false} QuietIffAlone(s: State, es: seq<Event>, cardIn: bool, w: World)
    requires Inv(s) && Good(s) && w.Valid() && Alternating(es, cardIn)
    requires !cardIn ==> s.core.web == I.NULL
    ensures AlwaysQuiet(s, es, w) <==> AlwaysAlone(s, es, w)
    decreases |es|
  {
    if es != [] {
      assert [es[0]][0] == es[0] && [es[0]][1..] == [];
      StepInv(s, es[0], w);
      NoCardNoImage(s, es[0], cardIn, w);
      StepGoodIff(s, es[0], w);
      if Quiet(s, es[0]) {
        QuietIffAlone(Step(s, es[0], w), es[1..], CardAfter(es[0], cardIn), w);
      }
    }
  }

  /** From boot, with card events that alternate: at all times each read in flight has its block
      live and in pWebImageBuffer, no block is lost, and nothing is written astray, if and only
      if no card is pulled and no further upgrade begun while a read is in flight. */
  lemma AlternatingGoodIff(es: seq<Event>, w: World)
    requires w.Valid() && Alternating(es, false)
    ensures Inv(BOOT)
    ensures AlwaysGood(BOOT, es, w) <==> AlwaysAlone(BOOT, es, w)
  {
    BootGood();
    GoodIff(BOOT, es, w);
    QuietIffAlone(BOOT, es, false, w);
  }

  // ----- quiet runs are runs of whole upgrades

  /** The state with the upgrade in flight, if any, taken to its end at once. */
  ghost function Ended(s: State, w: World): I.State
    requires Good(s)
  {
    if s.jobs == [] then s.core
    else
      JobHasBlock(s, 0);
      var j := s.jobs[0];
      I.Finish(s.core.(live := s.core.live[j.block := j.file]), w.xfile(j.file))
  }

  /** A whole upgrade happens when it begins; its reads change nothing. */
  function WholeStep(core: I.State, e: Event, w: World): I.State
    requires I.Inv(core)
  {
    if e.Chunk? then core else I.Step(core, CoreEvent(e, w))
  }

  lemma EndedInv(s: State, w: World)
    requires Inv(s) && Good(s)
    ensures I.Inv(Ended(s, w)) && I.Owned(Ended(s, w))
  {
    if s.jobs != [] {
      JobHasBlock(s, 0);
      var j := s.jobs[0];
      FinishOwned(s.core.(live := s.core.live[j.block := j.file]), w.xfile(j.file));
    }
  }

  lemma BeginRefines(s: State, file: bytes, allocOk: bool, w: World)
    requires Inv(s) && Good(s) && w.Valid() && s.jobs == []
    ensures Good(Begin(s, file, allocOk, w))
    ensures Ended(Begin(s, file, allocOk, w), w) == WholeStep(s.core, Upgrade(Some(file), allocOk), w)
  {
    BeginGood(s, file, allocOk, w);
    var s' := Begin(s, file, allocOk, w);
    if allocOk {
      var u := I.UnMounted(s.core);
      assert s'.jobs[0] == Job(u.next, file, 0, true);
      assert s'.core.live[u.next := file] == u.live[u.next := file];
    }
  }

  lemma ReadRefines(s: State, i: nat, n: nat, w: World)
    requires Inv(s) && Good(s) && i < |s.jobs|
    ensures Good(Read(s, i, n, w)) && Ended(Read(s, i, n, w), w) == Ended(s, w)
  {
    ReadGood(s, i, n, w);
    JobHasBlock(s, i);
    var j := s.jobs[0];
    assert HasBlock(s.core, j);
    var d := Delivered(j, n);
    var chunk := j.file[j.got..j.got + d];
    var block := Filled(s.core.live[j.block], j.got, chunk);
    FilledExtends(s.core.live[j.block], j.file, j.got, chunk);
    var s' := Read(s, i, n, w);
    if j.got + d < |j.file| {
      assert s'.jobs[0] == j.(got := j.got + d);
      assert s'.core.live[j.block := j.file] == s.core.live[j.block := j.file];
    } else {
      assert block == block[..|j.file|] == j.file[..|j.file|] == j.file;
      assert s'.jobs == [];
    }
  }

  lemma StepRefines(s: State, e: Event, w: World)
    requires Inv(s) && Good(s) && w.Valid() && Quiet(s, e)
    ensures I.Inv(Ended(s, w)) && Good(Step(s, e, w))
    ensures Ended(Step(s, e, w), w) == WholeStep(Ended(s, w), e, w)
  {
    hide I.Owned, I.Finish, HasBlock, Begin, Read;
    EndedInv(s, w);
    StepGoodIff(s, e, w);
    match e
    case CardIn(file, allocOk) =>
      if file.Some? && s.jobs != [] {
        JobHasBlock(s, 0);
      }
    case CardOut =>
    case Upgrade(None, _) =>
    case Upgrade(Some(file), allocOk) => BeginRefines(s, file, allocOk, w);
    case Chunk(i, n) =>
      if i < |s.jobs| {
        JobHasBlock(s, i);
        ReadRefines(s, i, n, w);
      }
  }

  ghost function Run(s: State, es: seq<Event>, w: World): (r: State)
    requires Inv(s) && w.Valid()
    ensures Inv(r)
    decreases |es|
  {
    if es == [] then s else (StepInv(s, es[0], w); Run(Step(s, es[0], w), es[1..], w))
  }

  ghost function WholeRun(core: I.State, es: seq<Event>, w: World): (r: I.State)
    requires I.Inv(core)
    ensures I.Inv(r)
    decreases |es|
  {
    if es == [] then core
    else
      WholeStepInv(core, es[0], w);
      WholeRun(WholeStep(core, es[0], w), es[1..], w)
  }

  lemma WholeStepInv(core: I.State, e: Event, w: World)
    requires I.Inv(core)
    ensures I.Inv(WholeStep(core, e, w))
  {
    if !e.Chunk? {
      I.StepInv(core, CoreEvent(e, w));
    }
  }

  /** Over every quiet run, however reads are split and interleaved with other events: once the
      upgrade in flight is taken to its end, heap and pointers are those of the run in which each
      upgrade is one step; in particular xfile_Mount decides on exactly the slot's file. */
  lemma {:induction false} QuietRunsAreWhole(s: State, es: seq<Event>, w: World)
    requires Inv(s) && Good(s) && w.Valid() && AlwaysQuiet(s, es, w)
    ensures Good(Run(s, es, w)) && I.Inv(Ended(s, w))
    ensures Ended(Run(s, es, w), w) == WholeRun(Ended(s, w), es, w)
    decreases |es|
  {
    EndedInv(s, w);
    if es != [] {
      StepInv(s, es[0], w);
      StepRefines(s, es[0], w);
      WholeStepInv(Ended(s, w), es[0], w);
      QuietRunsAreWhole(Step(s, es[0], w), es[1..], w);
    }
  }

  /** After the card is pulled, no read of an upgrade in flight delivers anything any more. */
  lemma PulledReadsNothing(s: State, i: nat, n: nat, w: World)
    requires Inv(s) && w.Valid() && !s.stray
    ensures Inv(Step(s, CardOut, w))
    ensures Step(Step(s, CardOut, w), Chunk(i, n), w) == Step(s, CardOut, w)
  {
    StepInv(s, CardOut, w);
  }

  /** A last read that finds no image in pWebImageBuffer any more goes astray. */
  lemma NothingToMount(s: State, i: nat, n: nat, w: World)
    requires Inv(s) && !s.stray && i < |s.jobs| && s.jobs[i].cardIn && s.jobs[i].block in s.core.live
    requires s.core.web == 0 && s.jobs[i].got + Min(n, 4096) >= |s.jobs[i].file|
    ensures Step(s, Chunk(i, n), w).stray
  {
    assert JobInv(s, s.jobs[i]);
  }

  // ----- two upgrades at once

  lemma BootGood()
    ensures Inv(BOOT) && Good(BOOT)
  {
  }

  /** With every read succeeding: a second upgrade frees the block of one in flight, which goes on
      reading into freed memory. */
  lemma TwoUpgrades(file: bytes, other: bytes, n: nat, w: World)
    requires w.Valid()
    ensures Inv(BOOT)
    ensures Run(BOOT, [Upgrade(Some(file), true), Upgrade(Some(other), true), Chunk(0, n)], w).stray
  {
    var es := [Upgrade(Some(file), true), Upgrade(Some(other), true), Chunk(0, n)];
    BootGood();
    StepInv(BOOT, es[0], w);
    var s1 := Step(BOOT, es[0], w);
    assert s1.jobs == [Job(1, file, 0, true)] && s1.core.web == 1;
    StepInv(s1, es[1], w);
    var s2 := Step(s1, es[1], w);
    assert s2.jobs[0] == Job(1, file, 0, true) && 1 !in s2.core.live;
    StepInv(s2, es[2], w);
    var s3 := Step(s2, es[2], w);
    assert es[1..] == [es[1], es[2]] && es[1..][1..] == [es[2]] && es[1..][1..][1..] == [];
    assert Run(s2, [es[2]], w) == s3;
    assert Run(s1, es[1..], w) == Run(s2, es[1..][1..], w);
  }

  // ----- the operations

  /** ReadBuffer's variables in one task. */
  datatype Reading = Reading(fd: Source, block: I.Block, index: nat, left: nat, cardIn: bool)

  class Tasks {
    const store: I.Store
    var readings: seq<Reading>

    ghost predicate Valid()
      reads this, set r <- readings :: r.fd
    {
      (forall i :: 0 <= i < |readings| ==>
         readings[i].fd.Valid() && readings[i].fd.pos == readings[i].index &&
         readings[i].index + readings[i].left == |readings[i].fd.data|) &&
      forall i, j :: 0 <= i < j < |readings| ==> readings[i].fd != readings[j].fd
    }

    ghost function Now(): State
      reads this, store
    {
      State(store.Abs(), seq(|readings|, i requires 0 <= i < |readings| reads this => AsJob(readings[i])), false)
    }

    ghost function AsJob(r: Reading): Job {
      Job(r.block, r.fd.data, r.index, r.cardIn)
    }

    constructor (store: I.Store)
      ensures this.store == store && readings == [] && Valid()
    {
      this.store, readings := store, [];
    }

    /** An upgrade request up to the first yield. */
    method BeginUpgrade(fd: Source?, allocOk: bool, w: World)
      requires Valid() && Inv(Now()) && w.Valid()
      requires fd != null ==> fd.Valid() && fd.pos == 0 && forall r :: r in readings ==> r.fd != fd
      modifies this`readings, store
      ensures Valid() && Inv(Now())
      ensures Now() == Step(old(Now()), Upgrade(if fd == null then None else Some(fd.data), allocOk), w)
    {
      if fd != null {
        ghost var s := Now();
        StepInv(s, Upgrade(Some(fd.data), allocOk), w);
        store.UnMount();
        store.Allocate(w.heap(store.next, |fd.data|), allocOk);
        if allocOk {
          readings := readings + [Reading(fd, store.web, 0, |fd.data|, true)];
        }
        assert Now().jobs == Begin(s, fd.data, allocOk, w).jobs;
      }
    }

    /** The card task's two callbacks; a read from a card that was pulled fails from then on. */
    method PullCard(w: World)
      requires Valid() && Inv(Now()) && w.Valid()
      modifies this`readings, store
      ensures Valid() && Now() == Step(old(Now()), CardOut, w)
    {
      store.SDUnMountCallback();
      readings := seq(|readings|, i requires 0 <= i < |readings| reads this => readings[i].(cardIn := false));
    }

    method InsertCard(out: I.Outside, w: World)
      requires Valid() && Inv(Now()) && w.Valid() && out.Valid() && out.xfile == w.xfile
      requires var file := I.Selected(store.files, out.fails); file.Some? ==> |file.value| < WORD
      modifies store
      ensures Valid()
      ensures Now() == Step(old(Now()), CardIn(I.Selected(store.files, out.fails), out.allocOk), w)
    {
      store.SDMountCallback(out);
    }

    /** Leaves the i-th task's variables behind: it has read everything. */
    method Leave(i: nat)
      requires Valid() && i < |readings|
      modifies this`readings
      ensures Valid() && Now() == old(Now()).(jobs := Without(old(Now()).jobs, i))
    {
      ghost var jobs := Now().jobs;
      readings := readings[..i] + readings[i + 1..];
      assert Now().jobs == Without(jobs, i);
    }

    /** The i-th task's next read and its variables after it. */
    method ReadOn(i: nat) returns (got: nat)
      requires Valid() && Inv(Now()) && i < |readings| && readings[i].block in store.live
      modifies this`readings, store`live, readings[i].fd
      ensures Valid() && i < |readings| && got <= Min(old(readings[i].left), CHUNK)
      ensures readings[i].left == old(readings[i].left) - got
      ensures Now() == AfterRead(old(Now()), i, got)
    {
      ghost var s := Now();
      var r := readings[i];
      assert s.jobs[i] == AsJob(r) && JobInv(s, s.jobs[i]);
      got := store.ReadChunk(r.fd, r.block, r.index, r.left);
      readings := readings[i := r.(index := r.index + got, left := r.left - got)];
      assert Now().jobs == s.jobs[i := s.jobs[i].(got := r.index + got)];
    }

    /** A task from one yield to the next: one read, and the mount after the last one. The block
        must still be allocated, and there must be an image to mount. */
    method ReadNext(i: nat, w: World) returns (got: nat)
      requires Valid() && Inv(Now()) && w.Valid()
      requires i < |readings| && readings[i].cardIn
      requires readings[i].block in store.live && store.web in store.live
      modifies this`readings, store, readings[i].fd
      ensures Valid() && Inv(Now())
      ensures Now() == Step(old(Now()), Chunk(i, got), w)
    {
      hide AfterRead, I.Finish, Read, JobInv;
      ghost var s := Now();
      assert s.jobs[i] == AsJob(readings[i]);
      StepInv(s, Chunk(i, 0), w);
      got := ReadOn(i);
      ReadIs(s, i, got, w);
      StepInv(s, Chunk(i, got), w);
      if readings[i].left == 0 {
        var mounted := store.MountImage(w.xfile);
        Leave(i);
      }
      assert Now() == Step(s, Chunk(i, got), w);
    }
  }

  /** The i-th job has read n more bytes into its block. */
  ghost function AfterRead(s: State, i: nat, n: nat): State
    requires Inv(s) && i < |s.jobs| && s.jobs[i].block in s.core.live
    requires s.jobs[i].got + n <= |s.jobs[i].file|
  {
    var j := s.jobs[i];
    assert JobInv(s, j);
    var block := Filled(s.core.live[j.block], j.got, j.file[j.got..j.got + n]);
    s.(core := s.core.(live := s.core.live[j.block := block]), jobs := s.jobs[i := j.(got := j.got + n)])
  }

  /** A read is that, and, if it was the last one, the mount. */
  lemma ReadIs(s: State, i: nat, n: nat, w: World)
    requires Inv(s) && i < |s.jobs| && s.jobs[i].block in s.core.live && s.core.web in s.core.live
    requires n <= Min(CHUNK, |s.jobs[i].file| - s.jobs[i].got)
    ensures var t := AfterRead(s, i, n);
            I.Inv(t.core) && t.core.web in t.core.live &&
            Read(s, i, n, w) ==
              if t.jobs[i].got < |t.jobs[i].file| then t
              else t.(core := I.Finish(t.core, w.xfile(t.core.live[t.core.web])), jobs := Without(t.jobs, i))
  {
    assert JobInv(s, s.jobs[i]);
    assert Without(AfterRead(s, i, n).jobs, i) == Without(s.jobs, i);
  }
}
