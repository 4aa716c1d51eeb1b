/** Upload requests as the scheduler interleaves them. All requests share one buffer: it is
    allocated by the first and released by the first that ends. A request waits for its data
    piece by piece, and yields after every 4096 bytes it has written, so others can come in
    between. */
module Uploads {
  import opened Bytes
  import opened Transfer
  import FwCache
  import Xbin

  const BUFFER_SIZE := 2 * 1024 * 1024

  type Block = nat

  const NULL: Block := 0

  /** The four files an upload can go to. */
  datatype Target = Web1 | Web2 | Fw1 | Fw2

  /** A file as it was created by one open: another open of the same path makes another one. */
  datatype File = File(id: nat, content: bytes)

  datatype Phase =
    | Receiving
    | Writing(target: Target, id: nat, done: nat)
    | Broken      // it takes no further part but has not ended yet

  /** A request: the buffer it was given, and the bytes it has received. */
  datatype Job = Job(block: Block, image: bytes, phase: Phase)

  /** buffer: UploadBuffer; stray: a request has gone on with a buffer that was released. */
  datatype State = State(live: map<Block, bytes>, next: Block, buffer: Block,
                         files: map<Target, File>, serial: nat, jobs: seq<Job>, stray: bool)

  datatype Event =
    | Arrive(content: bytes, allocOk: bool)  // content: what a new buffer happens to hold
    | Receive(i: nat, piece: bytes)
    | Begin(i: nat, target: Target, accepted: bool, opens: bool, wrote: nat)
    | WriteNext(i: nat, wrote: nat)
    | Leave(i: nat)

  function Boot(files: map<Target, File>, serial: nat): State {
    State(map[], 1, NULL, files, serial, [], false)
  }

  function Without(jobs: seq<Job>, i: nat): (r: seq<Job>)
    requires i < |jobs|
    ensures |r| == |jobs| - 1
  {
    jobs[..i] + jobs[i + 1..]
  }

  /** The first request allocates the buffer, the others are given the same. */
  function Arrived(s: State, content: bytes, allocOk: bool): State
    requires |content| == BUFFER_SIZE
  {
    if s.buffer != NULL then s.(jobs := s.jobs + [Job(s.buffer, [], Receiving)])
    else if !allocOk then s
    else s.(live := s.live[s.next := content], next := s.next + 1, buffer := s.next,
            jobs := s.jobs + [Job(s.next, [], Receiving)])
  }

  function Fail(s: State, i: nat): State
    requires i < |s.jobs|
  {
    s.(jobs := s.jobs[i := s.jobs[i].(phase := Broken)])
  }

  /** A piece behind what the request has received; one that does not fit makes it fail. */
  function Received(s: State, i: nat, piece: bytes): State
    requires i < |s.jobs|
    requires s.jobs[i].block in s.live && |s.live[s.jobs[i].block]| == BUFFER_SIZE
  {
    var j := s.jobs[i];
    if |j.image| + |piece| >= BUFFER_SIZE then Fail(s, i)
    else s.(live := s.live[j.block := Filled(s.live[j.block], |j.image|, piece)],
            jobs := s.jobs[i := j.(image := j.image + piece)])
  }

  /** A write at an offset of a file; a gap before it reads as zeros. */
  function Overlay(content: bytes, at: nat, chunk: bytes): bytes {
    if at <= |content| then content[..at] + chunk + content[Min(at + |chunk|, |content|)..]
    else content + seq(at - |content|, _ => 0) + chunk
  }

  /** The next chunk of a request, from the buffer to its file; a short write makes it fail. */
  function Written(s: State, i: nat, wrote: nat): State
    requires i < |s.jobs| && s.jobs[i].phase.Writing? && s.jobs[i].phase.target in s.files
    requires s.jobs[i].block in s.live && |s.live[s.jobs[i].block]| == BUFFER_SIZE
    requires s.jobs[i].phase.done <= |s.jobs[i].image| < BUFFER_SIZE
  {
    var j := s.jobs[i];
    var Writing(t, id, done) := j.phase;
    var n := Min(CHUNK, |j.image| - done);
    var chunk := s.live[j.block][done..done + Min(wrote, n)];
    s.(files := s.files[t := s.files[t].(content := Overlay(s.files[t].content, done, chunk))],
       jobs := s.jobs[i := j.(phase := if wrote >= n then Writing(t, id, done + n) else Broken)])
  }

  /** The target is created anew. */
  function Created(s: State, i: nat, t: Target): State
    requires i < |s.jobs|
  {
    s.(files := s.files[t := File(s.serial, [])], serial := s.serial + 1,
       jobs := s.jobs[i := s.jobs[i].(phase := Writing(t, s.serial, 0))])
  }

  /** The target is created, and the first chunk written. */
  function Begun(s: State, i: nat, t: Target, wrote: nat): State
    requires i < |s.jobs| && |s.jobs[i].image| < BUFFER_SIZE
    requires s.jobs[i].block in s.live && |s.live[s.jobs[i].block]| == BUFFER_SIZE
  {
    Written(Created(s, i, t), i, wrote)
  }

  /** Whatever buffer there is then is released. */
  function Left(s: State, i: nat): State
    requires i < |s.jobs|
  {
    s.(live := s.live - {s.buffer}, buffer := NULL, jobs := Without(s.jobs, i))
  }

  /** A request can end when it fails, is broken off, or has written everything. */
  predicate CanLeave(j: Job) {
    j.phase.Writing? ==> j.phase.done == |j.image|
  }

  ghost predicate JobInv(s: State, j: Job) {
    0 < j.block < s.next && |j.image| < BUFFER_SIZE &&
    (j.phase.Writing? ==> j.phase.done <= |j.image| && j.phase.target in s.files)
  }

  /** The only block there is, if any, is UploadBuffer: none is ever lost. */
  ghost predicate Inv(s: State) {
    0 <= s.buffer < s.next && s.live.Keys == (if s.buffer == NULL then {} else {s.buffer}) &&
    (forall b :: b in s.live ==> |s.live[b]| == BUFFER_SIZE) &&
    (forall t :: t in s.files ==> s.files[t].id < s.serial) &&
    forall i :: 0 <= i < |s.jobs| ==> JobInv(s, s.jobs[i])
  }

  /** Whether the event is one that the i-th request can take now. */
  predicate Takes(s: State, e: Event) {
    match e
    case Arrive(content, _) => |content| == BUFFER_SIZE
    case Receive(i, _) => i < |s.jobs| && s.jobs[i].phase.Receiving?
    case Begin(i, _, _, _, _) => i < |s.jobs| && s.jobs[i].phase.Receiving? && s.jobs[i].image != []
    case WriteNext(i, _) => i < |s.jobs| && s.jobs[i].phase.Writing? && s.jobs[i].phase.done < |s.jobs[i].image|
    case Leave(i) => i < |s.jobs| && CanLeave(s.jobs[i])
  }

  ghost function Step(s: State, e: Event): State
    requires Inv(s)
  {
    if s.stray || !Takes(s, e) then s
    else match e
      case Arrive(content, allocOk) => Arrived(s, content, allocOk)
      case Leave(i) => Left(s, i)
      case _ => Used(s, e)
  }

  /** The events that use a request's buffer. */
  ghost function Used(s: State, e: Event): State
    requires Inv(s) && Takes(s, e) && (e.Receive? || e.Begin? || e.WriteNext?)
  {
    assert JobInv(s, s.jobs[e.i]);
    if s.jobs[e.i].block !in s.live then s.(stray := true)
    else match e
      case Receive(i, piece) => Received(s, i, piece)
      case Begin(i, t, accepted, opens, wrote) =>
        if accepted && opens then Begun(s, i, t, wrote)
        else Fail(s, i)
      case WriteNext(i, wrote) => Written(s, i, wrote)
  }

  // ----- what every step keeps

  lemma ReceivedInv(s: State, i: nat, piece: bytes)
    requires Inv(s) && i < |s.jobs| && s.jobs[i].phase.Receiving? && s.jobs[i].block in s.live
    ensures Inv(Received(s, i, piece))
  {
    assert JobInv(s, s.jobs[i]);
    var s' := Received(s, i, piece);
    forall k | 0 <= k < |s'.jobs| ensures JobInv(s', s'.jobs[k]) {
      assert JobInv(s, s.jobs[k]);
    }
  }

  lemma WrittenInv(s: State, i: nat, wrote: nat)
    requires Inv(s) && i < |s.jobs| && s.jobs[i].phase.Writing? && s.jobs[i].block in s.live
    ensures JobInv(s, s.jobs[i]) && Inv(Written(s, i, wrote))
  {
    assert JobInv(s, s.jobs[i]);
    var s' := Written(s, i, wrote);
    forall k | 0 <= k < |s'.jobs| ensures JobInv(s', s'.jobs[k]) {
      assert JobInv(s, s.jobs[k]);
    }
  }

  lemma BegunInv(s: State, i: nat, t: Target, wrote: nat)
    requires Inv(s) && i < |s.jobs| && s.jobs[i].phase.Receiving? && s.jobs[i].block in s.live
    ensures JobInv(s, s.jobs[i]) && Inv(Begun(s, i, t, wrote))
  {
    assert JobInv(s, s.jobs[i]);
    var s1 := Created(s, i, t);
    forall k | 0 <= k < |s1.jobs| ensures JobInv(s1, s1.jobs[k]) {
      assert JobInv(s, s.jobs[k]);
    }
    WrittenInv(s1, i, wrote);
  }

  lemma LeftInv(s: State, i: nat)
    requires Inv(s) && i < |s.jobs|
    ensures Inv(Left(s, i))
  {
    var s' := Left(s, i);
    forall k | 0 <= k < |s'.jobs| ensures JobInv(s', s'.jobs[k]) {
      assert JobInv(s, s.jobs[if k < i then k else k + 1]);
    }
  }

  lemma StepInv(s: State, e: Event)
    requires Inv(s)
    ensures Inv(Step(s, e))
  {
    hide JobInv, Received, Written, Begun, Left;
    if !s.stray && Takes(s, e) {
      match e
      case Arrive(content, allocOk) => ArrivedInv(s, content, allocOk);
      case Leave(i) => LeftInv(s, i);
      case _ => UsedInv(s, e);
    }
  }

  lemma ArrivedInv(s: State, content: bytes, allocOk: bool)
    requires Inv(s) && |content| == BUFFER_SIZE
    ensures Inv(Arrived(s, content, allocOk))
  {
    var s' := Arrived(s, content, allocOk);
    forall k | 0 <= k < |s.jobs| ensures JobInv(s', s.jobs[k]) {
      assert JobInv(s, s.jobs[k]);
    }
  }

  lemma FailedInv(s: State, i: nat)
    requires Inv(s) && i < |s.jobs|
    ensures Inv(Fail(s, i))
  {
    var s' := Fail(s, i);
    forall k | 0 <= k < |s'.jobs| ensures JobInv(s', s'.jobs[k]) {
      assert JobInv(s, s.jobs[k]);
    }
  }

  lemma UsedInv(s: State, e: Event)
    requires Inv(s) && Takes(s, e) && (e.Receive? || e.Begin? || e.WriteNext?)
    ensures Inv(Used(s, e))
  {
    hide Received, Written, Begun;
    if s.jobs[e.i].block !in s.live {
      var s' := s.(stray := true);
      forall k | 0 <= k < |s'.jobs| ensures JobInv(s', s'.jobs[k]) {
        assert JobInv(s, s.jobs[k]);
      }
    } else {
      match e
      case Receive(i, piece) => ReceivedInv(s, i, piece);
      case Begin(i, t, accepted, opens, wrote) => BegunInv(s, i, t, wrote); FailedInv(s, i);
      case WriteNext(i, wrote) => WrittenInv(s, i, wrote);
    }
  }

  // ----- uploads that keep their bytes

  /** What a request still needs is in the shared buffer, and its file, still the one it created,
      holds exactly what it has written. */
  ghost predicate Intact(s: State, j: Job) {
    j.block == s.buffer && j.block in s.live && |j.image| < BUFFER_SIZE == |s.live[j.block]| &&
    match j.phase
    case Receiving => s.live[j.block][..|j.image|] == j.image
    case Writing(t, id, done) =>
      done <= |j.image| && s.live[j.block][done..|j.image|] == j.image[done..] &&
      t in s.files && s.files[t] == File(id, j.image[..done])
    case Broken => true
  }

  predicate SameTarget(j: Job, k: Job) {
    j.phase.Writing? && k.phase.Writing? && j.phase.target == k.phase.target
  }

  ghost predicate Good(s: State) {
    !s.stray && (forall i :: 0 <= i < |s.jobs| ==> Intact(s, s.jobs[i])) &&
    forall i, k :: 0 <= i < k < |s.jobs| ==> !SameTarget(s.jobs[i], s.jobs[k])
  }

  /** The first byte of its image that a request still needs from the buffer. */
  function NeededFrom(j: Job): nat {
    match j.phase
    case Receiving => 0
    case Writing(_, _, done) => done
    case Broken => |j.image|
  }

  /** A piece at this index of the buffer changes no byte that the request still needs. */
  predicate Spares(piece: bytes, at: nat, j: Job) {
    forall x :: at <= x < at + |piece| && NeededFrom(j) <= x < |j.image| ==> piece[x - at] == j.image[x]
  }

  /** No piece changes a byte that another request still needs, no target is opened that another
      request is writing, and no request ends while there are others. */
  predicate Quiet(s: State, e: Event) {
    Takes(s, e) ==>
      match e
      case Receive(i, piece) =>
        |s.jobs[i].image| + |piece| < BUFFER_SIZE ==>
          forall k :: 0 <= k < |s.jobs| && k != i ==> Spares(piece, |s.jobs[i].image|, s.jobs[k])
      case Begin(i, t, accepted, opens, _) =>
        accepted && opens ==>
          forall k :: 0 <= k < |s.jobs| && s.jobs[k].phase.Writing? ==> s.jobs[k].phase.target != t
      case Leave(_) => |s.jobs| == 1
      case _ => true
  }

  /** A stretch of a buffer survives a piece if and only if the piece repeats it where it falls. */
  lemma StretchIff(buf: bytes, at: nat, piece: bytes, from: nat, image: bytes)
    requires at + |piece| <= |buf| && from <= |image| <= |buf| && buf[from..|image|] == image[from..]
    ensures Filled(buf, at, piece)[from..|image|] == image[from..] <==>
            forall x :: at <= x < at + |piece| && from <= x < |image| ==> piece[x - at] == image[x]
  {
    var now := Filled(buf, at, piece);
    assert forall x :: 0 <= x < |buf| ==> now[x] == if at <= x < at + |piece| then piece[x - at] else buf[x];
    assert forall x :: from <= x < |image| ==> buf[x] == buf[from..|image|][x - from] == image[from..][x - from];
    if now[from..|image|] == image[from..] {
      forall x | at <= x < at + |piece| && from <= x < |image| ensures piece[x - at] == image[x] {
        assert now[x] == now[from..|image|][x - from] == image[from..][x - from];
      }
    }
  }

  lemma SparedIff(s: State, i: nat, piece: bytes, j: Job)
    requires Inv(s) && Intact(s, j) && i < |s.jobs| && Intact(s, s.jobs[i])
    requires |s.jobs[i].image| + |piece| < BUFFER_SIZE
    ensures Intact(Received(s, i, piece), j) <==> Spares(piece, |s.jobs[i].image|, j)
  {
    if !j.phase.Broken? {
      assert s.live[j.block][0..|j.image|] == s.live[j.block][..|j.image|];
      StretchIff(s.live[j.block], |s.jobs[i].image|, piece, NeededFrom(j), j.image);
      var now := Filled(s.live[j.block], |s.jobs[i].image|, piece);
      assert now[0..|j.image|] == now[..|j.image|] && j.image[0..] == j.image;
    }
  }

  lemma OwnPiece(s: State, i: nat, piece: bytes)
    requires Inv(s) && i < |s.jobs| && Intact(s, s.jobs[i]) && s.jobs[i].phase.Receiving?
    requires |s.jobs[i].image| + |piece| < BUFFER_SIZE
    ensures Intact(Received(s, i, piece), Received(s, i, piece).jobs[i])
  {
    var j := s.jobs[i];
    assert Filled(s.live[j.block], |j.image|, piece)[..|j.image| + |piece|] == j.image + piece;
  }

  lemma ReceivedGoodIff(s: State, i: nat, piece: bytes)
    requires Inv(s) && Good(s) && Takes(s, Receive(i, piece)) && s.jobs[i].block in s.live
    ensures Good(Received(s, i, piece)) <==> Quiet(s, Receive(i, piece))
  {
    var j, s' := s.jobs[i], Received(s, i, piece);
    hide Intact, Spares;
    if |j.image| + |piece| >= BUFFER_SIZE {
      FailGood(s, i);
    } else {
      assert Intact(s, j);
      OwnPiece(s, i, piece);
      forall k | 0 <= k < |s.jobs| && k != i
        ensures s'.jobs[k] == s.jobs[k] && (Intact(s', s'.jobs[k]) <==> Spares(piece, |j.image|, s.jobs[k]))
      {
        SparedIff(s, i, piece, s.jobs[k]);
      }
    }
  }

  lemma FailGood(s: State, i: nat)
    requires Good(s) && i < |s.jobs|
    ensures Good(Fail(s, i))
  {
    var s' := Fail(s, i);
    assert Intact(s, s.jobs[i]);
    forall k | 0 <= k < |s'.jobs| ensures Intact(s', s'.jobs[k]) {
      assert Intact(s, s.jobs[k]);
    }
  }

  /** The next bytes of a buffer that holds the rest of an image extend the file that holds its
      first part. */
  lemma ChunkOf(buf: bytes, image: bytes, done: nat, w: nat)
    requires done + w <= |image| <= |buf| && buf[done..|image|] == image[done..]
    ensures buf[done..done + w] == image[done..done + w]
    ensures Overlay(image[..done], done, buf[done..done + w]) == image[..done + w]
    ensures buf[done + w..|image|] == image[done + w..]
  {
    var rest := image[done..];
    assert buf[done..done + w] == rest[..w] == image[done..done + w];
    assert buf[done + w..|image|] == rest[w..] == image[done + w..];
    assert image[..done] + image[done..done + w] == image[..done + w];
  }

  lemma OwnChunk(s: State, i: nat, wrote: nat)
    requires i < |s.jobs| && Intact(s, s.jobs[i]) && s.jobs[i].phase.Writing?
    ensures Intact(Written(s, i, wrote), Written(s, i, wrote).jobs[i])
  {
    hide Overlay, JobInv;
    var j, s' := s.jobs[i], Written(s, i, wrote);
    var Writing(t, id, done) := j.phase;
    var n := Min(CHUNK, |j.image| - done);
    if wrote < n {
      assert s'.jobs[i].phase == Broken;
    } else {
      ChunkOf(s.live[j.block], j.image, done, n);
      assert s'.jobs[i].phase == Writing(t, id, done + n) && s'.live == s.live;
      assert s'.files[t] == File(id, j.image[..done + n]);
    }
  }

  lemma WrittenGood(s: State, i: nat, wrote: nat)
    requires Inv(s) && Good(s) && i < |s.jobs| && s.jobs[i].phase.Writing?
    ensures JobInv(s, s.jobs[i]) && s.jobs[i].block in s.live && Good(Written(s, i, wrote))
  {
    assert Intact(s, s.jobs[i]) && JobInv(s, s.jobs[i]);
    var s' := Written(s, i, wrote);
    OwnChunk(s, i, wrote);
    forall k | 0 <= k < |s'.jobs| ensures Intact(s', s'.jobs[k]) {
      if k != i {
        assert Intact(s, s.jobs[k]);
        assert !SameTarget(s.jobs[Min(i, k)], s.jobs[if i < k then k else i]);
      }
    }
    forall a, b | 0 <= a < b < |s'.jobs| ensures !SameTarget(s'.jobs[a], s'.jobs[b]) {
      assert !SameTarget(s.jobs[a], s.jobs[b]);
    }
  }

  lemma CreatedGood(s: State, i: nat, t: Target)
    requires Inv(s) && Good(s) && i < |s.jobs| && s.jobs[i].phase.Receiving?
    requires forall k :: 0 <= k < |s.jobs| && s.jobs[k].phase.Writing? ==> s.jobs[k].phase.target != t
    ensures Good(Created(s, i, t)) && Inv(Created(s, i, t))
  {
    var s' := Created(s, i, t);
    var j := s.jobs[i];
    assert Intact(s, j) && s.live[j.block][0..|j.image|] == s.live[j.block][..|j.image|];
    forall k | 0 <= k < |s'.jobs| ensures Intact(s', s'.jobs[k]) && JobInv(s', s'.jobs[k]) {
      assert Intact(s, s.jobs[k]) && JobInv(s, s.jobs[k]);
    }
    forall a, b | 0 <= a < b < |s'.jobs| ensures !SameTarget(s'.jobs[a], s'.jobs[b]) {
      assert !SameTarget(s.jobs[a], s.jobs[b]);
    }
  }

  lemma BegunGoodIff(s: State, i: nat, t: Target, wrote: nat)
    requires Inv(s) && Good(s) && Takes(s, Begin(i, t, true, true, wrote))
    ensures JobInv(s, s.jobs[i]) && s.jobs[i].block in s.live
    ensures Good(Begun(s, i, t, wrote)) <==> Quiet(s, Begin(i, t, true, true, wrote))
  {
    assert Intact(s, s.jobs[i]) && JobInv(s, s.jobs[i]);
    if Quiet(s, Begin(i, t, true, true, wrote)) {
      CreatedGood(s, i, t);
      WrittenGood(Created(s, i, t), i, wrote);
    } else {
      var k :| 0 <= k < |s.jobs| && s.jobs[k].phase.Writing? && s.jobs[k].phase.target == t;
      var s' := Begun(s, i, t, wrote);
      assert Intact(s, s.jobs[k]) && s'.jobs[k] == s.jobs[k];
      assert s'.files[t].id == s.serial != s.jobs[k].phase.id;
      assert !Intact(s', s'.jobs[k]);
    }
  }

  lemma LeftGoodIff(s: State, i: nat)
    requires Inv(s) && Good(s) && i < |s.jobs|
    ensures Good(Left(s, i)) <==> |s.jobs| == 1
  {
    var s' := Left(s, i);
    if |s.jobs| > 1 {
      var k: nat := if i == 0 then 1 else 0;
      assert Intact(s, s.jobs[k]);
      assert s'.jobs[if i == 0 then 0 else 0] == s.jobs[k];
      assert !Intact(s', s'.jobs[0]);
    }
  }

  lemma ArrivedGood(s: State, content: bytes, allocOk: bool)
    requires Inv(s) && Good(s) && |content| == BUFFER_SIZE
    ensures Good(Arrived(s, content, allocOk))
  {
    var s' := Arrived(s, content, allocOk);
    if s.jobs != [] {
      assert Intact(s, s.jobs[0]);
    }
    forall k | 0 <= k < |s'.jobs| ensures Intact(s', s'.jobs[k]) {
      if k < |s.jobs| {
        assert Intact(s, s.jobs[k]);
      }
    }
    forall a, b | 0 <= a < b < |s'.jobs| ensures !SameTarget(s'.jobs[a], s'.jobs[b]) {
      if b < |s.jobs| {
        assert !SameTarget(s.jobs[a], s.jobs[b]);
      }
    }
  }

  /** A step keeps every request its bytes and its file exactly if it is quiet. */
  lemma StepGoodIff(s: State, e: Event)
    requires Inv(s) && Good(s)
    ensures Good(Step(s, e)) <==> Quiet(s, e)
  {
    hide Intact, JobInv, Received, Written, Begun, Left, Arrived;
    if Takes(s, e) {
      match e
      case Arrive(content, allocOk) => ArrivedGood(s, content, allocOk);
      case Leave(i) => LeftGoodIff(s, i);
      case Receive(i, piece) => HasBlock(s, i); ReceivedGoodIff(s, i, piece);
      case WriteNext(i, wrote) => WrittenGood(s, i, wrote);
      case Begin(i, t, accepted, opens, wrote) =>
        HasBlock(s, i);
        FailGood(s, i);
        if accepted && opens {
          BegunGoodIff(s, i, t, wrote);
        }
    }
  }

  lemma HasBlock(s: State, i: nat)
    requires Good(s) && i < |s.jobs|
    ensures s.jobs[i].block in s.live
  {
    assert Intact(s, s.jobs[i]);
  }

  // ----- runs

  ghost predicate AlwaysGood(s: State, es: seq<Event>)
    requires Inv(s)
    decreases |es|
  {
    Good(s) && (es != [] ==> (StepInv(s, es[0]); AlwaysGood(Step(s, es[0]), es[1..])))
  }

  ghost predicate AlwaysQuiet(s: State, es: seq<Event>)
    requires Inv(s)
    decreases |es|
  {
    es != [] ==> Quiet(s, es[0]) && (StepInv(s, es[0]); AlwaysQuiet(Step(s, es[0]), es[1..]))
  }

  /** Over every run of requests, in any order of their arrivals, pieces, writes and ends: at all
      times every request finds what it needs in the buffer, and its file holds exactly what it
      has written, if and only if every step is quiet. */
  lemma {:induction false} GoodIff(s: State, es: seq<Event>)
    requires Inv(s) && Good(s)
    ensures AlwaysGood(s, es) <==> AlwaysQuiet(s, es)
    decreases |es|
  {
    if es != [] {
      StepInv(s, es[0]);
      StepGoodIff(s, es[0]);
      if Good(Step(s, es[0])) {
        GoodIff(Step(s, es[0]), es[1..]);
      } else {
        NotGoodNow(Step(s, es[0]), es[1..]);
      }
    }
  }

  lemma NotGoodNow(s: State, es: seq<Event>)
    requires Inv(s) && !Good(s)
    ensures !AlwaysGood(s, es)
  {
  }

  lemma BootGood(files: map<Target, File>, serial: nat)
    requires forall t :: t in files ==> files[t].id < serial
    ensures Inv(Boot(files, serial)) && Good(Boot(files, serial))
  {
  }

  // ----- what quiet runs do

  /** A request with a buffer and a file of its own. */
  datatype Own = Own(image: bytes, phase: OwnPhase)

  datatype OwnPhase = Getting | Putting(target: Target, done: nat) | Dead

  datatype Plain = Plain(files: map<Target, bytes>, requests: seq<Own>, buffer: bool)

  function AbsPhase(p: Phase): OwnPhase {
    match p
    case Receiving => Getting
    case Writing(t, _, done) => Putting(t, done)
    case Broken => Dead
  }

  function AbsJobs(jobs: seq<Job>): (r: seq<Own>)
    ensures |r| == |jobs| && forall i :: 0 <= i < |jobs| ==> r[i] == Own(jobs[i].image, AbsPhase(jobs[i].phase))
  {
    seq(|jobs|, i requires 0 <= i < |jobs| => Own(jobs[i].image, AbsPhase(jobs[i].phase)))
  }

  ghost function Abs(s: State): Plain {
    Plain(map t | t in s.files :: s.files[t].content, AbsJobs(s.jobs), s.buffer != NULL)
  }

  function PlainTakes(p: Plain, e: Event): bool {
    match e
    case Arrive(content, _) => |content| == BUFFER_SIZE
    case Receive(i, _) => i < |p.requests| && p.requests[i].phase.Getting?
    case Begin(i, _, _, _, _) => i < |p.requests| && p.requests[i].phase.Getting? && p.requests[i].image != []
    case WriteNext(i, _) =>
      i < |p.requests| && p.requests[i].phase.Putting? && p.requests[i].phase.done < |p.requests[i].image|
    case Leave(i) =>
      i < |p.requests| && (p.requests[i].phase.Putting? ==> p.requests[i].phase.done == |p.requests[i].image|)
  }

  /** A request puts the next chunk of its image into its file. */
  function PlainWrite(p: Plain, i: nat, t: Target, done: nat, wrote: nat): Plain
    requires i < |p.requests| && done <= |p.requests[i].image|
  {
    var r := p.requests[i];
    var n := Min(CHUNK, |r.image| - done);
    p.(files := p.files[t := r.image[..done + Min(wrote, n)]],
       requests := p.requests[i := r.(phase := if wrote >= n then Putting(t, done + n) else Dead)])
  }

  function PlainStep(p: Plain, e: Event): Plain {
    if !PlainTakes(p, e) then p
    else match e
      case Arrive(_, allocOk) =>
        if p.buffer || allocOk then p.(requests := p.requests + [Own([], Getting)], buffer := true) else p
      case Receive(i, piece) =>
        var r := p.requests[i];
        p.(requests := p.requests[i := if |r.image| + |piece| >= BUFFER_SIZE then r.(phase := Dead)
                                       else r.(image := r.image + piece)])
      case Begin(i, t, accepted, opens, wrote) =>
        if accepted && opens then PlainWrite(p, i, t, 0, wrote)
        else p.(requests := p.requests[i := p.requests[i].(phase := Dead)])
      case WriteNext(i, wrote) =>
        PlainWrite(p, i, p.requests[i].phase.target, p.requests[i].phase.done, wrote)
      case Leave(i) => p.(requests := p.requests[..i] + p.requests[i + 1..], buffer := false)
  }

  lemma WrittenRefines(s: State, i: nat, wrote: nat)
    requires Inv(s) && Good(s) && i < |s.jobs| && s.jobs[i].phase.Writing?
    ensures JobInv(s, s.jobs[i]) && s.jobs[i].block in s.live
    ensures Abs(Written(s, i, wrote)) ==
            PlainWrite(Abs(s), i, s.jobs[i].phase.target, s.jobs[i].phase.done, wrote)
  {
    assert Intact(s, s.jobs[i]) && JobInv(s, s.jobs[i]);
    var j, s' := s.jobs[i], Written(s, i, wrote);
    var Writing(t, id, done) := j.phase;
    var n := Min(CHUNK, |j.image| - done);
    var w := Min(wrote, n);
    ChunkOf(s.live[j.block], j.image, done, w);
    hide Overlay;
    var q := PlainWrite(Abs(s), i, t, done, wrote);
    assert Abs(s').files == q.files;
    assert Abs(s').requests == q.requests;
  }

  lemma CreatedThenWritten(s: State, i: nat, t: Target, wrote: nat)
    requires Inv(s) && Good(s) && i < |s.jobs| && s.jobs[i].phase.Receiving?
    requires forall k :: 0 <= k < |s.jobs| && s.jobs[k].phase.Writing? ==> s.jobs[k].phase.target != t
    ensures JobInv(s, s.jobs[i]) && s.jobs[i].block in s.live
    ensures Abs(Begun(s, i, t, wrote)) == PlainWrite(Abs(s), i, t, 0, wrote)
  {
    assert Intact(s, s.jobs[i]) && JobInv(s, s.jobs[i]);
    var s1 := Created(s, i, t);
    CreatedGood(s, i, t);
    WrittenRefines(s1, i, wrote);
    var p, q := PlainWrite(Abs(s), i, t, 0, wrote), PlainWrite(Abs(s1), i, t, 0, wrote);
    assert p.files == q.files;
    assert p.requests == q.requests;
  }

  lemma ArrivedRefines(s: State, content: bytes, allocOk: bool)
    requires |content| == BUFFER_SIZE && s.next != NULL
    ensures Abs(Arrived(s, content, allocOk)) ==
            if s.buffer != NULL || allocOk
            then Abs(s).(requests := Abs(s).requests + [Own([], Getting)], buffer := true) else Abs(s)
  {
    var s' := Arrived(s, content, allocOk);
    if s.buffer != NULL || allocOk {
      assert Abs(s').requests == Abs(s).requests + [Own([], Getting)];
    }
  }

  lemma LeftRefines(s: State, i: nat)
    requires i < |s.jobs|
    ensures var r := Abs(s).requests;
            Abs(Left(s, i)) == Abs(s).(requests := r[..i] + r[i + 1..], buffer := false)
  {
    var r := Abs(s).requests;
    assert Abs(Left(s, i)).requests == r[..i] + r[i + 1..];
  }

  lemma FailRefines(s: State, i: nat)
    requires i < |s.jobs|
    ensures var r := Abs(s).requests;
            Abs(Fail(s, i)) == Abs(s).(requests := r[i := r[i].(phase := Dead)])
  {
    var r := Abs(s).requests;
    assert Abs(Fail(s, i)).requests == r[i := r[i].(phase := Dead)];
  }

  lemma ReceivedRefines(s: State, i: nat, piece: bytes)
    requires i < |s.jobs| && s.jobs[i].block in s.live && |s.live[s.jobs[i].block]| == BUFFER_SIZE
    requires |s.jobs[i].image| + |piece| < BUFFER_SIZE
    ensures var r := Abs(s).requests;
            Abs(Received(s, i, piece)) == Abs(s).(requests := r[i := r[i].(image := r[i].image + piece)])
  {
    var r := Abs(s).requests;
    assert Abs(Received(s, i, piece)).requests == r[i := r[i].(image := r[i].image + piece)];
  }

  lemma StepRefines(s: State, e: Event)
    requires Inv(s) && Good(s) && Quiet(s, e)
    ensures Abs(Step(s, e)) == PlainStep(Abs(s), e)
  {
    hide Intact, JobInv, Written, Received, Arrived, Left, Begun, Fail, PlainWrite, Quiet;
    assert Takes(s, e) <==> PlainTakes(Abs(s), e);
    if Takes(s, e) {
      match e
      case Arrive(content, allocOk) => ArrivedRefines(s, content, allocOk);
      case Leave(i) => LeftRefines(s, i);
      case Receive(i, piece) => PieceRefines(s, i, piece);
      case WriteNext(i, wrote) => HasBlock(s, i); WrittenRefines(s, i, wrote);
      case Begin(i, t, accepted, opens, wrote) =>
        HasBlock(s, i);
        if accepted && opens {
          FreeTarget(s, i, t, wrote);
          CreatedThenWritten(s, i, t, wrote);
        } else {
          FailRefines(s, i);
        }
    }
  }

  lemma PieceRefines(s: State, i: nat, piece: bytes)
    requires Inv(s) && Good(s) && Takes(s, Receive(i, piece))
    ensures s.jobs[i].block in s.live
    ensures Abs(Received(s, i, piece)) == PlainStep(Abs(s), Receive(i, piece))
  {
    HasBlock(s, i);
    if |s.jobs[i].image| + |piece| < BUFFER_SIZE {
      ReceivedRefines(s, i, piece);
    } else {
      FailRefines(s, i);
    }
  }

  lemma FreeTarget(s: State, i: nat, t: Target, wrote: nat)
    requires Quiet(s, Begin(i, t, true, true, wrote)) && Takes(s, Begin(i, t, true, true, wrote))
    ensures forall k :: 0 <= k < |s.jobs| && s.jobs[k].phase.Writing? ==> s.jobs[k].phase.target != t
  {
  }

  ghost function Run(s: State, es: seq<Event>): (r: State)
    requires Inv(s)
    ensures Inv(r)
    decreases |es|
  {
    if es == [] then s else (StepInv(s, es[0]); Run(Step(s, es[0]), es[1..]))
  }

  function PlainRun(p: Plain, es: seq<Event>): Plain
    decreases |es|
  {
    if es == [] then p else PlainRun(PlainStep(p, es[0]), es[1..])
  }

  /** Over every quiet run, files and requests are those of requests that each have a buffer of
      their own: in particular the file of each request that has written everything is exactly
      what it received. */
  lemma {:induction false} QuietRunsArePrivate(s: State, es: seq<Event>)
    requires Inv(s) && Good(s) && AlwaysQuiet(s, es)
    ensures Good(Run(s, es)) && Abs(Run(s, es)) == PlainRun(Abs(s), es)
    decreases |es|
  {
    if es != [] {
      StepInv(s, es[0]);
      StepGoodIff(s, es[0]);
      StepRefines(s, es[0]);
      QuietRunsArePrivate(Step(s, es[0]), es[1..]);
    }
  }

  /** A request that can end after writing leaves exactly its image in its file. */
  lemma Lossless(s: State, i: nat)
    requires Good(s) && i < |s.jobs| && s.jobs[i].phase.Writing? && CanLeave(s.jobs[i])
    ensures s.jobs[i].phase.target in s.files
    ensures s.files[s.jobs[i].phase.target].content == s.jobs[i].image
  {
    assert Intact(s, s.jobs[i]);
    assert s.jobs[i].image[..|s.jobs[i].image|] == s.jobs[i].image;
  }

  /** Requests that come one at a time are always quiet. */
  lemma OneIsQuiet(s: State, e: Event)
    requires |s.jobs| <= 1
    ensures Quiet(s, e)
  {
  }

  /** Between two writes of a firmware upload with a whole header, the name and version cached from
      it agree with what its file has got so far. */
  lemma CacheAgreesMeanwhile(s: State, i: nat, slot: FwCache.Slot)
    requires Good(s) && i < |s.jobs| && s.jobs[i].phase.Writing?
    requires Xbin.HEADER_SIZE <= |s.jobs[i].image| && s.jobs[i].phase.done >= Min(CHUNK, |s.jobs[i].image|)
    ensures s.jobs[i].phase.target in s.files
    ensures var cached := FwCache.AfterUpload(slot, s.jobs[i].image, Some(s.jobs[i].phase.done));
            cached.file == Some(s.files[s.jobs[i].phase.target].content) && FwCache.Agrees(cached)
  {
    assert Intact(s, s.jobs[i]);
    FwCache.UploadAgreesIff(slot, s.jobs[i].image, Some(s.jobs[i].phase.done));
  }

  /** A request whose data does not fit into 2 MB fails; any other piece is kept. */
  lemma PieceMeans(s: State, i: nat, piece: bytes)
    requires Inv(s) && Good(s) && Takes(s, Receive(i, piece))
    ensures var j, s' := s.jobs[i], Step(s, Receive(i, piece));
            s'.jobs == s.jobs[i := if |j.image| + |piece| < 0x20_0000 then j.(image := j.image + piece)
                                   else j.(phase := Broken)]
  {
    HasBlock(s, i);
  }

  /** A chunk is what is left of the image, but at most 4096 bytes. */
  lemma ChunkMeans(s: State, i: nat, wrote: nat)
    requires Inv(s) && Good(s) && Takes(s, WriteNext(i, wrote))
    ensures var j, s' := s.jobs[i], Step(s, WriteNext(i, wrote));
            var n := Min(4096, |j.image| - j.phase.done);
            j.phase.target in s'.files &&
            s'.files[j.phase.target].content == j.image[..j.phase.done + Min(wrote, n)] &&
            s'.jobs == s.jobs[i := j.(phase := if wrote < n then Broken
                                               else Writing(j.phase.target, j.phase.id, j.phase.done + n))]
  {
    HasBlock(s, i);
    WrittenRefines(s, i, wrote);
    ContentsOf(Step(s, WriteNext(i, wrote)), s.jobs[i].phase.target);
  }

  lemma ContentsOf(s: State, t: Target)
    requires t in s.files
    ensures t in Abs(s).files && Abs(s).files[t] == s.files[t].content
  {
  }

  /** A request whose image is refused, or whose file does not open, fails and touches no file. */
  lemma RefusedMeans(s: State, i: nat, t: Target, accepted: bool, opens: bool, wrote: nat)
    requires Inv(s) && Good(s) && Takes(s, Begin(i, t, accepted, opens, wrote)) && !(accepted && opens)
    ensures Step(s, Begin(i, t, accepted, opens, wrote)) == s.(jobs := s.jobs[i := s.jobs[i].(phase := Broken)])
  {
    HasBlock(s, i);
  }

  /** A write at an offset changes exactly the bytes from there on, and fills a gap with zeros. */
  lemma OverlayMeans(content: bytes, at: nat, chunk: bytes, x: nat)
    ensures chunk != [] || at <= |content| ==>
              |Overlay(content, at, chunk)| == if at + |chunk| < |content| then |content| else at + |chunk|
    ensures x < |Overlay(content, at, chunk)| ==>
              Overlay(content, at, chunk)[x] ==
              if at <= x < at + |chunk| then chunk[x - at] else if x < |content| then content[x] else 0
  {
  }

  // ----- two uploads at once

  lemma {:induction false} RunAppend(s: State, xs: seq<Event>, ys: seq<Event>)
    requires Inv(s)
    ensures Run(s, xs + ys) == Run(Run(s, xs), ys)
    decreases |xs|
  {
    if xs == [] {
      assert xs + ys == ys;
    } else {
      StepInv(s, xs[0]);
      assert (xs + ys)[1..] == xs[1..] + ys;
      RunAppend(Step(s, xs[0]), xs[1..], ys);
    }
  }

  lemma RunOne(s: State, e: Event)
    requires Inv(s)
    ensures Inv(Step(s, e)) && Run(s, [e]) == Step(s, e)
  {
    StepInv(s, e);
    assert [e][1..] == [];
  }

  lemma RunTwo(s: State, a: Event, b: Event)
    requires Inv(s)
    ensures Inv(Step(s, a)) && Run(s, [a, b]) == Step(Step(s, a), b)
  {
    RunOne(s, a);
    RunOne(Step(s, a), b);
    assert [a, b] == [a] + [b];
    RunAppend(s, [a], [b]);
  }

  /** One request with two chunks has written the first. */
  function HalfWritten(c: bytes, x: bytes, t: Target): State
    requires |c| == BUFFER_SIZE && |x| == 2 * CHUNK
  {
    State(map[1 := Filled(c, 0, x)], 2, 1, map[t := File(0, x[..CHUNK])], 1, [Job(1, x, Writing(t, 0, CHUNK))], false)
  }

  const EMPTY_CARD: map<Target, File> := map[]

  lemma HalfWrittenRuns(c: bytes, x: bytes, t: Target)
    requires |c| == BUFFER_SIZE && |x| == 2 * CHUNK
    ensures Inv(Boot(EMPTY_CARD, 0)) && Inv(HalfWritten(c, x, t))
    ensures Run(Boot(EMPTY_CARD, 0), [Arrive(c, true), Receive(0, x)] + [Begin(0, t, true, true, CHUNK)]) ==
            HalfWritten(c, x, t)
  {
    var s0 := Boot(EMPTY_CARD, 0);
    BootGood(EMPTY_CARD, 0);
    RunTwo(s0, Arrive(c, true), Receive(0, x));
    var s2 := State(map[1 := Filled(c, 0, x)], 2, 1, EMPTY_CARD, 0, [Job(1, x, Receiving)], false);
    var s1 := State(map[1 := c], 2, 1, EMPTY_CARD, 0, [Job(1, [], Receiving)], false);
    assert Step(s0, Arrive(c, true)) == s1;
    assert [] + x == x;
    assert Step(s1, Receive(0, x)) == s2;
    RunAppend(s0, [Arrive(c, true), Receive(0, x)], [Begin(0, t, true, true, CHUNK)]);
    RunOne(s2, Begin(0, t, true, true, CHUNK));
    FirstChunk(c, x, t);
  }

  lemma FirstChunk(c: bytes, x: bytes, t: Target)
    requires |c| == BUFFER_SIZE && |x| == 2 * CHUNK
    ensures var s2 := State(map[1 := Filled(c, 0, x)], 2, 1, EMPTY_CARD, 0, [Job(1, x, Receiving)], false);
            Inv(s2) && Step(s2, Begin(0, t, true, true, CHUNK)) == HalfWritten(c, x, t)
  {
    var s2 := State(map[1 := Filled(c, 0, x)], 2, 1, EMPTY_CARD, 0, [Job(1, x, Receiving)], false);
    assert JobInv(s2, s2.jobs[0]);
    assert Filled(c, 0, x)[0..CHUNK] == x[..CHUNK];
    assert Overlay([], 0, x[..CHUNK]) == x[..CHUNK];
  }

  /** A second request has received another image into the same buffer. */
  function WithSecond(c: bytes, x: bytes, y: bytes, t: Target): State
    requires |c| == BUFFER_SIZE && |x| == 2 * CHUNK && |y| <= 2 * CHUNK
  {
    HalfWritten(c, x, t).(live := map[1 := Filled(Filled(c, 0, x), 0, y)],
                          jobs := [Job(1, x, Writing(t, 0, CHUNK)), Job(1, y, Receiving)])
  }

  lemma SecondArrives(c: bytes, x: bytes, y: bytes, t: Target)
    requires |c| == BUFFER_SIZE && |x| == 2 * CHUNK && |y| <= 2 * CHUNK
    ensures Inv(HalfWritten(c, x, t)) && Inv(WithSecond(c, x, y, t))
    ensures Run(HalfWritten(c, x, t), [Arrive(c, true), Receive(1, y)]) == WithSecond(c, x, y, t)
  {
    hide Filled, Run;
    var s := HalfWritten(c, x, t);
    HalfWrittenRuns(c, x, t);
    RunTwo(s, Arrive(c, true), Receive(1, y));
    var s1 := s.(jobs := s.jobs + [Job(1, [], Receiving)]);
    assert Step(s, Arrive(c, true)) == s1;
    assert s1.jobs == [s.jobs[0], Job(1, [], Receiving)] && [] + y == y;
    var s2 := Step(s1, Receive(1, y));
    assert s2.jobs == WithSecond(c, x, y, t).jobs;
    assert s2.live == s1.live[1 := Filled(Filled(c, 0, x), 0, y)] == WithSecond(c, x, y, t).live;
    StepInv(s1, Receive(1, y));
  }

  /** The first request's second chunk: whatever is in the buffer lands at its own offset. */
  lemma FirstGoesOn(s: State, x: bytes, t: Target)
    requires Inv(s) && !s.stray && s.jobs != [] && s.jobs[0] == Job(1, x, Writing(t, 0, CHUNK)) && 1 in s.live
    requires |x| == 2 * CHUNK && t in s.files
    ensures |s.live[1]| == BUFFER_SIZE
    ensures var s' := Step(s, WriteNext(0, CHUNK));
            s'.jobs == s.jobs[0 := Job(1, x, Writing(t, 0, 2 * CHUNK))] && t in s'.files &&
            s'.files[t].content == Overlay(s.files[t].content, CHUNK, s.live[1][CHUNK..2 * CHUNK])
  {
    hide Overlay;
    assert JobInv(s, s.jobs[0]);
  }

  lemma SecondChunk(c: bytes, x: bytes, y: bytes)
    requires |c| == BUFFER_SIZE && |x| == 2 * CHUNK && |y| <= 2 * CHUNK
    ensures var buf := Filled(Filled(c, 0, x), 0, y);
            (|y| == 2 * CHUNK ==> buf[CHUNK..2 * CHUNK] == y[CHUNK..]) &&
            (|y| <= CHUNK ==> buf[CHUNK..2 * CHUNK] == x[CHUNK..]) && y <= buf
  {
  }

  /** While the first request writes, a second one receives another image into the same buffer; the
      first goes on with the other image's bytes, and reports success. */
  lemma SharedBuffer(c: bytes, x: bytes, y: bytes, t: Target)
    requires |c| == BUFFER_SIZE && |x| == |y| == 2 * CHUNK && x[CHUNK..] != y[CHUNK..]
    ensures Inv(HalfWritten(c, x, t))
    ensures var s := Run(HalfWritten(c, x, t), [Arrive(c, true), Receive(1, y)] + [WriteNext(0, CHUNK)]);
            s.jobs == [Job(1, x, Writing(t, 0, 2 * CHUNK)), Job(1, y, Receiving)] &&
            CanLeave(s.jobs[0]) && t in s.files &&
            s.files[t].content == x[..CHUNK] + y[CHUNK..] != x
  {
    hide Run, Filled, Step;
    var s2 := WithSecond(c, x, y, t);
    SecondArrives(c, x, y, t);
    RunAppend(HalfWritten(c, x, t), [Arrive(c, true), Receive(1, y)], [WriteNext(0, CHUNK)]);
    RunOne(s2, WriteNext(0, CHUNK));
    FirstGoesOn(s2, x, t);
    SecondChunk(c, x, y);
    assert s2.jobs[0 := Job(1, x, Writing(t, 0, 2 * CHUNK))] ==
           [Job(1, x, Writing(t, 0, 2 * CHUNK)), Job(1, y, Receiving)];
    assert Overlay(x[..CHUNK], CHUNK, y[CHUNK..]) == x[..CHUNK] + y[CHUNK..];
    assert (x[..CHUNK] + y[CHUNK..])[CHUNK..] == y[CHUNK..];
  }

  /** A second, short upload to the same slot needs no byte that the first still needs. It creates
      the file anew and succeeds; then the first goes on at its own offset, and succeeds too. */
  lemma SameSlot(c: bytes, x: bytes, y: bytes, t: Target)
    requires |c| == BUFFER_SIZE && |x| == 2 * CHUNK && 0 < |y| < CHUNK
    ensures Inv(HalfWritten(c, x, t))
    ensures var s := Run(HalfWritten(c, x, t), [Arrive(c, true), Receive(1, y)] +
                                               [Begin(1, t, true, true, CHUNK), WriteNext(0, CHUNK)]);
            s.jobs == [Job(1, x, Writing(t, 0, 2 * CHUNK)), Job(1, y, Writing(t, 1, |y|))] &&
            CanLeave(s.jobs[0]) && CanLeave(s.jobs[1]) && t in s.files &&
            s.files[t].content == y + seq(CHUNK - |y|, _ => 0) + x[CHUNK..]
  {
    hide Run, Filled, Step;
    var s2 := WithSecond(c, x, y, t);
    var last := [Begin(1, t, true, true, CHUNK), WriteNext(0, CHUNK)];
    SecondArrives(c, x, y, t);
    SecondChunk(c, x, y);
    RunAppend(HalfWritten(c, x, t), [Arrive(c, true), Receive(1, y)], last);
    RunTwo(s2, last[0], last[1]);
    SecondCreates(s2, y, t);
    var s3 := Step(s2, last[0]);
    FirstGoesOn(s3, x, t);
    assert s3.jobs[0 := Job(1, x, Writing(t, 0, 2 * CHUNK))] ==
           [Job(1, x, Writing(t, 0, 2 * CHUNK)), Job(1, y, Writing(t, 1, |y|))];
  }

  lemma SecondCreates(s: State, y: bytes, t: Target)
    requires Inv(s) && !s.stray && |s.jobs| == 2 && s.jobs[1] == Job(1, y, Receiving) && 1 in s.live
    requires 0 < |y| < CHUNK && y <= s.live[1]
    ensures Step(s, Begin(1, t, true, true, CHUNK)) ==
            s.(files := s.files[t := File(s.serial, y)], serial := s.serial + 1,
               jobs := [s.jobs[0], Job(1, y, Writing(t, s.serial, |y|))])
  {
    assert JobInv(s, s.jobs[1]);
    hide Filled, Received, Arrived, Left, Intact, JobInv;
    assert s.live[1][0..|y|] == y;
    assert Overlay([], 0, y) == y;
  }

  lemma TwoArrive(c: bytes)
    requires |c| == BUFFER_SIZE
    ensures Inv(Boot(EMPTY_CARD, 0))
    ensures var s := State(map[1 := c], 2, 1, EMPTY_CARD, 0, [Job(1, [], Receiving), Job(1, [], Receiving)], false);
            Inv(s) && Run(Boot(EMPTY_CARD, 0), [Arrive(c, true), Arrive(c, true)]) == s
  {
    hide Run;
    var s0 := Boot(EMPTY_CARD, 0);
    BootGood(EMPTY_CARD, 0);
    RunTwo(s0, Arrive(c, true), Arrive(c, true));
    StepInv(Step(s0, Arrive(c, true)), Arrive(c, true));
  }

  /** The first request that ends takes the buffer of the others with it. */
  lemma ReleasedBuffer(c: bytes, piece: bytes)
    requires |c| == BUFFER_SIZE
    ensures Inv(Boot(EMPTY_CARD, 0))
    ensures Run(Boot(EMPTY_CARD, 0), [Arrive(c, true), Arrive(c, true)] + [Leave(0), Receive(0, piece)]).stray
  {
    hide Run, Received;
    var s2 := State(map[1 := c], 2, 1, EMPTY_CARD, 0, [Job(1, [], Receiving), Job(1, [], Receiving)], false);
    TwoArrive(c);
    RunAppend(Boot(EMPTY_CARD, 0), [Arrive(c, true), Arrive(c, true)], [Leave(0), Receive(0, piece)]);
    RunTwo(s2, Leave(0), Receive(0, piece));
    var s3 := Step(s2, Leave(0));
    assert s3.jobs == [Job(1, [], Receiving)] && 1 !in s3.live;
  }

  // ----- the operations

  class Server {
    var live: map<Block, bytes>
    var next: Block
    var buffer: Block
    var files: map<Target, File>
    var serial: nat
    var jobs: seq<Job>       // the requests' own variables, each at the start of its next step

    function Now(): State
      reads this
    {
      State(live, next, buffer, files, serial, jobs, false)
    }

    constructor (files: map<Target, File>, serial: nat)
      ensures Now() == Boot(files, serial)
    {
      live, next, buffer, this.files, this.serial, jobs := map[], 1, NULL, files, serial, [];
    }

    /** A request comes in; None if there is no memory for the buffer. */
    method NewRequest(content: bytes, allocOk: bool) returns (i: Option<nat>)
      requires Inv(Now()) && |content| == BUFFER_SIZE
      modifies this
      ensures Inv(Now()) && Now() == Step(old(Now()), Arrive(content, allocOk))
      ensures i == if old(buffer) == NULL && !allocOk then None else Some(|old(jobs)|)
    {
      StepInv(Now(), Arrive(content, allocOk));
      if buffer == NULL {
        if !allocOk { return None; }
        live, buffer, next := live[next := content], next, next + 1;
      }
      i := Some(|jobs|);
      jobs := jobs + [Job(buffer, [], Receiving)];
    }

    /** A piece of the i-th request's data. */
    method Take(i: nat, piece: bytes)
      requires Inv(Now()) && Takes(Now(), Receive(i, piece)) && jobs[i].block in live
      modifies this`live, this`jobs
      ensures Inv(Now()) && Now() == Step(old(Now()), Receive(i, piece))
    {
      StepInv(Now(), Receive(i, piece));
      var j := jobs[i];
      if |j.image| + |piece| < BUFFER_SIZE {
        live := live[j.block := Filled(live[j.block], |j.image|, piece)];
        jobs := jobs[i := j.(image := j.image + piece)];
      } else {
        jobs := jobs[i := j.(phase := Broken)];
      }
    }

    /** The image is checked in the buffer, its file created, and the first chunk written. */
    method Store(i: nat, t: Target, check: bytes -> nat, opens: bool, wrote: nat)
      requires Inv(Now()) && i < |jobs| && jobs[i].block in live
      requires jobs[i].phase.Receiving? && jobs[i].image != []
      modifies this`files, this`serial, this`jobs
      ensures Inv(Now())
      ensures Now() == Step(old(Now()), Begin(i, t, old(check(live[jobs[i].block])) == 0, opens, wrote))
    {
      ghost var e := Begin(i, t, check(live[jobs[i].block]) == 0, opens, wrote);
      StepInv(Now(), e);
      assert JobInv(Now(), jobs[i]);
      var accepted := check(live[jobs[i].block]) == 0;
      if accepted && opens {
        files := files[t := File(serial, [])];
        jobs := jobs[i := jobs[i].(phase := Writing(t, serial, 0))];
        serial := serial + 1;
        WriteChunk(i, wrote);
      } else {
        jobs := jobs[i := jobs[i].(phase := Broken)];
      }
    }

    /** One round of the write loop. */
    method WriteChunk(i: nat, wrote: nat)
      requires i < |jobs| && jobs[i].block in live && |live[jobs[i].block]| == BUFFER_SIZE
      requires jobs[i].phase.Writing? && jobs[i].phase.target in files
      requires jobs[i].phase.done <= |jobs[i].image| < BUFFER_SIZE
      modifies this`files, this`jobs
      ensures Now() == Written(old(Now()), i, wrote)
    {
      var j := jobs[i];
      var Writing(t, id, done) := j.phase;
      var writeSize := Min(|j.image| - done, CHUNK);
      var writeCount := Min(wrote, writeSize);
      var chunk := live[j.block][done..done + writeCount];
      files := files[t := files[t].(content := Overlay(files[t].content, done, chunk))];
      if writeCount != writeSize {
        jobs := jobs[i := j.(phase := Broken)];
      } else {
        jobs := jobs[i := j.(phase := Writing(t, id, done + writeSize))];
      }
    }

    /** The buffer is released, whoever else uses it. */
    method End(i: nat)
      requires Inv(Now()) && i < |jobs| && CanLeave(jobs[i])
      modifies this
      ensures Inv(Now()) && Now() == Step(old(Now()), Leave(i))
    {
      StepInv(Now(), Leave(i));
      jobs := Without(jobs, i);
      live, buffer := live - {buffer}, NULL;
    }
  }
}
