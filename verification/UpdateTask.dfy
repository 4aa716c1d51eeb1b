/** The interleaving of web requests with the task that writes an uploaded chain to the card.
    The scheduler is cooperative: a task runs until it calls the operating system. The update
    task does so in its two delays, so it has three steps: up to the first delay; from measuring
    the buffer to the second delay or its exit; and the reboot. A request has no such call
    between its parsed text and the stored chain, so it is one step too. Power can fail at any
    time, and then while chain.crt is written its directory entry can be left empty. */
module UpdateTask {
  import opened Bytes
  import opened CString
  import opened Chain
  import CertStore

  datatype Phase =
    | Started
    | Waiting   // the result is reset, the first delay runs
    | Written   // chain.crt is written, the delay before the reboot runs

  datatype State = State(buf: bytes, startDone: bool, tasks: seq<Phase>, result: int, chain: Option<bytes>)

  datatype Event =
    | NewCrt(text: bytes)
    | Update
    | Task(i: nat, openOk: bool)   // the i-th task runs its next step
    | PowerFails(writing: bool)    // possibly after chain.crt was created and before it was closed

  /** nUpdateResult: 1 until an update has ended. */
  const PENDING := 1

  function Boot(chain: Option<bytes>): State {
    State(seq(NEW_CRT_SIZE, _ => 0), false, [], PENDING, chain)
  }

  function Without(tasks: seq<Phase>, i: nat): (r: seq<Phase>)
    requires i < |tasks|
    ensures |r| == |tasks| - 1
  {
    tasks[..i] + tasks[i + 1..]
  }

  /** cert_Write_ChainCert with the buffer's string; a file that does not open ends the task. */
  function Save(s: State, i: nat, openOk: bool): State
    requires i < |s.tasks|
  {
    if openOk
    then s.(tasks := s.tasks[i := Written], result := 0, chain := Some(s.buf[..StrLen(s.buf)]))
    else s.(tasks := Without(s.tasks, i), result := -1, startDone := false)
  }

  function TaskStep(s: State, i: nat, openOk: bool): State
    requires i < |s.tasks|
  {
    match s.tasks[i]
    case Started => s.(tasks := s.tasks[i := Waiting], result := PENDING)
    case Waiting => Save(s, i, openOk)
    case Written => Boot(s.chain)
  }

  function Step(s: State, e: Event, x: X509): State
    requires |s.buf| == NEW_CRT_SIZE
  {
    match e
    case NewCrt(text) => s.(buf := AfterRequest(s.buf, CStr(text), x))
    case Update => if s.startDone then s else s.(startDone := true, tasks := s.tasks + [Started])
    case Task(i, openOk) => if i < |s.tasks| then TaskStep(s, i, openOk) else s
    case PowerFails(writing) => Boot(if writing && Waiting in s.tasks then Some([]) else s.chain)
  }

  // ----- what every step keeps

  ghost predicate Inv(s: State, x: X509) {
    |s.buf| == NEW_CRT_SIZE &&
    (CStr(s.buf) == [] || Acceptable(CStr(s.buf), x)) &&
    |s.tasks| == (if s.startDone then 1 else 0) &&
    (s.result == 0 <==> s.tasks == [Written])
  }

  lemma BootInv(chain: Option<bytes>, x: X509)
    ensures Inv(Boot(chain), x) && CStr(Boot(chain).buf) == []
  {
    StrLenIs(Boot(chain).buf, 0);
  }

  /** Every step of requests, tasks and power cuts keeps the invariant. */
  lemma StepInv(s: State, e: Event, x: X509)
    requires Inv(s, x)
    ensures Inv(Step(s, e, x), x)
  {
    hide Acceptable, CStr, AfterRequest;
    match e
    case NewCrt(text) => TextHasNoNul(text); RequestKeepsAcceptable(s.buf, CStr(text), x);
    case Update => assert s.tasks == [] ==> (s.tasks + [Started])[0] == Started;
    case PowerFails(_) => BootInv(Step(s, e, x).chain, x);
    case Task(i, openOk) =>
      if i < |s.tasks| && s.tasks[i] == Written {
        BootInv(s.chain, x);
      }
  }

  lemma TextHasNoNul(text: bytes)
    ensures forall i :: 0 <= i < |CStr(text)| ==> CStr(text)[i] != 0
  {
  }

  // ----- runs

  ghost function Run(s: State, es: seq<Event>, x: X509): State
    requires Inv(s, x)
    ensures Inv(Run(s, es, x), x)
    decreases |es|
  {
    if es == [] then s
    else
      StepInv(s, es[0], x);
      Run(Step(s, es[0], x), es[1..], x)
  }

  // ----- what the machine does, without buffer and flags

  /** The last chain that was kept since the start (empty if there was none), and the one task. */
  datatype Plain = Plain(latest: bytes, task: Option<Phase>, result: int, chain: Option<bytes>)

  function PlainBoot(chain: Option<bytes>): Plain {
    Plain([], None, PENDING, chain)
  }

  function PlainTaskStep(p: Plain, openOk: bool): Plain {
    match p.task
    case None => p
    case Some(Started) => p.(task := Some(Waiting), result := PENDING)
    case Some(Waiting) =>
      if openOk then p.(task := Some(Written), result := 0, chain := Some(p.latest))
      else p.(task := None, result := -1)
    case Some(Written) => PlainBoot(p.chain)
  }

  function PlainStep(p: Plain, e: Event, x: X509): Plain {
    match e
    case NewCrt(text) =>
      if CStr(text) == [] then p
      else (match Kept(CrLf(CStr(text)), x) case Some(c) => p.(latest := c) case None => p)
    case Update => if p.task == None then p.(task := Some(Started)) else p
    case Task(i, openOk) =>
      if i != 0 then p
      else PlainTaskStep(p, openOk)
    case PowerFails(writing) => PlainBoot(if writing && p.task == Some(Waiting) then Some([]) else p.chain)
  }

  function PlainRun(p: Plain, es: seq<Event>, x: X509): Plain
    decreases |es|
  {
    if es == [] then p else PlainRun(PlainStep(p, es[0], x), es[1..], x)
  }

  ghost function Abs(s: State): Plain {
    Plain(CStr(s.buf), if s.tasks == [] then None else Some(s.tasks[0]), s.result, s.chain)
  }

  lemma RequestRefines(buf: bytes, text: bytes, x: X509)
    requires |buf| == NEW_CRT_SIZE
    ensures CStr(AfterRequest(buf, CStr(text), x)) ==
            if CStr(text) == [] then CStr(buf)
            else match Kept(CrLf(CStr(text)), x) case Some(c) => c case None => CStr(buf)
  {
    var s := CStr(text);
    TextHasNoNul(text);
    NoNulAppears(s);
    if s != [] && Kept(CrLf(s), x).Some? {
      var c := Kept(CrLf(s), x).value;
      KeptIff(CrLf(s), x, c);
      StoredReads(buf, c);
    }
  }

  lemma StepRefines(s: State, e: Event, x: X509)
    requires Inv(s, x)
    ensures Abs(Step(s, e, x)) == PlainStep(Abs(s), e, x)
  {
    match e
    case NewCrt(text) => RequestRefines(s.buf, text, x);
    case Update =>
    case PowerFails(writing) =>
      BootInv(Step(s, e, x).chain, x);
      assert Waiting in s.tasks <==> Abs(s).task == Some(Waiting);
    case Task(i, openOk) =>
      if i < |s.tasks| && s.tasks[i] == Written {
        BootInv(s.chain, x);
      }
  }

  /** Over every run the machine with its buffer, flag and any number of tasks does what the
      machine with one optional task and the last kept chain does. */
  lemma {:induction false} RunRefines(s: State, es: seq<Event>, x: X509)
    requires Inv(s, x)
    ensures Abs(Run(s, es, x)) == PlainRun(Abs(s), es, x)
    decreases |es|
  {
    if es != [] {
      StepInv(s, es[0], x);
      StepRefines(s, es[0], x);
      RunRefines(Step(s, es[0], x), es[1..], x);
    }
  }

  // ----- what is on the card

  ghost predicate ContentOk(c: bytes, x: X509) {
    c == [] || Acceptable(c, x)
  }

  /** chain.crt is as it was, or empty, or an acceptable chain. */
  ghost predicate ChainOk(s: State, was: Option<bytes>, x: X509) {
    s.chain == was || (s.chain.Some? && ContentOk(s.chain.value, x))
  }

  lemma NulIsNotAcceptable(w: bytes, n: nat, x: X509)
    requires n < |w| && w[n] == 0
    ensures !Acceptable(w, x)
  {
  }

  /** Writing the first `len` bytes of a buffer that holds an acceptable chain or nothing gives
      an acceptable chain or nothing exactly when `len` is 0 or the length of the string the
      buffer holds at that moment: measuring and writing must be one step. */
  lemma WriteIff(buf: bytes, len: nat, x: X509)
    requires len < |buf| && StrLen(buf) < |buf| && ContentOk(CStr(buf), x)
    ensures ContentOk(buf[..len], x) <==> len == 0 || len == StrLen(buf)
  {
    hide Acceptable, StrLen;
    var n := StrLen(buf);
    var c, w := CStr(buf), buf[..len];
    if len == n {
      assert w == c;
    } else if 0 < len < n {
      assert w == c[..len];
      AcceptablePrefix(c, len, x);
    } else if len > n {
      NulIsNotAcceptable(w, n, x);
    }
  }

  /** Over every run from power-up: the buffer's string is empty or an acceptable chain, at most
      one task is alive and the start flag tells whether one is, the result reads 0 exactly
      while a task that has written waits for the reboot, and chain.crt is what it was at
      power-up, or empty, or an acceptable chain. */
  lemma RunsAreSafe(chain: Option<bytes>, es: seq<Event>, x: X509)
    ensures Inv(Boot(chain), x)
    ensures var s := Run(Boot(chain), es, x);
            ContentOk(CStr(s.buf), x) && |s.tasks| <= 1 && (s.startDone <==> |s.tasks| == 1) &&
            (s.result == 0 <==> Written in s.tasks) && ChainOk(s, chain, x)
  {
    hide Acceptable, CStr;
    BootInv(chain, x);
    ChainStaysOk(Boot(chain), chain, es, x);
  }

  lemma StepChainOk(s: State, was: Option<bytes>, e: Event, x: X509)
    requires Inv(s, x) && ChainOk(s, was, x)
    ensures ChainOk(Step(s, e, x), was, x)
  {
    hide Acceptable, AfterRequest;
    if e.Task? && e.i < |s.tasks| && s.tasks[e.i] == Waiting {
      assert s.buf[..StrLen(s.buf)] == CStr(s.buf);
    }
  }

  lemma {:induction false} ChainStaysOk(s: State, was: Option<bytes>, es: seq<Event>, x: X509)
    requires Inv(s, x) && ChainOk(s, was, x)
    ensures ChainOk(Run(s, es, x), was, x)
    decreases |es|
  {
    if es != [] {
      StepInv(s, es[0], x);
      StepChainOk(s, was, es[0], x);
      ChainStaysOk(Step(s, es[0], x), was, es[1..], x);
    }
  }

  // ----- when chain.crt is emptied

  /** An update is written although nothing has been kept since the start, or power fails inside
      a write. */
  predicate Empties(s: State, e: Event) {
    match e
    case Task(i, openOk) => openOk && i < |s.tasks| && s.tasks[i] == Waiting && CStr(s.buf) == []
    case PowerFails(writing) => writing && Waiting in s.tasks
    case _ => false
  }

  /** chain.crt is as it was, or a whole acceptable chain. */
  ghost predicate WholeChain(s: State, was: Option<bytes>, x: X509) {
    s.chain == was || (s.chain.Some? && Acceptable(s.chain.value, x))
  }

  lemma EmptyIsNotAcceptable(x: X509)
    ensures !Acceptable([], x)
  {
  }

  lemma StepWholeIff(s: State, was: Option<bytes>, e: Event, x: X509)
    requires Inv(s, x) && WholeChain(s, was, x) && was != Some([])
    ensures WholeChain(Step(s, e, x), was, x) <==> !Empties(s, e)
  {
    hide Acceptable, AfterRequest;
    EmptyIsNotAcceptable(x);
    if e.Task? && e.i < |s.tasks| && s.tasks[e.i] == Waiting {
      assert s.buf[..StrLen(s.buf)] == CStr(s.buf);
    }
  }

  ghost predicate AlwaysWhole(s: State, was: Option<bytes>, es: seq<Event>, x: X509)
    requires Inv(s, x)
    decreases |es|
  {
    WholeChain(s, was, x) && (es != [] ==> (StepInv(s, es[0], x); AlwaysWhole(Step(s, es[0], x), was, es[1..], x)))
  }

  ghost predicate NeverEmpties(s: State, es: seq<Event>, x: X509)
    requires Inv(s, x)
    decreases |es|
  {
    es != [] ==> !Empties(s, es[0]) && (StepInv(s, es[0], x); NeverEmpties(Step(s, es[0], x), es[1..], x))
  }

  /** Over every run, from a card whose chain.crt is not empty: it is at all times what it was, or
      a whole acceptable chain, if and only if no update is written with nothing kept and power
      never fails inside a write. */
  lemma {:induction false} WholeIff(s: State, was: Option<bytes>, es: seq<Event>, x: X509)
    requires Inv(s, x) && WholeChain(s, was, x) && was != Some([])
    ensures AlwaysWhole(s, was, es, x) <==> NeverEmpties(s, es, x)
    decreases |es|
  {
    if es != [] {
      StepInv(s, es[0], x);
      StepWholeIff(s, was, es[0], x);
      if WholeChain(Step(s, es[0], x), was, x) {
        WholeIff(Step(s, es[0], x), was, es[1..], x);
      } else {
        NotWholeNow(Step(s, es[0], x), was, es[1..], x);
      }
    }
  }

  lemma NotWholeNow(s: State, was: Option<bytes>, es: seq<Event>, x: X509)
    requires Inv(s, x) && !WholeChain(s, was, x)
    ensures !AlwaysWhole(s, was, es, x)
  {
  }

  /** An update requested right after the start empties the card's chain. */
  lemma UpdateWithoutUpload(chain: Option<bytes>, x: X509)
    ensures Inv(Boot(chain), x)
    ensures var s := Run(Boot(chain), [Update, Task(0, true), Task(0, true)], x);
            s.chain == Some([]) && s.result == 0
  {
    BootInv(chain, x);
    var es := [Update, Task(0, true), Task(0, true)];
    RunRefines(Boot(chain), es, x);
    var p1 := PlainStep(PlainBoot(chain), es[0], x);
    var p2 := PlainStep(p1, es[1], x);
    assert es[1..] == [es[1], es[2]] && es[1..][1..] == [es[2]] && es[1..][1..][1..] == [];
    assert PlainRun(p2, [es[2]], x) == PlainStep(p2, es[2], x);
    assert PlainRun(p1, es[1..], x) == PlainRun(p2, es[1..][1..], x);
  }

  /** What one task does, from its start: it resets the result, then writes what was last kept, or
      fails and is gone, and reboots. */
  lemma TaskMeans(p: Plain, openOk: bool, x: X509)
    requires p.task == Some(Started)
    ensures var p1 := PlainStep(p, Task(0, openOk), x);
            var p2 := PlainStep(p1, Task(0, openOk), x);
            p1 == Plain(p.latest, Some(Waiting), 1, p.chain) &&
            p2 == (if openOk then Plain(p.latest, Some(Written), 0, Some(p.latest))
                   else Plain(p.latest, None, -1, p.chain)) &&
            (openOk ==> PlainStep(p2, Task(0, true), x) == Plain([], None, 1, Some(p.latest)))
  {
  }

  /** Requests: an upload keeps its chain for the task, if it has one to keep, and an update starts a
      task if there is none. */
  lemma RequestMeans(p: Plain, text: bytes, c: bytes, x: X509)
    requires CStr(text) != []
    ensures Kept(CrLf(CStr(text)), x) == Some(c) ==> PlainStep(p, NewCrt(text), x) == p.(latest := c)
    ensures Kept(CrLf(CStr(text)), x) == None ==> PlainStep(p, NewCrt(text), x) == p
    ensures PlainStep(p, Update, x) == if p.task == None then p.(task := Some(Started)) else p
  {
  }

  /** After a power cut nothing is kept and no task is alive; only a task that was to write can
      have left an empty file. */
  lemma PowerMeans(p: Plain, x: X509)
    ensures PlainStep(p, PowerFails(false), x) == Plain([], None, 1, p.chain)
    ensures PlainStep(p, PowerFails(true), x) ==
            Plain([], None, 1, if p.task == Some(Waiting) then Some([]) else p.chain)
  {
  }

  // ----- the operations

  class Client {
    const page: CertPage
    const card: CertStore.Card
    var startDone: bool
    var result: int
    var tasks: seq<Phase>      // the update tasks that exist, each at the start of its next step

    ghost predicate Valid() {
      page.Valid()
    }

    ghost function Now(): State
      reads this, page.newCrt, card
    {
      var files := card.files;
      State(page.newCrt[..], startDone, tasks, result,
            if CertStore.ChainCrt in files then Some(files[CertStore.ChainCrt]) else None)
    }

    constructor (page: CertPage, card: CertStore.Card)
      ensures this.page == page && this.card == card
      ensures !startDone && tasks == [] && result == PENDING
    {
      this.page, this.card := page, card;
      startDone, result, tasks := false, PENDING, [];
    }

    /** The "newcrt" request. */
    method UploadCrt(text: array<byte>, x: X509) returns (rc: int)
      requires Valid() && 0 in text[..] && text != page.newCrt
      modifies text, page.newCrt
      ensures Now() == Step(old(Now()), NewCrt(old(text[..])), x)
      ensures rc == if old(CStr(text[..])) == [] then ERR_CRT else ReturnCode(CrLf(old(CStr(text[..]))), x)
    {
      rc := page.NewCrt(text, x);
    }

    /** The "update" request. */
    method RequestUpdate(x: X509)
      requires Valid()
      modifies this
      ensures Now() == Step(old(Now()), Update, x)
    {
      if !startDone {
        startDone := true;
        tasks := tasks + [Started];
      }
    }

    /** A task up to its first delay. */
    method Start(i: nat, x: X509)
      requires Valid() && i < |tasks| && tasks[i] == Started
      modifies this
      ensures forall openOk :: Now() == Step(old(Now()), Task(i, openOk), x)
    {
      result := PENDING;
      tasks := tasks[i := Waiting];
    }

    /** A task from its first delay to its second, or to its exit. */
    method Save(i: nat, openOk: bool, x: X509)
      requires Valid() && i < |tasks| && tasks[i] == Waiting
      modifies this, card
      ensures Now() == Step(old(Now()), Task(i, openOk), x)
    {
      var rc := CertStore.WriteChainCert(card, page.newCrt, StrLen(page.newCrt[..]), openOk);
      ghost var s := old(page.newCrt[..StrLen(page.newCrt[..])]);
      assert page.newCrt[..] == old(page.newCrt[..]) && s + [] == s;
      if rc == 0 {
        result := 0;
        tasks := tasks[i := Written];
      } else {
        result := -1;
        startDone := false;
        tasks := Without(tasks, i);
      }
    }
  }
}
