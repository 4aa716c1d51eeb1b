/** Getting the first key and certificate, over any number of boots. The startup task collects
    the intermediate certificate, a new key, a request and the device certificate, and only
    then are the two files written; power may fail between any two steps. */
module Provisioning {
  import opened Bytes

  /** A piece of data and the attempt it was made in. */
  datatype Data = Data(attempt: nat, content: bytes)

  datatype Card = Card(key: Option<Data>, chain: Option<(Data, Data)>)

  /** Where the startup task is. */
  datatype Pc =
    | Off
    | NoTask       // booted, and no startup task needed
    | GetInter
    | MakeKey
    | MakeCsr
    | GetCrt
    | WriteKey
    | WriteChain
    | Rebooting
    | Ended        // a step failed, nothing more until the next boot

  datatype Ram = Ram(inter: Option<Data>, key: Option<Data>, csr: Option<Data>, crt: Option<Data>, ready: bool)

  const CLEAR := Ram(None, None, None, None, false)

  datatype State = State(pc: Pc, attempt: nat, ram: Ram, card: Card, keyWritten: bool)

  datatype Event =
    | PowerOn(opens: bool)           // whether a file that is there can be opened at the start
    | PowerFails
    | Inter(reply: Option<bytes>)    // a failed request is repeated
    | Key(made: Option<bytes>)
    | Csr(made: Option<bytes>)
    | Crt(reply: Option<bytes>)
    | KeyFile(opens: bool)
    | ChainFile(opens: bool)
    | Reboot

  const INITIAL := State(Off, 0, CLEAR, Card(None, None), false)

  /** cert_Check with a card whose files open. */
  function CertCheck(card: Card): int {
    if card.key.Some? && card.chain.Some? then 0 else -1
  }

  function Own(s: State, content: bytes): Option<Data> {
    Some(Data(s.attempt, content))
  }

  function PowerOff(s: State): State {
    s.(pc := Off, ram := CLEAR, keyWritten := false)
  }

  /** Events that do not fit where the task is have no effect. */
  function Step(s: State, e: Event): State {
    match (s.pc, e)
    case (_, PowerFails) => PowerOff(s)
    case (Off, PowerOn(opens)) =>
      if !opens || CertCheck(s.card) == -1
      then s.(pc := GetInter, attempt := s.attempt + 1, ram := CLEAR, keyWritten := false)
      else s.(pc := NoTask, ram := CLEAR, keyWritten := false)
    case (GetInter, Inter(Some(c))) => s.(pc := MakeKey, ram := s.ram.(inter := Own(s, c)))
    case (MakeKey, Key(Some(c))) => s.(pc := MakeCsr, ram := s.ram.(key := Own(s, c)))
    case (MakeKey, Key(None)) => s.(pc := Ended)
    case (MakeCsr, Csr(Some(c))) => s.(pc := GetCrt, ram := s.ram.(csr := Own(s, c)))
    case (MakeCsr, Csr(None)) => s.(pc := Ended)
    case (GetCrt, Crt(Some(c))) => s.(pc := WriteKey, ram := s.ram.(crt := Own(s, c), ready := true))
    case (GetCrt, Crt(None)) => s.(pc := Ended)
    case (WriteKey, KeyFile(opens)) =>
      if opens then s.(pc := WriteChain, card := s.card.(key := s.ram.key), keyWritten := true)
      else s.(pc := WriteChain)
    case (WriteChain, ChainFile(opens)) =>
      if opens && s.ram.crt.Some? && s.ram.inter.Some?
      then s.(pc := Rebooting, card := s.card.(chain := Some((s.ram.crt.value, s.ram.inter.value))))
      else s.(pc := Rebooting)
    case (Rebooting, Reboot) => PowerOff(s)
    case _ => s
  }

  // ----- the invariant

  function Rank(pc: Pc): nat {
    match pc
    case GetInter => 1
    case MakeKey => 2
    case MakeCsr => 3
    case GetCrt => 4
    case WriteKey => 5
    case WriteChain => 6
    case Rebooting => 7
    case _ => 0
  }

  predicate OwnData(d: Option<Data>, attempt: nat) {
    d.Some? && d.value.attempt == attempt
  }

  /** The task has collected, in this attempt, exactly what its place says it has. */
  predicate Inv(s: State) {
    (Rank(s.pc) >= 2 ==> OwnData(s.ram.inter, s.attempt)) &&
    (Rank(s.pc) >= 3 ==> OwnData(s.ram.key, s.attempt)) &&
    (Rank(s.pc) >= 4 ==> OwnData(s.ram.csr, s.attempt)) &&
    (Rank(s.pc) >= 5 ==> OwnData(s.ram.crt, s.attempt)) &&
    (s.ram.ready <==> Rank(s.pc) >= 5) &&
    (s.keyWritten ==> Rank(s.pc) >= 6 && s.card.key == s.ram.key) &&
    (s.card.key.Some? ==> s.card.key.value.attempt <= s.attempt)
  }

  lemma StepInv(s: State, e: Event)
    requires Inv(s)
    ensures Inv(Step(s, e))
  {
  }

  /** Key and chain on the card belong to the same attempt. */
  predicate Consistent(card: Card) {
    card.chain.Some? ==>
      card.key.Some? && card.key.value.attempt == card.chain.value.0.attempt == card.chain.value.1.attempt
  }

  /** The step neither writes the chain after failing to write the key, nor the key over one that
      a chain is there for. */
  predicate KeyFirst(s: State, e: Event) {
    match (s.pc, e)
    case (WriteChain, ChainFile(true)) => s.keyWritten
    case (WriteKey, KeyFile(true)) => s.card.chain == None
    case _ => true
  }

  lemma StepConsistentIff(s: State, e: Event)
    requires Good(s) && OlderChain(s) && Consistent(s.card)
    ensures Consistent(Step(s, e).card) <==> KeyFirst(s, e)
  {
  }

  /** Until an attempt writes its key, the key on the card is from an earlier one. */
  predicate OlderKey(s: State) {
    Rank(s.pc) >= 1 && !s.keyWritten && s.card.key.Some? ==> s.card.key.value.attempt < s.attempt
  }

  lemma StepOlderKey(s: State, e: Event)
    requires Inv(s) && OlderKey(s)
    ensures OlderKey(Step(s, e))
  {
  }

  /** Until an attempt writes its chain, the chain on the card is from an earlier one. */
  predicate OlderChain(s: State) {
    s.card.chain.Some? ==>
      var (crt, inter) := s.card.chain.value;
      crt.attempt == inter.attempt <= s.attempt && (1 <= Rank(s.pc) <= 6 ==> crt.attempt < s.attempt)
  }

  lemma StepOlderChain(s: State, e: Event)
    requires Inv(s) && OlderChain(s)
    ensures OlderChain(Step(s, e))
  {
  }

  // ----- runs

  ghost predicate Good(s: State) {
    Inv(s) && OlderKey(s)
  }

  lemma StepGood(s: State, e: Event)
    requires Good(s)
    ensures Good(Step(s, e))
  {
    StepInv(s, e);
    StepOlderKey(s, e);
  }

  ghost predicate AlwaysConsistent(s: State, es: seq<Event>)
    decreases |es|
  {
    Consistent(s.card) && (es != [] ==> AlwaysConsistent(Step(s, es[0]), es[1..]))
  }

  ghost predicate AlwaysKeyFirst(s: State, es: seq<Event>)
    decreases |es|
  {
    es != [] ==> KeyFirst(s, es[0]) && AlwaysKeyFirst(Step(s, es[0]), es[1..])
  }

  lemma {:induction false} ConsistentIffKeyFirst(s: State, es: seq<Event>)
    requires Good(s) && OlderChain(s) && Consistent(s.card)
    ensures AlwaysConsistent(s, es) <==> AlwaysKeyFirst(s, es)
    decreases |es|
  {
    if es != [] {
      StepGood(s, es[0]);
      StepOlderChain(s, es[0]);
      StepConsistentIff(s, es[0]);
      if Consistent(Step(s, es[0]).card) {
        ConsistentIffKeyFirst(Step(s, es[0]), es[1..]);
      }
    }
  }

  /** Over every run of attempts, failures and power cuts from an empty card: key and chain on
      the card are at all times from the same attempt (or the chain is not there) if and only if
      no attempt writes its chain after failing to open the key file, or its key beside a chain. */
  lemma ProvisioningSafeIff(es: seq<Event>)
    ensures AlwaysConsistent(INITIAL, es) <==> AlwaysKeyFirst(INITIAL, es)
  {
    ConsistentIffKeyFirst(INITIAL, es);
  }

  function Run(s: State, es: seq<Event>): State
    decreases |es|
  {
    if es == [] then s else Run(Step(s, es[0]), es[1..])
  }

  // ----- whenever both files are there

  /** If cert_Check finds both files, they are from one attempt. */
  predicate Matched(card: Card) {
    CertCheck(card) == 0 ==>
      card.key.value.attempt == card.chain.value.0.attempt == card.chain.value.1.attempt
  }

  /** The step neither puts a chain beside a key that this attempt has not written, nor a key
      beside a chain that is there already. */
  predicate KeepsMatch(s: State, e: Event) {
    match (s.pc, e)
    case (WriteChain, ChainFile(true)) => s.keyWritten || s.card.key == None
    case (WriteKey, KeyFile(true)) => s.card.chain == None
    case _ => true
  }

  lemma StepMatchedIff(s: State, e: Event)
    requires Good(s) && OlderChain(s) && Matched(s.card)
    ensures Matched(Step(s, e).card) <==> KeepsMatch(s, e)
  {
  }

  ghost predicate AlwaysMatched(s: State, es: seq<Event>)
    decreases |es|
  {
    Matched(s.card) && (es != [] ==> AlwaysMatched(Step(s, es[0]), es[1..]))
  }

  ghost predicate AlwaysKeepsMatch(s: State, es: seq<Event>)
    decreases |es|
  {
    es != [] ==> KeepsMatch(s, es[0]) && AlwaysKeepsMatch(Step(s, es[0]), es[1..])
  }

  lemma {:induction false} MatchedIffKeepsMatch(s: State, es: seq<Event>)
    requires Good(s) && OlderChain(s) && Matched(s.card)
    ensures AlwaysMatched(s, es) <==> AlwaysKeepsMatch(s, es)
    decreases |es|
  {
    if es != [] {
      StepGood(s, es[0]);
      StepOlderChain(s, es[0]);
      StepMatchedIff(s, es[0]);
      if Matched(Step(s, es[0]).card) {
        MatchedIffKeepsMatch(Step(s, es[0]), es[1..]);
      }
    }
  }

  /** Over every run of attempts, failures and power cuts from an empty card: whenever cert_Check
      finds both files, key, device and intermediate certificate are from one attempt, if and only
      if no step puts a chain beside a key its attempt has not written, or a key beside a chain. */
  lemma CheckedFilesMatchIff(es: seq<Event>)
    ensures AlwaysMatched(INITIAL, es) <==> AlwaysKeepsMatch(INITIAL, es)
  {
    MatchedIffKeepsMatch(INITIAL, es);
  }

  /** An attempt that may still write runs without a chain on the card. */
  predicate Fresh(s: State) {
    1 <= Rank(s.pc) <= 6 ==> s.card.chain == None
  }

  /** Neither an existing file fails to open at the start, nor the key file when it is written. */
  predicate FilesOpen(es: seq<Event>) {
    forall i :: 0 <= i < |es| ==> es[i] != KeyFile(false) && es[i] != PowerOn(false)
  }

  /** A run with no failing file opens meets the condition. */
  lemma {:induction false} FilesOpenIsKeyFirst(s: State, es: seq<Event>)
    requires Good(s) && OlderChain(s) && Consistent(s.card) && Fresh(s) && FilesOpen(es)
    requires s.pc == WriteChain ==> s.keyWritten
    ensures AlwaysKeyFirst(s, es)
    decreases |es|
  {
    if es != [] {
      assert es[0] != KeyFile(false) && es[0] != PowerOn(false);
      assert forall i :: 0 <= i < |es[1..]| ==> es[1..][i] == es[i + 1];
      StepGood(s, es[0]);
      StepOlderChain(s, es[0]);
      StepConsistentIff(s, es[0]);
      FilesOpenIsKeyFirst(Step(s, es[0]), es[1..]);
    }
  }

  /** And so do its files match whenever both are there. */
  lemma {:induction false} ConsistentIsMatched(s: State, es: seq<Event>)
    requires AlwaysConsistent(s, es)
    ensures AlwaysMatched(s, es)
    decreases |es|
  {
    if es != [] {
      ConsistentIsMatched(Step(s, es[0]), es[1..]);
    }
  }

  lemma FilesOpenIsSafe(es: seq<Event>)
    requires FilesOpen(es)
    ensures AlwaysConsistent(INITIAL, es) && AlwaysMatched(INITIAL, es)
  {
    FilesOpenIsKeyFirst(INITIAL, es);
    ConsistentIffKeyFirst(INITIAL, es);
    ConsistentIsMatched(INITIAL, es);
  }

  /** Nothing is written before all four pieces of the running attempt are there, and what is
      written are those pieces. */
  lemma WritesOnlyWhenComplete(s: State, e: Event)
    requires Inv(s) && Step(s, e).card != s.card
    ensures s.ram.ready
    ensures OwnData(s.ram.inter, s.attempt) && OwnData(s.ram.key, s.attempt) &&
            OwnData(s.ram.csr, s.attempt) && OwnData(s.ram.crt, s.attempt)
    ensures Step(s, e).card.key in {s.card.key, s.ram.key}
    ensures Step(s, e).card.chain in {s.card.chain, Some((s.ram.crt.value, s.ram.inter.value))}
  {
  }

  lemma {:induction false} RunAppend(s: State, xs: seq<Event>, ys: seq<Event>)
    ensures Run(s, xs + ys) == Run(Run(s, xs), ys)
    decreases |xs|
  {
    if xs == [] {
      assert xs + ys == ys;
    } else {
      assert (xs + ys)[1..] == xs[1..] + ys;
      RunAppend(Step(s, xs[0]), xs[1..], ys);
    }
  }

  lemma RunOne(s: State, e: Event)
    ensures Run(s, [e]) == Step(s, e)
  {
    assert Run(Step(s, e), []) == Step(s, e);
  }

  lemma RunTwo(s: State, a: Event, b: Event)
    ensures Run(s, [a, b]) == Step(Step(s, a), b)
  {
    assert [a, b][1..] == [b] && [b][1..] == [];
    assert Run(s, [a, b]) == Run(Step(s, a), [b]);
  }

  /** An attempt up to the writing of the key. */
  function Attempt(c: bytes, opens: bool): seq<Event> {
    [PowerOn(opens), Inter(Some(c))] + ([Key(Some(c)), Csr(Some(c))] + [Crt(Some(c))])
  }

  /** All four pieces of an attempt. */
  function Pieces(attempt: nat, c: bytes): Ram {
    var d := Some(Data(attempt, c));
    Ram(d, d, d, d, true)
  }

  lemma AttemptRuns(s: State, c: bytes, opens: bool)
    requires s.pc == Off && (opens ==> CertCheck(s.card) == -1)
    ensures Run(s, Attempt(c, opens)) == State(WriteKey, s.attempt + 1, Pieces(s.attempt + 1, c), s.card, false)
  {
    RunTwo(s, PowerOn(opens), Inter(Some(c)));
    var s2 := Step(Step(s, PowerOn(opens)), Inter(Some(c)));
    RunAppend(s, [PowerOn(opens), Inter(Some(c))], [Key(Some(c)), Csr(Some(c))] + [Crt(Some(c))]);
    RunTwo(s2, Key(Some(c)), Csr(Some(c)));
    var s4 := Step(Step(s2, Key(Some(c))), Csr(Some(c)));
    RunAppend(s2, [Key(Some(c)), Csr(Some(c))], [Crt(Some(c))]);
    RunOne(s4, Crt(Some(c)));
  }

  /** An unopened key file is enough to go wrong: power fails after the first attempt's key is
      written, and the second attempt cannot open the key file. */
  lemma LostKey(c: bytes)
    ensures var es := Attempt(c, true) +
                      ([KeyFile(true), PowerFails] + (Attempt(c, true) + [KeyFile(false), ChainFile(true)]));
            var card := Run(INITIAL, es).card;
            CertCheck(card) == 0 && !Consistent(card)
  {
    TwoAttempts(c, KeyFile(true), PowerFails, true, KeyFile(false), ChainFile(true));
  }

  /** And so is a card that cannot be read at the start although it holds key and chain: another
      attempt writes its key beside the chain, and power fails before its chain is written. */
  lemma LostChain(c: bytes)
    ensures var es := Attempt(c, true) +
                      ([KeyFile(true), ChainFile(true)] +
                       ([Reboot] + (Attempt(c, false) + [KeyFile(true), PowerFails])));
            var card := Run(INITIAL, es).card;
            CertCheck(card) == 0 && !Consistent(card)
  {
    hide Run;
    var last := [KeyFile(true), PowerFails];
    AttemptRuns(INITIAL, c, true);
    var s1 := Run(INITIAL, Attempt(c, true));
    RunAppend(INITIAL, Attempt(c, true), [KeyFile(true), ChainFile(true)] + ([Reboot] + (Attempt(c, false) + last)));
    RunTwo(s1, KeyFile(true), ChainFile(true));
    var s2 := Step(Step(s1, KeyFile(true)), ChainFile(true));
    RunAppend(s1, [KeyFile(true), ChainFile(true)], [Reboot] + (Attempt(c, false) + last));
    RunOne(s2, Reboot);
    RunAppend(s2, [Reboot], Attempt(c, false) + last);
    var s3 := Step(s2, Reboot);
    AttemptRuns(s3, c, false);
    RunAppend(s3, Attempt(c, false), last);
    RunTwo(Run(s3, Attempt(c, false)), KeyFile(true), PowerFails);
  }

  lemma TwoAttempts(c: bytes, a: Event, b: Event, opens: bool, d: Event, e: Event)
    requires var s := Step(Step(State(WriteKey, 1, Pieces(1, c), Card(None, None), false), a), b);
             s.pc == Off && s.attempt == 1 && (opens ==> CertCheck(s.card) == -1)
    ensures var s := Step(Step(State(WriteKey, 1, Pieces(1, c), Card(None, None), false), a), b);
            Run(INITIAL, Attempt(c, true) + ([a, b] + (Attempt(c, opens) + [d, e]))) ==
            Step(Step(State(WriteKey, 2, Pieces(2, c), s.card, false), d), e)
  {
    hide Run;
    AttemptRuns(INITIAL, c, true);
    var s1 := Run(INITIAL, Attempt(c, true));
    RunAppend(INITIAL, Attempt(c, true), [a, b] + (Attempt(c, opens) + [d, e]));
    RunTwo(s1, a, b);
    var s2 := Step(Step(s1, a), b);
    RunAppend(s1, [a, b], Attempt(c, opens) + [d, e]);
    AttemptRuns(s2, c, opens);
    RunAppend(s2, Attempt(c, opens), [d, e]);
    RunTwo(Run(s2, Attempt(c, opens)), d, e);
  }

  // ----- the startup task

  lemma RunSnoc(s: State, es: seq<Event>, e: Event)
    ensures Run(s, es + [e]) == Step(Run(s, es), e)
  {
    RunAppend(s, es, [e]);
    assert Run(Run(s, es), [e]) == Step(Run(s, es), e);
  }

  lemma RunNothing(s: State)
    ensures Run(s, []) == s
  {
  }

  class Client {
    const attempt: nat
    var inter: Option<Data>
    var key: Option<Data>
    var csr: Option<Data>
    var crt: Option<Data>
    var ready: bool
    var card: Card

    constructor (attempt: nat, card: Card)
      ensures this.attempt == attempt && this.card == card
      ensures At(GetInter, false) == State(GetInter, attempt, CLEAR, card, false)
    {
      this.attempt, this.card := attempt, card;
      inter, key, csr, crt, ready := None, None, None, None, false;
    }

    /** The machine's state when the task is at this place. */
    ghost function At(pc: Pc, keyWritten: bool): State
      reads this
    {
      State(pc, attempt, Ram(inter, key, csr, crt, ready), card, keyWritten)
    }

    /** The request for the intermediate certificate is repeated until it succeeds. */
    method GetInterCrt(replies: seq<Option<bytes>>, ghost s0: State) returns (ghost es: seq<Event>)
      requires s0 == At(GetInter, false) && s0.pc == GetInter
      requires exists i :: 0 <= i < |replies| && replies[i].Some?
      modifies this`inter
      ensures Run(s0, es) == At(MakeKey, false)
      ensures exists i :: 0 <= i < |replies| && replies[i].Some? && inter == Some(Data(attempt, replies[i].value))
    {
      hide Run;
      es := [];
      RunNothing(s0);
      var i := 0;
      while replies[i].None?
        invariant 0 <= i < |replies| && exists j :: i <= j < |replies| && replies[j].Some?
        invariant Run(s0, es) == s0 == At(GetInter, false)
        decreases |replies| - i
      {
        RunSnoc(s0, es, Inter(None));
        es, i := es + [Inter(None)], i + 1;
      }
      inter := Some(Data(attempt, replies[i].value));
      RunSnoc(s0, es, Inter(replies[i]));
      es := es + [Inter(replies[i])];
    }

    /** Key, request and device certificate, each only after the one before. */
    method Collect(made: Option<bytes>, request: Option<bytes>, cert: Option<bytes>,
                   ghost s0: State, ghost es0: seq<Event>)
      returns (rc: int, ghost es: seq<Event>)
      requires Run(s0, es0) == At(MakeKey, false)
      modifies this`key, this`csr, this`crt, this`ready
      ensures Run(s0, es) == At(if rc == 0 then WriteKey else Ended, false)
      ensures rc == 0 <==> made.Some? && request.Some? && cert.Some?
      ensures rc == 0 ==> ready && key == Some(Data(attempt, made.value)) && crt == Some(Data(attempt, cert.value))
    {
      hide Run;
      es, rc := es0, -1;
      RunSnoc(s0, es, Key(made));
      es := es + [Key(made)];
      if made == None { return; }
      key := Some(Data(attempt, made.value));

      RunSnoc(s0, es, Csr(request));
      es := es + [Csr(request)];
      if request == None { return; }
      csr := Some(Data(attempt, request.value));

      RunSnoc(s0, es, Crt(cert));
      es := es + [Crt(cert)];
      if cert == None { return; }
      crt, ready, rc := Some(Data(attempt, cert.value)), true, 0;
    }

    /** The callback's two files. */
    method WriteFiles(keyOpens: bool, chainOpens: bool, ghost s0: State, ghost es0: seq<Event>)
      returns (ghost es: seq<Event>)
      requires Run(s0, es0) == At(WriteKey, false)
      requires key.Some? && inter.Some? && crt.Some?
      modifies this`card
      ensures Run(s0, es) == At(Rebooting, keyOpens)
      ensures card.key == if keyOpens then key else old(card.key)
      ensures card.chain == if chainOpens then Some((crt.value, inter.value)) else old(card.chain)
    {
      hide Run;
      RunSnoc(s0, es0, KeyFile(keyOpens));
      es := es0 + [KeyFile(keyOpens)];
      if keyOpens { card := card.(key := key); }
      RunSnoc(s0, es, ChainFile(chainOpens));
      es := es + [ChainFile(chainOpens)];
      if chainOpens { card := card.(chain := Some((crt.value, inter.value))); }
    }

    /** One run of the startup task, from its start to its end: what the card then holds, and
        where the task ended, is what the machine says for the events of the run. */
    method Startup(replies: seq<Option<bytes>>, made: Option<bytes>, request: Option<bytes>, cert: Option<bytes>,
                   keyOpens: bool, chainOpens: bool)
      returns (rc: int, ghost es: seq<Event>)
      requires At(GetInter, false) == State(GetInter, attempt, CLEAR, card, false)
      requires exists i :: 0 <= i < |replies| && replies[i].Some?
      modifies this
      ensures rc == 0 <==> made.Some? && request.Some? && cert.Some?
      ensures Run(old(At(GetInter, false)), es) == if rc == 0 then At(Rebooting, keyOpens) else At(Ended, false)
      ensures card.key == if rc == 0 && keyOpens then Some(Data(attempt, made.value)) else old(card.key)
      ensures rc != 0 || !chainOpens ==> card.chain == old(card.chain)
      ensures rc == 0 && chainOpens ==>
                exists i :: 0 <= i < |replies| && replies[i].Some? &&
                            card.chain == Some((Data(attempt, cert.value), Data(attempt, replies[i].value)))
    {
      hide Run;
      ghost var s0 := At(GetInter, false);
      es := GetInterCrt(replies, s0);
      rc, es := Collect(made, request, cert, s0, es);
      if rc == 0 {
        es := WriteFiles(keyOpens, chainOpens, s0, es);
      }
    }
  }
}
