/**
  The two-process login governor, as one state machine: the controller admits one live operation at a
  time, its requests queue up on the live socket, and the worker serves them in order. Replies can be
  lost, so the worker may still be serving requests the controller has already given up on.
 */
module Governor {
  import opened Prelude
  import opened Timestamps
  import opened Wire
  import opened MarketWorker
  import opened LoginLedger

  /** What the controller is doing with the live-session permit. */
  datatype Flight =
    | Idle
    | MarketAdmitted(stamp: int, reuse: bool)
    | MarketSent(stamp: int, reuse: bool, id: nat)
    | MarketReplied(stamp: int, reuse: bool, reply: Reply, logins: nat)
    | RefreshRunning(awaiting: Option<nat>)
  {
    predicate IsMarket() {
      MarketAdmitted? || MarketSent? || MarketReplied?
    }

    predicate Awaits(id: nat) {
      (MarketSent? && this.id == id) || (RefreshRunning? && awaiting == Some(id))
    }
  }

  datatype Request = MarketRequest(id: nat, stamp: int) | RefreshRequest(id: nat)

  /**
    `reaped` is the last reaper tick since the worker's slot was last set by a market read, and
    `restarted` says the worker restarted since then. `debits`, `logins` and `drops` are the full
    histories of debited reads, of market logins the worker attempted and of permits dropped
    unfinished, each entry being the timestamp of the read it belongs to; `loginTimes` are the clock
    times of the same logins.
   */
  datatype State = State(
    ttl: Option<nat>,
    clock: int,
    lastStamp: int,
    ledger: Ledger,
    flight: Flight,
    queue: seq<Request>,
    nextId: nat,
    worker: WorkerState,
    reaped: Option<int>,
    restarted: bool,
    debits: seq<int>,
    logins: seq<int>,
    loginTimes: seq<int>,
    drops: seq<int>)

  function Init(ttl: Option<nat>, clock: int): State {
    State(ttl, clock, clock, EMPTY, Idle, [], 0, WorkerState(None, 0, None), None, false, [], [], [], [])
  }

  datatype Event =
    | Advance(to: int)
    | AdmitMarketRead(stamp: int)
    | AdmitRefreshRun
    | SendRequest
    | FailTransport
    | ServeNext(bank: Bank, until: int)
    | RefuseNext(code: Code)
    | TickReaper
    | DeliverReply
    | LoseReply
    | DropPermit
    | FinishRefresh
    | RestartWorker

  /** A serving bank takes the clock from `now` to `until`, with the reaper ticks in between, in order. */
  predicate Plausible(bank: Bank, now: int, until: int) {
    && PossibleBank(bank) && now <= bank.loginAt <= until
    && (bank.during.Some? ==> now <= bank.during.value <= until)
    && (bank.after.Some? ==> now <= bank.after.value <= until)
  }

  /** One step; an event that is not enabled leaves the state alone. */
  function Next(s: State, e: Event): State {
    match e
    case Advance(to) => if s.clock <= to then s.(clock := to) else s
    case AdmitMarketRead(stamp) =>
      if s.lastStamp <= stamp <= s.clock && !s.flight.IsMarket() then AdmitRead(s, stamp) else s
    case AdmitRefreshRun => AdmitRun(s)
    case SendRequest => Send(s)
    case FailTransport => if s.flight.MarketAdmitted? then EndRead(s, TransportFailed) else s
    case ServeNext(bank, until) =>
      if s.queue != [] && Plausible(bank, s.clock, until) then Serve(s, bank, until) else s
    case RefuseNext(code) => if s.queue != [] && code in {InvalidRequest, Internal} then Refuse(s, code) else s
    case TickReaper => s.(worker := Reap(s.worker, Some(s.clock)), reaped := Some(s.clock))
    case DeliverReply => if s.flight.MarketReplied? then EndRead(s, Replied(s.flight.reply)) else s
    case LoseReply =>
      if s.flight.MarketSent? || s.flight.MarketReplied? then EndRead(s, NoReply)
      else if s.flight.RefreshRunning? then s.(flight := RefreshRunning(None))
      else s
    case DropPermit =>
      if s.flight.IsMarket() then
        s.(ledger := Finish(s.ledger, false), drops := s.drops + [s.flight.stamp], flight := Idle)
      else s
    case FinishRefresh =>
      if s.flight.RefreshRunning? then s.(ledger := Finish(s.ledger, false), flight := Idle) else s
    case RestartWorker => s.(worker := Evict(s.worker), queue := [], restarted := true)
  }

  function AdmitRead(s: State, stamp: int): State {
    var (ledger, res) := AdmitMarketAt(s.ledger, EpochToIso(stamp));
    s.(ledger := ledger, lastStamp := stamp,
       flight := if res.Ok? then MarketAdmitted(stamp, res.value) else s.flight)
  }

  function AdmitRun(s: State): State {
    match AdmitRefresh(s.ledger)
    case Err(_) => s
    case Ok(ledger) => s.(ledger := ledger, flight := RefreshRunning(None))
  }

  function Send(s: State): State {
    match s.flight
    case MarketAdmitted(stamp, reuse) =>
      s.(flight := MarketSent(stamp, reuse, s.nextId), nextId := s.nextId + 1,
         queue := s.queue + [MarketRequest(s.nextId, stamp)])
    case RefreshRunning(None) =>
      s.(flight := RefreshRunning(Some(s.nextId)), nextId := s.nextId + 1,
         queue := s.queue + [RefreshRequest(s.nextId)])
    case _ => s
  }

  /** The worker takes the oldest request; its reply reaches the controller only if it is still awaited. */
  function Serve(s: State, bank: Bank, until: int): State
    requires s.queue != []
  {
    match s.queue[0]
    case RefreshRequest(id) =>
      s.(clock := until, queue := s.queue[1..], worker := RefreshLogin(s.worker, bank.login),
         flight := if s.flight.Awaits(id) then RefreshRunning(None) else s.flight)
    case MarketRequest(id, stamp) =>
      var served := MarketRead(s.worker, stamp, s.ttl, bank);
      s.(clock := until, queue := s.queue[1..], worker := served.worker,
         reaped := served.reaped, restarted := false,
         logins := s.logins + if served.logins == 1 then [stamp] else [],
         loginTimes := s.loginTimes + if served.logins == 1 then [bank.loginAt] else [],
         flight := if s.flight.MarketSent? && s.flight.id == id
                   then MarketReplied(stamp, s.flight.reuse, served.reply, served.logins) else s.flight)
  }

  /** A request the worker rejects before it touches the session. */
  function Refuse(s: State, code: Code): State
    requires s.queue != []
  {
    var head := s.queue[0];
    s.(queue := s.queue[1..],
       flight := if !s.flight.Awaits(head.id) then s.flight
                 else if s.flight.MarketSent? then MarketReplied(s.flight.stamp, s.flight.reuse, Failed(code, None), 0)
                 else RefreshRunning(None))
  }

  function EndRead(s: State, o: CallOutcome): State
    requires s.flight.IsMarket()
  {
    var stamp := s.flight.stamp;
    s.(ledger := FinishRead(s.ledger, o, stamp, s.ttl),
       debits := if PerformedLogin(Seen(o)) then s.debits + [stamp] else s.debits,
       flight := Idle)
  }

  function Run(s: State, es: seq<Event>): State {
    if es == [] then s else Next(Run(s, es[..|es| - 1]), es[|es| - 1])
  }

  /* ---- invariant 1: the permit and the queue ---- */

  predicate QueueOk(queue: seq<Request>, nextId: nat) {
    && (forall i :: 0 <= i < |queue| ==> queue[i].id < nextId)
    && (forall i, j :: 0 <= i < j < |queue| ==> queue[i].id < queue[j].id)
  }

  /** The request in flight is the youngest of the queue; once it is served nothing is left behind it. */
  predicate FlightOk(s: State) {
    match s.flight
    case Idle => !s.ledger.inFlight && s.ledger.pendingEpoch == None
    case MarketAdmitted(stamp, _) => s.ledger.inFlight && s.ledger.pendingEpoch == Some(stamp)
    case MarketSent(stamp, _, id) =>
      && s.ledger.inFlight && s.ledger.pendingEpoch == Some(stamp)
      && (if s.queue == [] then s.restarted else s.queue[|s.queue| - 1] == MarketRequest(id, stamp))
    case MarketReplied(stamp, _, reply, logins) =>
      && s.ledger.inFlight && s.ledger.pendingEpoch == Some(stamp) && s.queue == []
      && logins <= 1 && (logins == 1 ==> PerformedLogin(Seen(Replied(reply))))
    case RefreshRunning(awaiting) =>
      && s.ledger.inFlight && s.ledger.pendingEpoch == None && s.ledger.validUntil == None
      && (awaiting.Some? ==>
            forall i :: 0 <= i < |s.queue| && s.queue[i].id == awaiting.value ==> s.queue[i].RefreshRequest?)
      && (awaiting.Some? ==> awaiting.value < s.nextId)
  }

  predicate Shape(s: State) {
    && QueueOk(s.queue, s.nextId) && FlightOk(s)
    && (s.flight.IsMarket() ==> InRange(s.flight.stamp) && s.flight.stamp <= s.lastStamp)
    && s.lastStamp <= s.clock
    && (s.reaped.Some? ==> s.reaped.value <= s.clock)
    && HoldsNewest(s.worker) && (s.ttl.None? ==> s.worker.slot.None?)
  }

  /* ---- invariant 2: the predicted reuse window and the held session ---- */

  predicate ReapedBy(s: State, until: int) {
    s.reaped.Some? && s.reaped.value >= until
  }

  /**
    The slot holds a session with exactly this expiry, unless the worker restarted or the reaper came at
    or after it.
   */
  predicate AgreesOn(s: State, until: int) {
    if s.restarted || ReapedBy(s, until) then s.worker.slot.None?
    else s.worker.slot.Some? && s.worker.slot.value.validUntil == until
  }

  predicate Agreement(s: State) {
    && (s.ledger.validUntil.Some? && (s.flight.Idle? || s.flight.MarketAdmitted?) ==>
        s.queue == [] && AgreesOn(s, s.ledger.validUntil.value))
    && (s.ledger.validUntil.Some? && s.flight.MarketSent? ==>
        |s.queue| <= 1 && AgreesOn(s, s.ledger.validUntil.value))
    && (s.flight.MarketReplied? && HoldsSession(Seen(Replied(s.flight.reply))) && s.ttl.Some? ==>
        AgreesOn(s, WindowEnd(s.flight.stamp, s.ttl.value)))
    && (s.flight.MarketSent? || s.flight.MarketAdmitted? ==>
        s.flight.reuse == ReuseEligible(s.ledger, s.flight.stamp))
  }

  /** A delivered reply debits exactly the login attempt the read made, whatever the bank did. */
  lemma ReplyAccountsForLogin(w: WorkerState, now: int, ttl: Option<nat>, bank: Bank)
    requires PossibleBank(bank)
    ensures var served := MarketRead(w, now, ttl, bank);
            served.logins <= 1 && (served.logins == 1 <==> PerformedLogin(Seen(Replied(served.reply))))
  {
  }

  /** A reply that opens the controller's window describes the slot the worker is left with. */
  lemma ReplyDescribesSlot(w: WorkerState, now: int, ttl: Option<nat>, bank: Bank)
    requires PossibleBank(bank) && ttl.Some?
    ensures var served := MarketRead(w, now, ttl, bank);
            var until := WindowEnd(now, ttl.value);
            HoldsSession(Seen(Replied(served.reply))) ==>
              if served.reaped.Some? && served.reaped.value >= until then served.worker.slot.None?
              else served.worker.slot.Some? && served.worker.slot.value.validUntil == until
  {
  }

  lemma QueueTail(queue: seq<Request>, nextId: nat)
    requires QueueOk(queue, nextId) && queue != []
    ensures QueueOk(queue[1..], nextId)
    ensures queue[0] == queue[|queue| - 1] ==> queue[1..] == []
    ensures queue[1..] != [] ==>
              queue[1..][|queue[1..]| - 1] == queue[|queue| - 1] && queue[0].id < queue[|queue| - 1].id
  {
    assert forall i :: 0 <= i < |queue| - 1 ==> queue[1..][i] == queue[i + 1];
  }

  lemma AwaitedIsLast(s: State)
    requires Shape(s)
    ensures s.flight.MarketSent? && s.queue != [] && s.queue[0].id == s.flight.id ==>
              s.queue == [MarketRequest(s.flight.id, s.flight.stamp)]
  {
    if s.queue != [] {
      QueueTail(s.queue, s.nextId);
    }
  }

  lemma ServeKeepsShape(s: State, bank: Bank, until: int)
    requires Shape(s) && s.queue != [] && Plausible(bank, s.clock, until)
    ensures Shape(Serve(s, bank, until))
  {
    QueueTail(s.queue, s.nextId);
    match s.queue[0] {
      case RefreshRequest(id) =>
        RefreshLeavesNothingHeld(s.worker, bank.login);
        assert forall i :: 0 <= i < |s.queue| - 1 ==> s.queue[1..][i] == s.queue[i + 1];
      case MarketRequest(id, stamp) =>
        ServedReadKeepsShape(s, bank, until);
    }
  }

  lemma ServedReadKeepsShape(s: State, bank: Bank, until: int)
    requires Shape(s) && s.queue != [] && s.queue[0].MarketRequest? && Plausible(bank, s.clock, until)
    ensures Shape(Serve(s, bank, until))
  {
    hide MarketRead, PerformedLogin, HoldsNewest, PossibleBank, QueueOk;
    QueueTail(s.queue, s.nextId);
    var stamp := s.queue[0].stamp;
    ReadLimits(s.worker, stamp, s.ttl, bank);
    ReplyAccountsForLogin(s.worker, stamp, s.ttl, bank);
    LastTickOf(s.worker, stamp, s.ttl, bank);
    if s.flight.RefreshRunning? {
      assert forall i :: 0 <= i < |s.queue| - 1 ==> s.queue[1..][i] == s.queue[i + 1];
    }
  }

  lemma LastTickOf(w: WorkerState, now: int, ttl: Option<nat>, bank: Bank)
    ensures MarketRead(w, now, ttl, bank).reaped in {None, bank.during, bank.after}
  {
  }

  lemma RefuseKeepsShape(s: State, code: Code)
    requires Shape(s) && s.queue != []
    ensures Shape(Refuse(s, code))
  {
    QueueTail(s.queue, s.nextId);
    assert forall i :: 0 <= i < |s.queue| - 1 ==> s.queue[1..][i] == s.queue[i + 1];
  }

  /** What admission can do: at most prune the deque, or grant the permit for this timestamp. */
  lemma {:induction false} AdmissionCases(l: Ledger, stamp: int)
    ensures var (l', res) := AdmitMarketAt(l, EpochToIso(stamp));
            match res
            case Err(_) => l' == l.(attempts := l'.attempts)
            case Ok(reuse) =>
              && InRange(stamp) && !l.inFlight && reuse == ReuseEligible(l, stamp)
              && (!reuse ==> !CoolingDown(l, stamp))
              && l' == l.(attempts := PruneFront(l.attempts, stamp), inFlight := true, pendingEpoch := Some(stamp))
              && |l'.attempts| < LOGIN_BUDGET
    ensures var (l', res) := AdmitMarketAt(l, EpochToIso(stamp));
            l'.attempts == l.attempts || (InRange(stamp) && l'.attempts == PruneFront(l.attempts, stamp))
  {
    hide EpochToIso, ParseIso;
    ClockStringsParse(stamp);
  }

  lemma AdmitReadKeepsShape(s: State, stamp: int)
    requires Shape(s) && s.lastStamp <= stamp <= s.clock && !s.flight.IsMarket()
    ensures Shape(AdmitRead(s, stamp))
  {
    hide AdmitMarketAt, EpochToIso, HoldsNewest, QueueOk;
    AdmissionCases(s.ledger, stamp);
  }

  lemma SendKeepsShape(s: State)
    requires Shape(s)
    ensures Shape(Send(s))
  {
    hide HoldsNewest;
  }

  lemma EndReadKeepsShape(s: State, o: CallOutcome)
    requires Shape(s) && s.flight.IsMarket()
    ensures Shape(EndRead(s, o))
  {
    hide HoldsNewest, QueueOk, Seen, PerformedLogin, HoldsSession;
  }

  lemma ShapeKept(s: State, e: Event)
    requires Shape(s)
    ensures Shape(Next(s, e))
  {
    hide Serve, Refuse, AdmitRead, Send, EndRead, QueueOk;
    match e {
      case ServeNext(bank, until) =>
        if s.queue != [] && Plausible(bank, s.clock, until) {
          ServeKeepsShape(s, bank, until);
        }
      case RefuseNext(code) =>
        if s.queue != [] {
          RefuseKeepsShape(s, code);
        }
      case TickReaper =>
        ReapKeepsNewest(s.worker, Some(s.clock));
      case AdmitMarketRead(stamp) =>
        if s.lastStamp <= stamp <= s.clock && !s.flight.IsMarket() {
          AdmitReadKeepsShape(s, stamp);
        }
      case SendRequest =>
        SendKeepsShape(s);
      case FailTransport =>
        if s.flight.MarketAdmitted? {
          EndReadKeepsShape(s, TransportFailed);
        }
      case DeliverReply =>
        if s.flight.MarketReplied? {
          EndReadKeepsShape(s, Replied(s.flight.reply));
        }
      case LoseReply =>
        if s.flight.MarketSent? || s.flight.MarketReplied? {
          EndReadKeepsShape(s, NoReply);
        }
      case RestartWorker =>
        NoQueueOk(s.nextId);
      case _ =>
    }
  }

  lemma NoQueueOk(nextId: nat)
    ensures QueueOk([], nextId)
  {
  }

  lemma AdmitReadKeepsAgreement(s: State, stamp: int)
    requires Shape(s) && Agreement(s) && s.lastStamp <= stamp <= s.clock && !s.flight.IsMarket()
    ensures Agreement(AdmitRead(s, stamp))
  {
    hide AdmitMarketAt, EpochToIso;
    AdmissionCases(s.ledger, stamp);
  }

  lemma RefuseKeepsAgreement(s: State, code: Code)
    requires Shape(s) && Agreement(s) && s.queue != [] && code in {InvalidRequest, Internal}
    ensures Agreement(Refuse(s, code))
  {
    QueueTail(s.queue, s.nextId);
  }

  lemma AgreementKept(s: State, e: Event)
    requires Shape(s) && Agreement(s)
    ensures Agreement(Next(s, e))
  {
    hide Serve, Refuse, AdmitRead, QueueOk, HoldsNewest;
    match e {
      case ServeNext(bank, until) =>
        if s.queue != [] && Plausible(bank, s.clock, until) {
          ServeKeepsAgreement(s, bank, until);
        }
      case RefuseNext(code) =>
        if s.queue != [] && code in {InvalidRequest, Internal} {
          RefuseKeepsAgreement(s, code);
        }
      case AdmitMarketRead(stamp) =>
        if s.lastStamp <= stamp <= s.clock && !s.flight.IsMarket() {
          AdmitReadKeepsAgreement(s, stamp);
        }
      case _ =>
    }
  }

  lemma ServeKeepsAgreement(s: State, bank: Bank, until: int)
    requires Shape(s) && Agreement(s) && s.queue != [] && Plausible(bank, s.clock, until)
    ensures Agreement(Serve(s, bank, until))
  {
    QueueTail(s.queue, s.nextId);
    match s.queue[0] {
      case RefreshRequest(id) =>
      case MarketRequest(id, stamp) =>
        if s.ttl.Some? {
          ReplyDescribesSlot(s.worker, stamp, s.ttl, bank);
        }
        hide MarketRead;
    }
  }

  /* ---- invariant 3: the deque against the full history ---- */

  predicate History(s: State) {
    && Sorted(s.debits) && AllInRange(s.debits)
    && (forall i :: 0 <= i < |s.debits| ==> s.debits[i] <= s.lastStamp)
    && (s.flight.IsMarket() ==> forall i :: 0 <= i < |s.debits| ==> s.debits[i] <= s.flight.stamp)
    && s.ledger.lastLogin == (if s.debits == [] then None else Some(s.debits[|s.debits| - 1]))
    && |s.ledger.attempts| <= |s.debits|
    && s.ledger.attempts == s.debits[Dropped(s)..]
    && (forall i :: 0 <= i < Dropped(s) ==> s.lastStamp - s.debits[i] >= BUDGET_WINDOW)
  }

  /** How many of the oldest debits have left the deque. */
  function Dropped(s: State): int {
    |s.debits| - |s.ledger.attempts|
  }

  /** At every admission the pruned deque is the full debit history of the last hour. */
  lemma {:induction false} PrunedDequeIsLastHour(s: State, stamp: int)
    requires History(s) && InRange(stamp) && s.lastStamp <= stamp
    ensures PruneFront(s.ledger.attempts, stamp) == Recent(s.debits, stamp)
  {
    hide *;
    var gone, kept := SplitDebits(s, stamp);
    PruneIsRecent(kept, stamp);
    RecentOfOld(gone, stamp);
    RecentConcat(gone, kept, stamp);
  }

  /** The debits that have left the deque, and the deque. */
  lemma SplitDebits(s: State, stamp: int) returns (gone: seq<int>, kept: seq<int>)
    requires History(s) && s.lastStamp <= stamp
    ensures s.debits == gone + kept && kept == s.ledger.attempts && Sorted(kept) && AllInRange(kept)
    ensures forall i :: 0 <= i < |gone| ==> stamp - gone[i] >= BUDGET_WINDOW
  {
    var k := Dropped(s);
    gone, kept := s.debits[..k], s.debits[k..];
    SuffixSorted(s.debits, k);
    hide Sorted, AllInRange;
  }

  lemma SuffixSorted(xs: seq<int>, k: nat)
    requires Sorted(xs) && AllInRange(xs) && k <= |xs|
    ensures Sorted(xs[k..]) && AllInRange(xs[k..])
  {
    hide InRange;
  }

  lemma {:induction false} PruneKeepsHistory(s: State, stamp: int, attempts: seq<int>)
    requires History(s) && InRange(stamp) && s.lastStamp <= stamp
    requires attempts == PruneFront(s.ledger.attempts, stamp)
    ensures |attempts| <= |s.debits| && attempts == s.debits[|s.debits| - |attempts|..]
    ensures forall i :: 0 <= i < |s.debits| - |attempts| ==> stamp - s.debits[i] >= BUDGET_WINDOW
  {
    hide PruneFront, InRange, Sorted;
    var k := Dropped(s);
    var kept := s.debits[k..];
    assert forall i :: 0 <= i < |kept| ==> kept[i] == s.debits[k + i];
    var j := PruneKeepsSuffix(kept, stamp);
    assert kept[j..] == s.debits[k + j..];
    assert forall i :: k <= i < k + j ==> s.debits[i] == kept[i - k];
  }

  lemma AdmitReadKeepsHistory(s: State, stamp: int)
    requires Shape(s) && History(s) && s.lastStamp <= stamp <= s.clock && !s.flight.IsMarket()
    ensures History(AdmitRead(s, stamp))
  {
    hide AdmitMarketAt, EpochToIso, Shape, PruneFront;
    AdmissionCases(s.ledger, stamp);
    if InRange(stamp) {
      PruneKeepsHistory(s, stamp, PruneFront(s.ledger.attempts, stamp));
    }
  }

  /** A debit goes to the end of the history and of the deque alike. */
  lemma DebitKeepsHistory(s: State, s': State)
    requires History(s) && s.flight.IsMarket() && InRange(s.flight.stamp) && s.flight.stamp <= s.lastStamp
    requires s'.debits == s.debits + [s.flight.stamp] && s'.lastStamp == s.lastStamp && s'.flight.Idle?
    requires s'.ledger.attempts == s.ledger.attempts + [s.flight.stamp] && s'.ledger.lastLogin == Some(s.flight.stamp)
    ensures History(s')
  {
    hide InRange;
    assert Dropped(s') == Dropped(s);
    assert s'.debits[Dropped(s)..] == s.debits[Dropped(s)..] + [s.flight.stamp];
  }

  lemma EndReadKeepsHistory(s: State, o: CallOutcome)
    requires Shape(s) && History(s) && s.flight.IsMarket()
    ensures History(EndRead(s, o))
  {
    hide Seen, HoldsNewest, QueueOk, History, HoldsSession, FlightOk;
    var performed := PerformedLogin(Seen(o));
    hide PerformedLogin;
    if performed {
      DebitKeepsHistory(s, EndRead(s, o));
    } else {
      HistoryFrame(s, EndRead(s, o));
    }
  }

  /** History speaks of the debits, the deque and the read in flight, and of nothing else. */
  lemma HistoryFrame(s: State, s': State)
    requires History(s)
    requires s'.debits == s.debits && s'.lastStamp == s.lastStamp
    requires s'.ledger.attempts == s.ledger.attempts && s'.ledger.lastLogin == s.ledger.lastLogin
    requires s'.flight.IsMarket() ==> s.flight.IsMarket() && s'.flight.stamp == s.flight.stamp
    ensures History(s')
  {
    hide Sorted, AllInRange;
    assert Dropped(s') == Dropped(s);
  }

  lemma HistoryKept(s: State, e: Event)
    requires Shape(s) && History(s)
    ensures History(Next(s, e))
  {
    hide AdmitRead, EndRead, HoldsNewest, QueueOk, History, MarketRead;
    match e {
      case AdmitMarketRead(stamp) =>
        if s.lastStamp <= stamp <= s.clock && !s.flight.IsMarket() {
          AdmitReadKeepsHistory(s, stamp);
        }
      case FailTransport =>
        if s.flight.MarketAdmitted? {
          EndReadKeepsHistory(s, TransportFailed);
        }
      case DeliverReply =>
        if s.flight.MarketReplied? {
          EndReadKeepsHistory(s, Replied(s.flight.reply));
        }
      case LoseReply =>
        if s.flight.MarketSent? || s.flight.MarketReplied? {
          EndReadKeepsHistory(s, NoReply);
        } else {
          HistoryFrame(s, Next(s, e));
        }
      case ServeNext(_, _) =>
        AwaitedIsLast(s);
        HistoryFrame(s, Next(s, e));
      case _ =>
        HistoryFrame(s, Next(s, e));
    }
  }

  /* ---- invariant 4: every market login is paid for, whichever hour one looks at ---- */

  function InWindow(t: int, lo: int, hi: int): nat {
    if lo <= t < hi then 1 else 0
  }

  function AwaitedRead(f: Flight): Option<nat> {
    if f.MarketSent? then Some(f.id) else None
  }

  /** Market requests of the window that the controller gave up on and the worker may still serve. */
  function Owed(queue: seq<Request>, awaited: Option<nat>, lo: int, hi: int): nat {
    if queue == [] then 0
    else Owed(queue[1..], awaited, lo, hi)
         + if queue[0].MarketRequest? && awaited != Some(queue[0].id) then InWindow(queue[0].stamp, lo, hi) else 0
  }

  function Credit(f: Flight, lo: int, hi: int): nat {
    if f.MarketReplied? && f.logins > 0 then InWindow(f.stamp, lo, hi) else 0
  }

  predicate Accounted(s: State, lo: int, hi: int) {
    CountIn(s.logins, lo, hi) + Owed(s.queue, AwaitedRead(s.flight), lo, hi)
      <= CountIn(s.debits, lo, hi) + CountIn(s.drops, lo, hi) + Credit(s.flight, lo, hi)
  }

  lemma {:induction false} OwedAppend(queue: seq<Request>, r: Request, awaited: Option<nat>, lo: int, hi: int)
    ensures Owed(queue + [r], awaited, lo, hi) == Owed(queue, awaited, lo, hi) + Owed([r], awaited, lo, hi)
  {
    if queue == [] {
      assert queue + [r] == [r];
    } else {
      assert (queue + [r])[1..] == queue[1..] + [r];
      OwedAppend(queue[1..], r, awaited, lo, hi);
    }
  }

  lemma {:induction false} OwedToOthers(queue: seq<Request>, id: nat, lo: int, hi: int)
    requires forall i :: 0 <= i < |queue| ==> queue[i].id != id
    ensures Owed(queue, Some(id), lo, hi) == Owed(queue, None, lo, hi)
  {
    if queue == [] {
    } else {
      OwedToOthers(queue[1..], id, lo, hi);
    }
  }

  /** Giving up on the youngest request turns it into one that is owed. */
  lemma {:induction false} OwedWhenAbandoned(queue: seq<Request>, nextId: nat, id: nat, stamp: int, lo: int, hi: int)
    requires QueueOk(queue, nextId) && queue != [] && queue[|queue| - 1] == MarketRequest(id, stamp)
    ensures Owed(queue, None, lo, hi) == Owed(queue, Some(id), lo, hi) + InWindow(stamp, lo, hi)
  {
    var front, r := queue[..|queue| - 1], queue[|queue| - 1];
    assert queue == front + [r];
    OwedAppend(front, r, None, lo, hi);
    OwedAppend(front, r, Some(id), lo, hi);
    OwedToOthers(front, id, lo, hi);
    assert Owed([r][1..], None, lo, hi) == 0 && Owed([r][1..], Some(id), lo, hi) == 0;
  }

  lemma SendKeepsAccounts(s: State, lo: int, hi: int)
    requires Shape(s) && Accounted(s, lo, hi)
    ensures Accounted(Send(s), lo, hi)
  {
    hide CountIn, HoldsNewest;
    var s' := Send(s);
    if s'.queue != s.queue {
      var r := s'.queue[|s.queue|];
      OwedAppend(s.queue, r, AwaitedRead(s'.flight), lo, hi);
      assert Owed([r][1..], AwaitedRead(s'.flight), lo, hi) == 0;
      OwedToOthers(s.queue, s.nextId, lo, hi);
    }
  }

  /** A read that ends without a delivered reply is debited or dropped, which covers whatever it still owes. */
  lemma AbandonKeepsAccounts(s: State, s': State, lo: int, hi: int)
    requires Shape(s) && Accounted(s, lo, hi) && s.flight.IsMarket()
    requires s' == EndRead(s, NoReply)
          || s' == s.(ledger := s'.ledger, drops := s.drops + [s.flight.stamp], flight := Idle)
    ensures Accounted(s', lo, hi)
  {
    hide CountIn, HoldsNewest, FinishRead;
    CountAppend(s.debits, s.flight.stamp, lo, hi);
    CountAppend(s.drops, s.flight.stamp, lo, hi);
    if s.flight.MarketSent? && s.queue != [] {
      OwedWhenAbandoned(s.queue, s.nextId, s.flight.id, s.flight.stamp, lo, hi);
    }
  }

  lemma DeliverKeepsAccounts(s: State, o: CallOutcome, lo: int, hi: int)
    requires Shape(s) && Accounted(s, lo, hi)
    requires (s.flight.MarketReplied? && o == Replied(s.flight.reply))
          || (s.flight.MarketAdmitted? && o == TransportFailed)
    ensures Accounted(EndRead(s, o), lo, hi)
  {
    hide CountIn, HoldsNewest, FinishRead, PerformedLogin;
    CountAppend(s.debits, s.flight.stamp, lo, hi);
  }

  lemma ServedReadKeepsAccounts(s: State, s': State, id: nat, stamp: int, n: nat, lo: int, hi: int)
    requires Accounted(s, lo, hi) && s.queue != [] && s.queue[0] == MarketRequest(id, stamp) && n <= 1
    requires s'.queue == s.queue[1..] && s'.debits == s.debits && s'.drops == s.drops
    requires s'.logins == s.logins + if n == 1 then [stamp] else []
    requires !s.flight.MarketReplied?
    requires if s.flight.MarketSent? && s.flight.id == id
             then s.queue[1..] == [] && s'.flight.MarketReplied? && s'.flight.stamp == stamp && s'.flight.logins == n
             else s'.flight == s.flight
    ensures Accounted(s', lo, hi)
  {
    hide CountIn;
    CountAppend(s.logins, stamp, lo, hi);
    assert s.logins + [] == s.logins;
  }

  lemma ServeKeepsAccounts(s: State, bank: Bank, until: int, lo: int, hi: int)
    requires Shape(s) && Accounted(s, lo, hi) && s.queue != [] && Plausible(bank, s.clock, until)
    ensures Accounted(Serve(s, bank, until), lo, hi)
  {
    match s.queue[0] {
      case RefreshRequest(id) =>
        hide CountIn, QueueOk;
      case MarketRequest(id, stamp) =>
        AwaitedIsLast(s);
        ReplyAccountsForLogin(s.worker, stamp, s.ttl, bank);
        hide MarketRead, Accounted, QueueOk, HoldsNewest;
        ServedReadKeepsAccounts(s, Serve(s, bank, until), id, stamp,
                                MarketRead(s.worker, stamp, s.ttl, bank).logins, lo, hi);
    }
  }

  lemma RefuseKeepsAccounts(s: State, code: Code, lo: int, hi: int)
    requires Shape(s) && Accounted(s, lo, hi) && s.queue != []
    ensures Accounted(Refuse(s, code), lo, hi)
  {
    hide CountIn, HoldsNewest, QueueOk;
    AwaitedIsLast(s);
  }

  lemma AccountsFrame(s: State, s': State, lo: int, hi: int)
    requires Accounted(s, lo, hi)
    requires s'.debits == s.debits && s'.drops == s.drops && s'.logins == s.logins
    requires s'.queue == s.queue || s'.queue == []
    requires (AwaitedRead(s'.flight) == AwaitedRead(s.flight) && !s.flight.MarketReplied?) || s'.flight == s.flight
    ensures Accounted(s', lo, hi)
  {
  }

  lemma AccountsKept(s: State, e: Event, lo: int, hi: int)
    requires Shape(s) && Accounted(s, lo, hi)
    ensures Accounted(Next(s, e), lo, hi)
  {
    hide Serve, Refuse, Send, EndRead, Accounted, AdmitMarketAt, QueueOk, HoldsNewest, MarketRead;
    match e {
      case SendRequest => SendKeepsAccounts(s, lo, hi);
      case ServeNext(bank, until) =>
        if s.queue != [] && Plausible(bank, s.clock, until) {
          ServeKeepsAccounts(s, bank, until, lo, hi);
        }
      case RefuseNext(code) =>
        if s.queue != [] && code in {InvalidRequest, Internal} {
          RefuseKeepsAccounts(s, code, lo, hi);
        }
      case FailTransport =>
        if s.flight.MarketAdmitted? {
          DeliverKeepsAccounts(s, TransportFailed, lo, hi);
        }
      case DeliverReply =>
        if s.flight.MarketReplied? {
          DeliverKeepsAccounts(s, Replied(s.flight.reply), lo, hi);
        }
      case LoseReply =>
        if s.flight.MarketSent? || s.flight.MarketReplied? {
          AbandonKeepsAccounts(s, Next(s, e), lo, hi);
        } else {
          AccountsFrame(s, Next(s, e), lo, hi);
        }
      case DropPermit =>
        if s.flight.IsMarket() {
          AbandonKeepsAccounts(s, Next(s, e), lo, hi);
        }
      case _ => AccountsFrame(s, Next(s, e), lo, hi);
    }
  }

  /* ---- invariant 5: the hourly cap ---- */

  function InFlight(f: Flight, lo: int): nat {
    if f.IsMarket() then InWindow(f.stamp, lo, lo + BUDGET_WINDOW) else 0
  }

  /** Debits of any hour, together with the read in flight, stay within the budget. */
  predicate WithinBudget(s: State, lo: int) {
    CountIn(s.debits, lo, lo + BUDGET_WINDOW) + InFlight(s.flight, lo) <= LOGIN_BUDGET
  }

  lemma AdmitReadKeepsBudget(s: State, stamp: int, lo: int)
    requires Shape(s) && History(s) && WithinBudget(s, lo)
    requires s.lastStamp <= stamp <= s.clock && !s.flight.IsMarket()
    ensures WithinBudget(AdmitRead(s, stamp), lo)
  {
    hide AdmitMarketAt, EpochToIso, Shape, History, CountIn, PruneFront, Recent;
    AdmissionCases(s.ledger, stamp);
    if AdmitRead(s, stamp).flight.IsMarket() && lo <= stamp < lo + BUDGET_WINDOW {
      PrunedDequeIsLastHour(s, stamp);
      CountInHour(s.debits, stamp, lo);
    }
  }

  lemma EndReadKeepsBudget(s: State, o: CallOutcome, lo: int)
    requires WithinBudget(s, lo) && s.flight.IsMarket()
    ensures WithinBudget(EndRead(s, o), lo)
  {
    hide CountIn, PerformedLogin, FinishRead;
    CountAppend(s.debits, s.flight.stamp, lo, lo + BUDGET_WINDOW);
  }

  lemma BudgetKept(s: State, e: Event, lo: int)
    requires Shape(s) && History(s) && WithinBudget(s, lo)
    ensures WithinBudget(Next(s, e), lo)
  {
    hide AdmitRead, EndRead, CountIn, QueueOk, HoldsNewest, MarketRead, History;
    match e {
      case AdmitMarketRead(stamp) =>
        if s.lastStamp <= stamp <= s.clock && !s.flight.IsMarket() {
          AdmitReadKeepsBudget(s, stamp, lo);
        }
      case FailTransport =>
        if s.flight.MarketAdmitted? {
          EndReadKeepsBudget(s, TransportFailed, lo);
        }
      case DeliverReply =>
        if s.flight.MarketReplied? {
          EndReadKeepsBudget(s, Replied(s.flight.reply), lo);
        }
      case LoseReply =>
        if s.flight.MarketSent? || s.flight.MarketReplied? {
          EndReadKeepsBudget(s, NoReply, lo);
        }
      case ServeNext(_, _) => AwaitedIsLast(s);
      case _ =>
    }
  }

  /* ---- every run ---- */

  predicate Invariant(s: State) {
    Shape(s) && Agreement(s) && History(s)
  }

  lemma {:induction false} EveryRunKeepsInvariant(ttl: Option<nat>, clock: int, es: seq<Event>)
    ensures Invariant(Run(Init(ttl, clock), es))
  {
    hide Next, Shape, Agreement, History;
    if es == [] {
      InitHolds(ttl, clock);
    } else {
      var front, e := es[..|es| - 1], es[|es| - 1];
      EveryRunKeepsInvariant(ttl, clock, front);
      var s := Run(Init(ttl, clock), front);
      ShapeKept(s, e);
      AgreementKept(s, e);
      HistoryKept(s, e);
    }
  }

  lemma InitHolds(ttl: Option<nat>, clock: int)
    ensures Invariant(Init(ttl, clock))
  {
  }

  lemma {:induction false} EveryRunIsAccounted(ttl: Option<nat>, clock: int, es: seq<Event>, lo: int, hi: int)
    ensures var s := Run(Init(ttl, clock), es);
            Accounted(s, lo, hi) && WithinBudget(s, lo)
  {
    hide Next, Accounted, WithinBudget, Shape, Agreement, History;
    if es == [] {
      NothingOwedAtFirst(ttl, clock, lo, hi);
    } else {
      var front, e := es[..|es| - 1], es[|es| - 1];
      EveryRunIsAccounted(ttl, clock, front, lo, hi);
      EveryRunKeepsInvariant(ttl, clock, front);
      var s := Run(Init(ttl, clock), front);
      AccountsKept(s, e, lo, hi);
      BudgetKept(s, e, lo);
    }
  }

  lemma NothingOwedAtFirst(ttl: Option<nat>, clock: int, lo: int, hi: int)
    ensures Accounted(Init(ttl, clock), lo, hi) && WithinBudget(Init(ttl, clock), lo)
  {
  }

  /* ---- what the two processes promise, over every run ---- */

  /**
    The window the controller goes by. While a served reply is on its way the old window is out of use, as
    nothing is admitted with the permit taken, and the reply says what replaces it.
   */
  function PredictedEnd(s: State): Option<int> {
    if s.flight.MarketReplied? then
      if HoldsSession(Seen(Replied(s.flight.reply))) then ReuseWindowFrom(s.flight.stamp, s.ttl) else None
    else s.ledger.validUntil
  }

  /**
    While the clock has not reached the end of the predicted window, the worker holds a session with
    exactly that expiry, across lost replies, repairs, misses and refreshes; a worker restart is the
    one exception, and then it holds nothing.
   */
  lemma {:induction false} PredictedSessionIsHeld(ttl: Option<nat>, clock: int, es: seq<Event>)
    ensures var s := Run(Init(ttl, clock), es);
            PredictedEnd(s).Some? && s.clock < PredictedEnd(s).value ==>
              if s.restarted then s.worker.slot.None?
              else s.worker.slot.Some? && s.worker.slot.value.validUntil == PredictedEnd(s).value
  {
    hide Run, QueueOk, History;
    EveryRunKeepsInvariant(ttl, clock, es);
  }

  /**
    A read admitted as a reuse is first served on the held session, without a login, exactly when neither
    a worker restart nor a reaper tick at or past the window's end came since the slot was last set.
   */
  lemma {:induction false} ReuseIsServedWithoutLogin(ttl: Option<nat>, clock: int, es: seq<Event>, bank: Bank)
    ensures var s := Run(Init(ttl, clock), es);
            s.flight.MarketSent? && s.flight.reuse && s.queue == [MarketRequest(s.flight.id, s.flight.stamp)] ==>
              && s.ledger.validUntil.Some?
              && (MarketRead(s.worker, s.flight.stamp, s.ttl, bank).reused
                  <==> !s.restarted && !ReapedBy(s, s.ledger.validUntil.value))
  {
    hide Run, QueueOk, History;
    EveryRunKeepsInvariant(ttl, clock, es);
  }

  /** By the clock: without a restart, a reuse the worker takes up before the window ends needs no login. */
  lemma {:induction false} TimelyReuseNeedsNoLogin(ttl: Option<nat>, clock: int, es: seq<Event>, bank: Bank)
    ensures var s := Run(Init(ttl, clock), es);
            s.flight.MarketSent? && s.flight.reuse && s.queue == [MarketRequest(s.flight.id, s.flight.stamp)] ==>
              && s.ledger.validUntil.Some?
              && (!s.restarted && s.clock < s.ledger.validUntil.value ==>
                    MarketRead(s.worker, s.flight.stamp, s.ttl, bank).reused)
  {
    hide Run, QueueOk, History, FlightOk, Agreement, MarketRead;
    EveryRunKeepsInvariant(ttl, clock, es);
    ReuseIsServedWithoutLogin(ttl, clock, es, bank);
  }

  /** Over any run at all: every login the worker attempted is debited, dropped, or told of by the reply on its way. */
  lemma {:induction false} EveryLoginIsPaidFor(ttl: Option<nat>, clock: int, es: seq<Event>)
    ensures var s := Run(Init(ttl, clock), es);
            |s.logins| <= |s.debits| + |s.drops| + if s.flight.MarketReplied? then 1 else 0
  {
    hide Run, CountIn;
    var s := Run(Init(ttl, clock), es);
    var lo, hi := Bounds(s.logins);
    EveryRunIsAccounted(ttl, clock, es, lo, hi);
    CountWhole(s.logins, lo, hi);
    CountWhole(s.debits, lo, hi);
    CountWhole(s.drops, lo, hi);
  }

  /** In every hour of read timestamps the worker attempts at most 12 market logins, plus one per dropped permit. */
  lemma MarketLoginsAreCapped(ttl: Option<nat>, clock: int, es: seq<Event>, lo: int)
    ensures var s := Run(Init(ttl, clock), es);
            CountIn(s.logins, lo, lo + BUDGET_WINDOW) <= LOGIN_BUDGET + CountIn(s.drops, lo, lo + BUDGET_WINDOW)
  {
    hide Run, CountIn;
    EveryRunIsAccounted(ttl, clock, es, lo, lo + BUDGET_WINDOW);
  }

  /**
    At every admission the front-pruned deque is the whole debit history of the last hour, and a read
    admitted as a fresh login comes at least the cooldown after every earlier debit.
   */
  lemma {:induction false} AdmissionsSeeTheWholeHour(ttl: Option<nat>, clock: int, es: seq<Event>, stamp: int)
    ensures var s := Run(Init(ttl, clock), es);
            var s' := AdmitRead(s, stamp);
            s.lastStamp <= stamp <= s.clock && !s.flight.IsMarket() && s'.flight.MarketAdmitted? ==>
              && s'.ledger.attempts == Recent(s.debits, stamp)
              && |s'.ledger.attempts| < LOGIN_BUDGET
              && (!s'.flight.reuse ==> forall i :: 0 <= i < |s.debits| ==> stamp - s.debits[i] >= LOGIN_COOLDOWN)
  {
    hide Run, AdmitMarketAt, EpochToIso, PruneFront, Recent, Agreement, QueueOk;
    EveryRunKeepsInvariant(ttl, clock, es);
    var s := Run(Init(ttl, clock), es);
    if s.lastStamp <= stamp <= s.clock && !s.flight.IsMarket() && AdmitRead(s, stamp).flight.MarketAdmitted? {
      AdmissionCases(s.ledger, stamp);
      PrunedDequeIsLastHour(s, stamp);
    }
  }

  /** No read ever presents a cookie older than the newest login of any kind, a refresh login included. */
  lemma {:induction false} ReadsUseTheNewestLogin(ttl: Option<nat>, clock: int, es: seq<Event>, stamp: int, bank: Bank)
    ensures var s := Run(Init(ttl, clock), es);
            var served := MarketRead(s.worker, stamp, s.ttl, bank);
            && (s.worker.slot.Some? ==>
                  s.worker.lastGood == Some(s.worker.slot.value.cookie) && s.worker.lastGood == Some(s.worker.attempts))
            && served.logins <= 1 && |served.cookies| <= 2
            && (served.cookies != [] ==>
                served.cookies[0] == if served.reused then s.worker.attempts else served.worker.attempts)
            && (|served.cookies| == 2 ==> served.logins == 1 && served.cookies[1] == served.worker.attempts)
            && served.worker.attempts == s.worker.attempts + served.logins
  {
    hide Run, QueueOk, History, Agreement, MarketRead, FlightOk;
    EveryRunKeepsInvariant(ttl, clock, es);
    var s := Run(Init(ttl, clock), es);
    ReadLimits(s.worker, stamp, s.ttl, bank);
  }

  /* ---- a run in which the reaper beats an admitted reuse ---- */

  lemma {:induction false} RunStep(s: State, es: seq<Event>, e: Event)
    ensures Run(s, es + [e]) == Next(Run(s, es), e)
  {
    assert (es + [e])[..|es|] == es;
  }

  const QUIET := Bank(LoggedIn, ReadOk, LoggedIn, ReadOk, None, None, 0)

  /** One served read opens a 180 s window; the next is admitted one second before it closes. */
  function LateReuse(): seq<Event> {
    [AdmitMarketRead(0), SendRequest, ServeNext(QUIET, 0), DeliverReply,
     Advance(179), AdmitMarketRead(179), Advance(180), TickReaper, SendRequest]
  }

  /** Without any restart, a read admitted as a reuse logs in afresh: the reaper ticked while it was on its way. */
  lemma ReaperCanBeatAReuse()
    ensures var s := Run(Init(Some(180), 0), LateReuse());
            && s.flight == MarketSent(179, true, 1) && s.queue == [MarketRequest(1, 179)]
            && !s.restarted && s.ledger.validUntil == Some(180)
            && !MarketRead(s.worker, 179, s.ttl, QUIET).reused
            && MarketRead(s.worker, 179, s.ttl, QUIET).logins == 1
  {
    hide EpochToIso, ParseIso, Run;
    var s0 := Init(Some(180), 0);
    var es := LateReuse();
    var s6 := LateAdmission(s0);
    RunStep(s0, es[..6], es[6]);
    RunStep(s0, es[..7], es[7]);
    RunStep(s0, es[..8], es[8]);
    assert es[..6] + [es[6]] == es[..7] && es[..7] + [es[7]] == es[..8] && es[..8] + [es[8]] == es;
  }

  lemma LateAdmission(s0: State) returns (s6: State)
    requires s0 == Init(Some(180), 0)
    ensures s6 == Run(s0, LateReuse()[..6])
    ensures s6 == s0.(clock := 179, lastStamp := 179, nextId := 1, debits := [0], logins := [0], loginTimes := [0],
                      worker := WorkerState(Some(Held(1, 180)), 1, Some(1)), flight := MarketAdmitted(179, true),
                      ledger := Ledger(true, Some(179), Some(0), [0], Some(180)))
  {
    hide EpochToIso, ParseIso, Run;
    ClockStringsParse(179);
    var es := LateReuse();
    var s4 := FirstRead(s0);
    RunStep(s0, es[..4], es[4]);
    RunStep(s0, es[..5], es[5]);
    assert es[..4] + [es[4]] == es[..5] && es[..5] + [es[5]] == es[..6];
    s6 := Run(s0, es[..6]);
  }

  lemma FirstAdmission(s0: State) returns (s2: State)
    requires s0 == Init(Some(180), 0)
    ensures s2 == Run(s0, LateReuse()[..2])
    ensures s2 == s0.(lastStamp := 0, nextId := 1, flight := MarketSent(0, false, 0), queue := [MarketRequest(0, 0)],
                      ledger := EMPTY.(inFlight := true, pendingEpoch := Some(0)))
  {
    hide EpochToIso, ParseIso;
    ClockStringsParse(0);
    var es := LateReuse();
    assert es[..0] == [] && es[..0] + [es[0]] == es[..1] && es[..1] + [es[1]] == es[..2];
    RunStep(s0, es[..0], es[0]);
    RunStep(s0, es[..1], es[1]);
    s2 := Run(s0, es[..2]);
  }

  lemma FirstRead(s0: State) returns (s4: State)
    requires s0 == Init(Some(180), 0)
    ensures s4 == Run(s0, LateReuse()[..4])
    ensures s4 == s0.(lastStamp := 0, nextId := 1, debits := [0], logins := [0], loginTimes := [0],
                      worker := WorkerState(Some(Held(1, 180)), 1, Some(1)),
                      ledger := Ledger(false, None, Some(0), [0], Some(180)))
  {
    hide EpochToIso, ParseIso, Run;
    var es := LateReuse();
    var s2 := FirstAdmission(s0);
    assert es[..2] + [es[2]] == es[..3] && es[..3] + [es[3]] == es[..4];
    RunStep(s0, es[..2], es[2]);
    RunStep(s0, es[..3], es[3]);
    s4 := Run(s0, es[..4]);
  }
}
