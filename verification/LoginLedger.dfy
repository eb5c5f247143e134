/**
  The controller's side of the login governor: who may use the live session, which market reads count
  as a reuse, and the ledger of debited logins behind the hourly budget.
 */
module LoginLedger {
  import opened Prelude
  import opened Timestamps
  import opened Wire
  import opened MarketWorker

  const LOGIN_BUDGET := 12
  const LOGIN_COOLDOWN := 60
  const BUDGET_WINDOW := 3_600

  /** `LiveLoginState`: `attempts` is the deque of debited logins, oldest first. */
  datatype Ledger = Ledger(
    inFlight: bool,
    pendingEpoch: Option<int>,
    lastLogin: Option<int>,
    attempts: seq<int>,
    validUntil: Option<int>)

  const EMPTY := Ledger(false, None, None, [], None)

  function ReuseWindowFrom(now: int, ttl: Option<nat>): Option<int> {
    match ttl
    case None => None
    case Some(secs) => Some(WindowEnd(now, secs))
  }

  function AdmitRefresh(l: Ledger): Result<Ledger, Code> {
    if l.inFlight then Err(AlreadyRefreshing) else Ok(l.(inFlight := true, validUntil := None))
  }

  predicate ReuseEligible(l: Ledger, now: int) {
    l.validUntil.Some? && now < l.validUntil.value
  }

  predicate CoolingDown(l: Ledger, now: int) {
    l.lastLogin.Some? && SatSub(now, l.lastLogin.value) < LOGIN_COOLDOWN
  }

  function PruneFront(attempts: seq<int>, now: int): seq<int> {
    if attempts != [] && SatSub(now, attempts[0]) >= BUDGET_WINDOW then PruneFront(attempts[1..], now) else attempts
  }

  /** The admission decision: Ok says whether the read is predicted to be a reuse. */
  function AdmitMarket(l: Ledger, now: int): (Ledger, Result<bool, Code>) {
    var reuse := ReuseEligible(l, now);
    if l.inFlight then (l, Err(MarketRateLimited))
    else if !reuse && CoolingDown(l, now) then (l, Err(MarketRateLimited))
    else
      var pruned := l.(attempts := PruneFront(l.attempts, now));
      if |pruned.attempts| >= LOGIN_BUDGET then (pruned, Err(MarketRateLimited))
      else (pruned.(inFlight := true, pendingEpoch := Some(now)), Ok(reuse))
  }

  function AdmitMarketAt(l: Ledger, nowIso: string): (Ledger, Result<bool, Code>) {
    match ParseIso(nowIso)
    case None => (l, Err(Internal))
    case Some(now) => AdmitMarket(l, now)
  }

  /** `finish`: a refresh that ended, or a permit dropped without a market finish. */
  function Finish(l: Ledger, recordLogin: bool): Ledger {
    var l1 := if recordLogin && l.pendingEpoch.Some? then Debit(l, l.pendingEpoch.value) else l;
    l1.(inFlight := false, pendingEpoch := None, validUntil := None)
  }

  function FinishMarket(l: Ledger, performedLogin: bool, holdsSession: bool, now: int, ttl: Option<nat>): Ledger {
    var l1 := if performedLogin then Debit(l, now) else l;
    l1.(validUntil := if holdsSession then ReuseWindowFrom(now, ttl) else None,
        inFlight := false, pendingEpoch := None)
  }

  function Debit(l: Ledger, epoch: int): Ledger {
    l.(lastLogin := Some(epoch), attempts := l.attempts + [epoch])
  }

  /** How one `LiveClient::call` ended. */
  datatype CallOutcome = Replied(reply: Reply) | NoReply | TransportFailed

  /** The reply as the controller sees it: a lost reply is `internal`, a failed write says so. */
  function Seen(o: CallOutcome): Reply {
    match o
    case Replied(Answered(s)) => Answered(s)
    case Replied(Failed(code, facts)) => Failed(CrossSocket(code), facts)
    case NoReply => Failed(Internal, None)
    case TransportFailed => Failed(LiveTransportFailure, None)
  }

  predicate ControllerPreserves(code: Code) {
    code in {MarketNotFound, MarketAmbiguousIdentifier, MarketUnsupportedAssetType}
  }

  function LoggedInBy(s: SessionStatus): bool {
    s.loginPerformed || s.recovered401
  }

  predicate PerformedLogin(reply: Reply) {
    match reply
    case Answered(s) => LoggedInBy(s)
    case Failed(code, Some(s)) => LoggedInBy(s)
    case Failed(code, None) => !ControllerPreserves(code) && code != LiveTransportFailure
  }

  predicate HoldsSession(reply: Reply) {
    reply.Failed? ==> ControllerPreserves(reply.code)
  }

  function FinishRead(l: Ledger, o: CallOutcome, now: int, ttl: Option<nat>): Ledger {
    FinishMarket(l, PerformedLogin(Seen(o)), HoldsSession(Seen(o)), now, ttl)
  }

  /* ---- the state as it is written ---- */

  class LiveLoginState {
    const reuseTtl: Option<nat>
    var inFlight: bool
    var pendingEpoch: Option<int>
    var lastLoginEpoch: Option<int>
    var loginAttempts: seq<int>
    var marketSessionValidUntil: Option<int>

    ghost function State(): Ledger
      reads this
    {
      Ledger(inFlight, pendingEpoch, lastLoginEpoch, loginAttempts, marketSessionValidUntil)
    }

    constructor (ttl: Option<nat>)
      ensures reuseTtl == ttl && State() == EMPTY
    {
      reuseTtl := ttl;
      inFlight, pendingEpoch, lastLoginEpoch, loginAttempts, marketSessionValidUntil := false, None, None, [], None;
    }

    method AdmitRefreshOperation() returns (res: Result<(), Code>)
      modifies this
      ensures match AdmitRefresh(old(State()))
              case Ok(l) => State() == l && res == Ok(())
              case Err(code) => State() == old(State()) && res == Err(code)
    {
      if inFlight {
        return Err(AlreadyRefreshing);
      }
      inFlight := true;
      marketSessionValidUntil := None;
      res := Ok(());
    }

    method AdmitMarketOperation(nowIso: string) returns (res: Result<bool, Code>)
      modifies this
      ensures (State(), res) == AdmitMarketAt(old(State()), nowIso)
    {
      var parsed := ParseIso(nowIso);
      if parsed.None? {
        return Err(Internal);
      }
      var now := parsed.value;
      if inFlight {
        return Err(MarketRateLimited);
      }
      var reuseEligible := marketSessionValidUntil.Some? && now < marketSessionValidUntil.value;
      if !reuseEligible && lastLoginEpoch.Some? {
        var age := SatSub(now, lastLoginEpoch.value);
        if age < LOGIN_COOLDOWN {
          return Err(MarketRateLimited);
        }
      }
      while loginAttempts != [] && SatSub(now, loginAttempts[0]) >= BUDGET_WINDOW
        invariant State() == old(State()).(attempts := loginAttempts)
        invariant PruneFront(loginAttempts, now) == PruneFront(old(loginAttempts), now)
        decreases |loginAttempts|
      {
        loginAttempts := loginAttempts[1..];
      }
      if |loginAttempts| >= LOGIN_BUDGET {
        return Err(MarketRateLimited);
      }
      inFlight := true;
      pendingEpoch := Some(now);
      res := Ok(reuseEligible);
    }

    method FinishOperation(recordLogin: bool)
      modifies this
      ensures State() == Finish(old(State()), recordLogin)
    {
      if recordLogin && pendingEpoch.Some? {
        lastLoginEpoch := Some(pendingEpoch.value);
        loginAttempts := loginAttempts + [pendingEpoch.value];
      }
      inFlight := false;
      pendingEpoch := None;
      marketSessionValidUntil := None;
    }

    method FinishMarketOperation(performedLogin: bool, holdsSession: bool, now: int)
      modifies this
      ensures State() == FinishMarket(old(State()), performedLogin, holdsSession, now, reuseTtl)
    {
      if performedLogin {
        lastLoginEpoch := Some(now);
        loginAttempts := loginAttempts + [now];
      }
      marketSessionValidUntil := if holdsSession then ReuseWindowFrom(now, reuseTtl) else None;
      inFlight := false;
      pendingEpoch := None;
    }

    /** `finish_with_session_status` or `finish_after_error`, whichever the reply calls for. */
    method FinishAfter(reply: Reply, now: int)
      modifies this
      ensures State() == FinishMarket(old(State()), PerformedLogin(reply), HoldsSession(reply), now, reuseTtl)
    {
      match reply {
        case Answered(s) =>
          FinishMarketOperation(s.loginPerformed || s.recovered401, true, now);
        case Failed(code, Some(s)) =>
          if ControllerPreserves(code) {
            FinishMarketOperation(s.loginPerformed || s.recovered401, true, now);
          } else {
            FinishMarketOperation(s.loginPerformed || s.recovered401, false, now);
          }
        case Failed(code, None) =>
          var preserves := ControllerPreserves(code);
          FinishMarketOperation(!preserves && code != LiveTransportFailure, preserves, now);
      }
    }
  }

  /* ---- what the end of a call does to the ledger ---- */

  /** The worker's own codes for an asset it looked up and did not find: the session was good. */
  predicate NothingFound(code: Code) {
    code == MarketNotFound || code == MarketAmbiguousIdentifier || code == MarketUnsupportedAssetType
  }

  /** A debit: a reported login, or no word of one and an error that does not rule it out; a lost reply always. */
  predicate Debits(o: CallOutcome) {
    match o
    case TransportFailed => false
    case NoReply => true
    case Replied(Answered(s)) => s.loginPerformed || s.recovered401
    case Replied(Failed(_, Some(s))) => s.loginPerformed || s.recovered401
    case Replied(Failed(code, None)) => !NothingFound(code) && code != LiveTransportFailure
  }

  /** The window opens after an answer and after an asset that was not found, and closes after anything else. */
  predicate OpensWindow(o: CallOutcome) {
    o.Replied? && (o.reply.Answered? || NothingFound(o.reply.code))
  }

  /** The whole ledger after a call, for every way it can end. */
  lemma CallEndsAs(l: Ledger, o: CallOutcome, now: int, ttl: Option<nat>)
    ensures var l' := FinishRead(l, o, now, ttl);
            && !l'.inFlight && l'.pendingEpoch == None
            && l'.attempts == (if Debits(o) then l.attempts + [now] else l.attempts)
            && l'.lastLogin == (if Debits(o) then Some(now) else l.lastLogin)
            && l'.validUntil == if OpensWindow(o) && ttl.Some? then Some(WindowEnd(now, ttl.value)) else None
    ensures o.NoReply? ==> Seen(o) == Failed(Internal, None)
    ensures o.Replied? ==>
              match o.reply
              case Answered(s) => Seen(o) == Answered(s)
              case Failed(code, facts) =>
                var unknown := {RefreshCooldown, RefreshBudgetExhausted, RefreshCircuitOpen};
                Seen(o) == Failed(if code in unknown then Internal else code, facts)
    ensures o.TransportFailed? ==> Seen(o) == Failed(LiveTransportFailure, None)
  {
  }

  /** A dropped permit debits nothing, a recorded one its pending timestamp; the window closes either way. */
  lemma PermitEndsAs(l: Ledger, recordLogin: bool)
    ensures var l' := Finish(l, recordLogin);
            && !l'.inFlight && l'.pendingEpoch == None && l'.validUntil == None
            && (if recordLogin && l.pendingEpoch.Some?
                then l'.attempts == l.attempts + [l.pendingEpoch.value] && l'.lastLogin == l.pendingEpoch
                else l'.attempts == l.attempts && l'.lastLogin == l.lastLogin)
  {
  }

  /* ---- the deque against the full history of debits ---- */

  predicate Sorted(xs: seq<int>) {
    forall i, j :: 0 <= i < j < |xs| ==> xs[i] <= xs[j]
  }

  /** The debits of the hour that ends at `now`. */
  function Recent(xs: seq<int>, now: int): seq<int> {
    if xs == [] then []
    else Recent(xs[..|xs| - 1], now) + if now - xs[|xs| - 1] < BUDGET_WINDOW then [xs[|xs| - 1]] else []
  }

  function CountIn(xs: seq<int>, lo: int, hi: int): nat {
    if xs == [] then 0
    else CountIn(xs[..|xs| - 1], lo, hi) + if lo <= xs[|xs| - 1] < hi then 1 else 0
  }

  lemma {:induction false} CountAppend(xs: seq<int>, x: int, lo: int, hi: int)
    ensures CountIn(xs + [x], lo, hi) == CountIn(xs, lo, hi) + if lo <= x < hi then 1 else 0
  {
    assert (xs + [x])[..|xs|] == xs;
  }

  lemma {:induction false} RecentOfOld(xs: seq<int>, now: int)
    requires forall i :: 0 <= i < |xs| ==> now - xs[i] >= BUDGET_WINDOW
    ensures Recent(xs, now) == []
  {
    if xs == [] {
    } else {
      RecentOfOld(xs[..|xs| - 1], now);
    }
  }

  lemma {:induction false} RecentOfNew(xs: seq<int>, now: int)
    requires forall i :: 0 <= i < |xs| ==> now - xs[i] < BUDGET_WINDOW
    ensures Recent(xs, now) == xs
  {
    if xs == [] {
    } else {
      RecentOfNew(xs[..|xs| - 1], now);
      assert xs == xs[..|xs| - 1] + [xs[|xs| - 1]];
    }
  }

  lemma {:induction false} RecentConcat(xs: seq<int>, ys: seq<int>, now: int)
    ensures Recent(xs + ys, now) == Recent(xs, now) + Recent(ys, now)
  {
    if ys == [] {
      assert xs + ys == xs;
    } else {
      var front := ys[..|ys| - 1];
      assert (xs + ys)[..|xs + ys| - 1] == xs + front;
      RecentConcat(xs, front, now);
    }
  }

  /** The debits of the last hour, counted. */
  lemma {:induction false} RecentCounts(xs: seq<int>, now: int)
    ensures |Recent(xs, now)| == |set i | 0 <= i < |xs| && now - xs[i] < 3_600|
  {
    if xs == [] {
    } else {
      var n := |xs| - 1;
      RecentCounts(xs[..n], now);
      var before := set i | 0 <= i < n && now - xs[..n][i] < 3_600;
      var all := set i | 0 <= i < |xs| && now - xs[i] < 3_600;
      assert all == before + if now - xs[n] < 3_600 then {n} else {};
    }
  }

  predicate AllInRange(xs: seq<int>) {
    forall i :: 0 <= i < |xs| ==> InRange(xs[i])
  }

  /** Popping from the front keeps a suffix and drops only debits an hour old or older. */
  lemma {:induction false} PruneKeepsSuffix(xs: seq<int>, now: int) returns (k: nat)
    requires AllInRange(xs) && InRange(now)
    ensures k <= |xs| && PruneFront(xs, now) == xs[k..]
    ensures forall i :: 0 <= i < k ==> now - xs[i] >= BUDGET_WINDOW
    ensures k < |xs| ==> now - xs[k] < BUDGET_WINDOW
  {
    if xs == [] || SatSub(now, xs[0]) < BUDGET_WINDOW {
      k := 0;
    } else {
      var j := PruneKeepsSuffix(xs[1..], now);
      k := j + 1;
      assert xs[1..][j..] == xs[k..];
      assert forall i :: 1 <= i < k ==> xs[i] == xs[1..][i - 1];
    }
  }

  /** On an ordered deque the front pops leave exactly the debits of the last hour. */
  lemma {:induction false} PruneIsRecent(xs: seq<int>, now: int)
    requires Sorted(xs) && AllInRange(xs) && InRange(now)
    ensures PruneFront(xs, now) == Recent(xs, now)
  {
    hide Recent, PruneFront, InRange;
    var k := PruneKeepsSuffix(xs, now);
    var gone, kept := xs[..k], xs[k..];
    assert xs == gone + kept;
    assert forall i :: 0 <= i < |kept| ==> kept[0] <= kept[i];
    RecentConcat(gone, kept, now);
    RecentOfOld(gone, now);
    RecentOfNew(kept, now);
  }

  /** A count is at most the length, and all of it once the window holds every entry. */
  lemma {:induction false} CountWhole(xs: seq<int>, lo: int, hi: int)
    ensures CountIn(xs, lo, hi) <= |xs|
    ensures (forall i :: 0 <= i < |xs| ==> lo <= xs[i] < hi) ==> CountIn(xs, lo, hi) == |xs|
  {
    if xs == [] {
    } else {
      CountWhole(xs[..|xs| - 1], lo, hi);
    }
  }

  lemma {:induction false} CountGrows(xs: seq<int>, lo: int, hi: int, lo': int, hi': int)
    requires lo' <= lo && hi <= hi'
    ensures CountIn(xs, lo, hi) <= CountIn(xs, lo', hi')
  {
    if xs == [] {
    } else {
      CountGrows(xs[..|xs| - 1], lo, hi, lo', hi');
    }
  }

  /** A window that holds every entry. */
  lemma {:induction false} Bounds(xs: seq<int>) returns (lo: int, hi: int)
    ensures forall i :: 0 <= i < |xs| ==> lo <= xs[i] < hi
  {
    if xs == [] {
      lo, hi := 0, 0;
    } else {
      var x := xs[|xs| - 1];
      lo, hi := Bounds(xs[..|xs| - 1]);
      lo, hi := if x < lo then x else lo, if x >= hi then x + 1 else hi;
    }
  }

  /** Debits that fall in an hour containing `now` and not after it are all recent. */
  lemma {:induction false} CountInHour(xs: seq<int>, now: int, lo: int)
    requires lo <= now < lo + BUDGET_WINDOW
    ensures CountIn(xs, lo, lo + BUDGET_WINDOW) <= |Recent(xs, now)|
  {
    if xs == [] {
    } else {
      CountInHour(xs[..|xs| - 1], now, lo);
    }
  }
}
