/**
  The credentialed worker's market session: acquire, reuse, repair after a 401, evict, reap.
  The bank is an adversary that picks every login and read result; the reaper thread may tick in
  the middle of a read. A cookie is the serial number of the login attempt that minted it.
 */
module MarketWorker {
  import opened Prelude
  import opened Wire

  datatype Held = Held(cookie: nat, validUntil: int)

  /** `attempts` counts login attempts of every kind; `lastGood` is the newest one that succeeded. */
  datatype WorkerState = WorkerState(slot: Option<Held>, attempts: nat, lastGood: Option<nat>)

  datatype LoginResult = LoggedIn | LoginRefused(error: SafeError)
  datatype ReadResult = ReadOk | ReadFailed(code: Code)

  /**
    Everything outside the worker's control during one market read. `during` is the last reaper tick
    before the first read returns, `after` the last one before the second read returns: an earlier tick
    in the same gap clears nothing the later one does not. `loginAt` is when the bank sees the login
    attempt, if the read makes one.
   */
  datatype Bank = Bank(
    login: LoginResult,
    read: ReadResult,
    relogin: LoginResult,
    reread: ReadResult,
    during: Option<int>,
    after: Option<int>,
    loginAt: int)

  /**
    The outcome of one market read. `cookies` holds the cookie given to each call of the read closure;
    `reaped` is the last reaper tick after the read's last change to the slot.
   */
  datatype Served = Served(
    worker: WorkerState,
    reply: Reply,
    logins: nat,
    cookies: seq<nat>,
    reused: bool,
    reaped: Option<int>)

  /** The errors `login` can build: transport, credential source, upstream status, step-up. */
  predicate LoginCanFailWith(code: Code) {
    code in {InvalidRequest, FinecoTimeout, Internal, AuthRequired, NotFound, RateLimited,
             FinecoUpstreamError, StepUpRequired}
  }

  /** A login never fails with a code that speaks of an asset or of the socket; any other failure is possible. */
  predicate PossibleLogin(r: LoginResult) {
    r.LoginRefused? ==>
      r.error.code !in {MarketNotFound, MarketAmbiguousIdentifier, MarketUnsupportedAssetType, LiveTransportFailure}
  }

  predicate PossibleBank(bank: Bank) {
    PossibleLogin(bank.login) && PossibleLogin(bank.relogin)
  }

  function MarketLoginError(error: SafeError): SafeError {
    match error.code
    case AuthRequired => SafeError(MarketAuthRequired, false)
    case StepUpRequired => SafeError(MarketStepUpRequired, false)
    case RateLimited => SafeError(MarketRateLimited, true)
    case FinecoTimeout => SafeError(MarketUpstreamFailure, true)
    case FinecoUpstreamError =>
      if error.retryable then SafeError(MarketUpstreamFailure, true) else SafeError(MarketUnexpectedResponse, false)
    case NotFound => SafeError(MarketUnexpectedResponse, false)
    case _ => error
  }

  predicate WorkerPreserves(code: Code) {
    code in {MarketNotFound, MarketAmbiguousIdentifier, MarketUnsupportedAssetType}
  }

  const FRESH := SessionStatus(true, false, false, false)
  const REUSED := SessionStatus(false, true, false, false)
  const RECOVERED := SessionStatus(true, false, true, true)

  /** The end of a reuse window opened at `now`; controller and worker compute it the same way. */
  function WindowEnd(now: int, ttl: nat): int {
    SatAdd(now, if ttl > I64_MAX then I64_MAX else ttl)
  }

  function Store(w: WorkerState, cookie: nat, now: int, ttl: Option<nat>): WorkerState {
    match ttl
    case None => w
    case Some(secs) => w.(slot := Some(Held(cookie, WindowEnd(now, secs))))
  }

  function Evict(w: WorkerState): WorkerState {
    w.(slot := None)
  }

  function Reap(w: WorkerState, tick: Option<int>): WorkerState {
    if tick.Some? && w.slot.Some? && tick.value >= w.slot.value.validUntil then Evict(w) else w
  }

  function Login(w: WorkerState, r: LoginResult): WorkerState {
    w.(attempts := w.attempts + 1, lastGood := if r.LoggedIn? then Some(w.attempts + 1) else w.lastGood)
  }

  predicate CanReuse(w: WorkerState, now: int, ttl: Option<nat>) {
    ttl.Some? && w.slot.Some? && now < w.slot.value.validUntil
  }

  /** `refresh_login`: evict, then log in; the cookie never reaches the slot. */
  function RefreshLogin(w: WorkerState, r: LoginResult): WorkerState {
    Login(Evict(w), r)
  }

  /** `run_market_read` when no held session can be reused. */
  function FreshRead(w: WorkerState, now: int, ttl: Option<nat>, bank: Bank): Served {
    var w1 := Login(if ttl.Some? then Evict(w) else w, bank.login);
    match bank.login
    case LoginRefused(e) => Served(w1, Failed(MarketLoginError(e).code, None), 1, [], false, None)
    case LoggedIn =>
      var cookie := w1.attempts;
      var w2 := Reap(Store(w1, cookie, now, ttl), bank.during);
      match bank.read
      case ReadOk => Served(Store(w2, cookie, now, ttl), Answered(FRESH), 1, [cookie], false, None)
      case ReadFailed(code) =>
        if code == MarketAuthRequired then
          Served(Evict(w2), Failed(code, None), 1, [cookie], false, None)
        else
          var w3 := if WorkerPreserves(code) then Store(w2, cookie, now, ttl) else w2;
          var reaped := if WorkerPreserves(code) then None else bank.during;
          Served(w3, Failed(code, Some(FRESH)), 1, [cookie], false, reaped)
  }

  /** `run_market_read` on a held session, with its single 401 repair. */
  function ReusedRead(w: WorkerState, now: int, ttl: Option<nat>, bank: Bank): Served
    requires w.slot.Some?
  {
    var held := w.slot.value.cookie;
    var w1 := Reap(w, bank.during);
    match bank.read
    case ReadOk => Served(Store(w1, held, now, ttl), Answered(REUSED), 0, [held], true, None)
    case ReadFailed(code) =>
      if code == MarketAuthRequired then RepairedRead(Evict(w1), held, now, ttl, bank)
      else
        var w2 := if WorkerPreserves(code) then Store(w1, held, now, ttl) else w1;
        var reaped := if WorkerPreserves(code) then None else bank.during;
        Served(w2, Failed(code, Some(REUSED)), 0, [held], true, reaped)
  }

  function RepairedRead(w: WorkerState, held: nat, now: int, ttl: Option<nat>, bank: Bank): Served {
    var w1 := Login(w, bank.relogin);
    match bank.relogin
    case LoginRefused(e) => Served(w1, Failed(MarketLoginError(e).code, None), 1, [held], true, None)
    case LoggedIn =>
      var cookie := w1.attempts;
      var w2 := Reap(Store(w1, cookie, now, ttl), bank.after);
      match bank.reread
      case ReadOk => Served(Store(w2, cookie, now, ttl), Answered(RECOVERED), 1, [held, cookie], true, None)
      case ReadFailed(code) =>
        var w3 := if code == MarketAuthRequired then Evict(w2) else w2;
        var reaped := if code == MarketAuthRequired then None else bank.after;
        Served(w3, Failed(code, Some(RECOVERED)), 1, [held, cookie], true, reaped)
  }

  function MarketRead(w: WorkerState, now: int, ttl: Option<nat>, bank: Bank): Served {
    if CanReuse(w, now, ttl) then ReusedRead(w, now, ttl, bank) else FreshRead(w, now, ttl, bank)
  }

  /* ---- the worker as it is written: one slot, changed step by step ---- */

  datatype Acquired = Acquired(cookie: nat, reused: bool)

  class FinecoWorker {
    const reuseTtl: Option<nat>
    var marketSession: Option<Held>
    /** Stands for the bank: every login POST gets the next serial number as its cookie. */
    var attempts: nat
    ghost var lastGood: Option<nat>

    ghost function State(): WorkerState
      reads this
    {
      WorkerState(marketSession, attempts, lastGood)
    }

    constructor (ttl: Option<nat>)
      ensures reuseTtl == ttl && State() == WorkerState(None, 0, None)
    {
      reuseTtl, marketSession, attempts, lastGood := ttl, None, 0, None;
    }

    method PostLogin(r: LoginResult) returns (res: Result<nat, SafeError>)
      modifies this
      ensures State() == Login(old(State()), r)
      ensures res == if r.LoggedIn? then Ok(attempts) else Err(r.error)
    {
      attempts := attempts + 1;
      match r {
        case LoggedIn =>
          lastGood := Some(attempts);
          res := Ok(attempts);
        case LoginRefused(e) =>
          res := Err(e);
      }
    }

    method EvictMarketSession()
      modifies this`marketSession
      ensures State() == Evict(old(State()))
    {
      marketSession := None;
    }

    method StoreMarketSessionParts(cookie: nat, now: int)
      modifies this`marketSession
      ensures State() == Store(old(State()), cookie, now, reuseTtl)
    {
      if reuseTtl.Some? {
        marketSession := Some(Held(cookie, WindowEnd(now, reuseTtl.value)));
      }
    }

    method ReapExpiredMarketSession(now: int)
      modifies this`marketSession
      ensures State() == Reap(old(State()), Some(now))
    {
      if marketSession.Some? && now >= marketSession.value.validUntil {
        marketSession := None;
      }
    }

    /** The reaper thread's turn, when the schedule gives it one. */
    method MaybeReap(tick: Option<int>)
      modifies this`marketSession
      ensures State() == Reap(old(State()), tick)
    {
      if tick.Some? {
        ReapExpiredMarketSession(tick.value);
      }
    }

    method DoRefreshLogin(r: LoginResult) returns (res: Result<nat, SafeError>)
      modifies this
      ensures State() == RefreshLogin(old(State()), r)
      ensures res == if r.LoggedIn? then Ok(attempts) else Err(r.error)
    {
      EvictMarketSession();
      res := PostLogin(r);
    }

    method AcquireMarketSession(now: int, login: LoginResult) returns (res: Result<Acquired, Code>)
      modifies this
      ensures var w := old(State());
              if CanReuse(w, now, reuseTtl) then
                State() == w && res == Ok(Acquired(w.slot.value.cookie, true))
              else
                var w1 := Login(if reuseTtl.Some? then Evict(w) else w, login);
                match login
                case LoggedIn =>
                  State() == Store(w1, w1.attempts, now, reuseTtl) && res == Ok(Acquired(w1.attempts, false))
                case LoginRefused(e) => State() == w1 && res == Err(MarketLoginError(e).code)
    {
      if reuseTtl.Some? {
        if marketSession.Some? && now < marketSession.value.validUntil {
          return Ok(Acquired(marketSession.value.cookie, true));
        }
        EvictMarketSession();
      }
      var minted := PostLogin(login);
      match minted {
        case Ok(cookie) =>
          StoreMarketSessionParts(cookie, now);
          return Ok(Acquired(cookie, false));
        case Err(e) =>
          return Err(MarketLoginError(e).code);
      }
    }

    /** One authenticated market read; `cookies` are those handed to the read closure, call by call. */
    method RunMarketRead(now: int, bank: Bank) returns (reply: Reply, cookies: seq<nat>)
      modifies this
      ensures var served := MarketRead(old(State()), now, reuseTtl, bank);
              State() == served.worker && reply == served.reply && cookies == served.cookies
    {
      cookies := [];
      var got := AcquireMarketSession(now, bank.login);
      if got.Err? {
        return Failed(got.error, None), cookies;
      }
      var acquired := got.value;
      cookies := [acquired.cookie];
      MaybeReap(bank.during);
      match bank.read {
        case ReadOk =>
          StoreMarketSessionParts(acquired.cookie, now);
          return Answered(if acquired.reused then REUSED else FRESH), cookies;
        case ReadFailed(code) =>
          if code == MarketAuthRequired {
            EvictMarketSession();
            if !acquired.reused {
              return Failed(code, None), cookies;
            }
            reply, cookies := RepairOnce(acquired.cookie, now, bank);
            return;
          }
          if WorkerPreserves(code) {
            StoreMarketSessionParts(acquired.cookie, now);
          }
          return Failed(code, Some(if acquired.reused then REUSED else FRESH)), cookies;
      }
    }

    /** The one fresh-login retry a reused session gets after a 401. */
    method RepairOnce(held: nat, now: int, bank: Bank) returns (reply: Reply, cookies: seq<nat>)
      modifies this
      ensures var served := RepairedRead(old(State()), held, now, reuseTtl, bank);
              State() == served.worker && reply == served.reply && cookies == served.cookies
    {
      var minted := PostLogin(bank.relogin);
      match minted {
        case Err(e) =>
          return Failed(MarketLoginError(e).code, None), [held];
        case Ok(cookie) =>
          StoreMarketSessionParts(cookie, now);
          MaybeReap(bank.after);
          match bank.reread {
            case ReadOk =>
              StoreMarketSessionParts(cookie, now);
              return Answered(RECOVERED), [held, cookie];
            case ReadFailed(code) =>
              if code == MarketAuthRequired {
                EvictMarketSession();
              }
              return Failed(code, Some(RECOVERED)), [held, cookie];
          }
      }
    }
  }

  /* ---- what every read keeps ---- */

  /** A held cookie is the one minted by the newest login attempt of any kind, and that attempt succeeded. */
  predicate HoldsNewest(w: WorkerState) {
    w.slot.Some? ==> w.slot.value.cookie == w.attempts && w.lastGood == Some(w.attempts)
  }

  /**
    One read: at most one login, at most two calls of the read closure, and never a cookie older than the
    newest login.
   */
  lemma ReadLimits(w: WorkerState, now: int, ttl: Option<nat>, bank: Bank)
    requires HoldsNewest(w) && (ttl.None? ==> w.slot.None?)
    ensures var served := MarketRead(w, now, ttl, bank);
            && HoldsNewest(served.worker) && (ttl.None? ==> served.worker.slot.None?)
            && served.logins <= 1 && |served.cookies| <= 2
            && served.worker.attempts == w.attempts + served.logins
            && (served.reused ==> served.cookies != [] && served.cookies[0] == w.attempts)
            && (!served.reused ==> served.cookies == [] || served.cookies == [served.worker.attempts])
            && (|served.cookies| == 2 ==>
                  served.reused && served.logins == 1 && served.cookies[1] == served.worker.attempts)
  {
  }

  /**
    A held session inside its window is reused. A 401 on it is repaired by exactly one login and, if that
    succeeds, one more read with the new cookie; no other answer of the bank causes a login.
   */
  lemma ReuseIsRepairedOnce(w: WorkerState, now: int, ttl: Option<nat>, bank: Bank)
    requires ttl.Some? && w.slot.Some? && now < w.slot.value.validUntil
    ensures var served, held := MarketRead(w, now, ttl, bank), w.slot.value.cookie;
            var refused := bank.read == ReadFailed(MarketAuthRequired);
            && served.reused && served.logins == (if refused then 1 else 0)
            && served.cookies == (if refused && bank.relogin.LoggedIn? then [held, w.attempts + 1] else [held])
            && (served.reply.Answered? <==>
                  bank.read.ReadOk? || (refused && bank.relogin.LoggedIn? && bank.reread.ReadOk?))
            && match served.reply
               case Answered(s) => s == SessionStatus(refused, !refused, refused, refused)
               case Failed(code, facts) =>
                 if !refused then code == bank.read.code && facts == Some(SessionStatus(false, true, false, false))
                 else if bank.relogin.LoginRefused? then
                   code == MarketLoginError(bank.relogin.error).code && facts == None
                 else code == bank.reread.code && facts == Some(SessionStatus(true, false, true, true))
  {
  }

  /** Any other read logs in exactly once, and a failed login or a 401 is its answer: nothing is tried again. */
  lemma FreshReadLogsInOnce(w: WorkerState, now: int, ttl: Option<nat>, bank: Bank)
    requires !(ttl.Some? && w.slot.Some? && now < w.slot.value.validUntil)
    ensures var served := MarketRead(w, now, ttl, bank);
            && !served.reused && served.logins == 1
            && served.cookies == (if bank.login.LoggedIn? then [w.attempts + 1] else [])
            && (served.reply.Answered? <==> bank.login.LoggedIn? && bank.read.ReadOk?)
            && match served.reply
               case Answered(s) => s == SessionStatus(true, false, false, false)
               case Failed(code, facts) =>
                 if bank.login.LoginRefused? then code == MarketLoginError(bank.login.error).code && facts == None
                 else
                   && code == bank.read.code
                   && facts == if code == MarketAuthRequired then None
                               else Some(SessionStatus(true, false, false, false))
  {
  }

  /** The end of the window is the read's time plus the time-to-live; each is held at the largest i64. */
  lemma WindowEndIs(now: int, ttl: nat)
    requires I64_MIN <= now <= I64_MAX
    ensures var secs := if ttl > I64_MAX then I64_MAX else ttl;
            WindowEnd(now, ttl) == if secs > I64_MAX - now then I64_MAX else now + secs
  {
  }

  /** What the reaper leaves of a session after its last tick of a gap. */
  predicate Survives(tick: Option<int>, until: int) {
    tick == None || tick.value < until
  }

  /**
    The slot after a read, reuse being on. An answer, and a first read that found no such asset, store the
    cookie used for a fresh window; a refused login or a last 401 empties the slot; any other failure leaves
    the session it used where it was, unless the reaper took it.
   */
  lemma SlotAfterRead(w: WorkerState, now: int, ttl: nat, bank: Bank)
    ensures var served, until := MarketRead(w, now, Some(ttl), bank), WindowEnd(now, ttl);
            var calls := |served.cookies|;
            var missing := {MarketNotFound, MarketAmbiguousIdentifier, MarketUnsupportedAssetType};
            served.worker.slot ==
              match served.reply
              case Answered(_) => Some(Held(served.cookies[calls - 1], until))
              case Failed(code, _) =>
                if calls == 0 || (calls == 1 && bank.read == ReadFailed(MarketAuthRequired)) then None
                else if calls == 2 then
                  (if code == MarketAuthRequired || !Survives(bank.after, until) then None
                   else Some(Held(served.cookies[1], until)))
                else if code in missing then Some(Held(served.cookies[0], until))
                else if served.reused then
                  (if Survives(bank.during, w.slot.value.validUntil) then w.slot else None)
                else if Survives(bank.during, until) then Some(Held(served.cookies[0], until)) else None
  {
  }

  /** The last reaper tick after the read's last change to the slot, and the newest successful login. */
  lemma MarksAfterRead(w: WorkerState, now: int, ttl: nat, bank: Bank)
    ensures var served := MarketRead(w, now, Some(ttl), bank);
            var calls := |served.cookies|;
            var missing := {MarketNotFound, MarketAmbiguousIdentifier, MarketUnsupportedAssetType};
            && served.reaped == (if served.reply.Answered? || calls == 0 || served.reply.code == MarketAuthRequired
                                    || (calls == 1 && bank.read == ReadFailed(MarketAuthRequired)) then None
                                 else if calls == 2 then bank.after
                                 else if served.reply.code in missing then None else bank.during)
            && served.worker.lastGood
               == if calls == 2 || (calls == 1 && !served.reused) then Some(w.attempts + 1) else w.lastGood
  {
  }

  /** With reuse off nothing is ever stored. */
  lemma NothingStoredWithoutReuse(w: WorkerState, now: int, bank: Bank)
    requires w.slot.None?
    ensures MarketRead(w, now, None, bank).worker.slot.None?
  {
  }

  lemma RefreshLeavesNothingHeld(w: WorkerState, r: LoginResult)
    ensures RefreshLogin(w, r).slot.None? && HoldsNewest(RefreshLogin(w, r))
    ensures RefreshLogin(w, r).attempts == w.attempts + 1
  {
  }

  lemma ReapKeepsNewest(w: WorkerState, tick: Option<int>)
    requires HoldsNewest(w)
    ensures HoldsNewest(Reap(w, tick))
  {
  }
}
