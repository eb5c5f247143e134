/** The safe error codes, the session facts and the replies that cross the live socket. */
module Wire {
  import opened Prelude

  datatype Code =
    | AuthRequired | StepUpRequired | MarketStepUpRequired | FinecoTimeout | FinecoUpstreamError
    | NotFound | RateLimited | MarketAuthRequired | MarketNotFound | MarketAmbiguousIdentifier
    | MarketUnsupportedAssetType | MarketRateLimited | MarketUpstreamFailure | MarketCircuitOpen
    | MarketUnexpectedResponse | LiveTransportFailure | AlreadyRefreshing | RefreshCooldown
    | RefreshBudgetExhausted | RefreshCircuitOpen | InvalidRequest | Internal

  datatype SafeError = SafeError(code: Code, retryable: bool)

  /** `MarketSessionStatus`, without its informational cookie lifetime. */
  datatype SessionStatus = SessionStatus(
    loginPerformed: bool,
    sessionReused: bool,
    sessionEvicted: bool,
    recovered401: bool)

  /** What the worker answers to a market read. */
  datatype Reply =
    | Answered(session: SessionStatus)
    | Failed(code: Code, facts: Option<SessionStatus>)

  /** The code the controller sees once the worker's error has been rebuilt from its wire form. */
  function CrossSocket(code: Code): Code {
    match code
    case RefreshCooldown | RefreshBudgetExhausted | RefreshCircuitOpen => Internal
    case _ => code
  }
}
