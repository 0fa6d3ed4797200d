/** Single-flight token refresh, as a state machine over its critical sections. */
module TokenRefresh {
  import opened Common

  const MAX_ACCESS_TOKEN_BYTES := 16_384
  const MAX_ACCESS_TOKEN_TTL_SECONDS := 86_400
  const TOKEN_CACHE_SAFETY_MARGIN_SECONDS := 120

  /** Clock readings are in nanoseconds. */
  const SECOND := 1_000_000_000

  // -------------------------------------------------------------- validation

  datatype Cached = Cached(value: string, expiresAt: int)

  datatype Validated = Validated(value: string, cached: Option<Cached>)

  datatype Failure = RefreshLost | ResponseDecode | Upstream(code: int)

  /** What a waiter is told. */
  datatype Answer = Token(value: string) | Failed(failure: Failure)

  /** How a worker ends: with a response read at time `at`, with an error, or not at all (it panicked). */
  datatype Outcome = Response(token: string, expireIn: int, at: int) | WorkerError(code: int) | Panicked

  predicate ValidToken(token: string) {
    0 < |token| <= MAX_ACCESS_TOKEN_BYTES && forall c <- token :: '!' <= c <= '~'
  }

  predicate ValidTtl(expireIn: int) {
    0 < expireIn <= MAX_ACCESS_TOKEN_TTL_SECONDS
  }

  /** `into_validated`. */
  function IntoValidated(token: string, expireIn: int, at: int): Option<Validated> {
    if !ValidToken(token) || !ValidTtl(expireIn) then None
    else
      var ttl := if expireIn >= TOKEN_CACHE_SAFETY_MARGIN_SECONDS then expireIn - TOKEN_CACHE_SAFETY_MARGIN_SECONDS else 0;
      Some(Validated(token, if ttl == 0 then None else Some(Cached(token, at + ttl * SECOND))))
  }

  datatype WorkerResult = Ok(validated: Validated) | Err(failure: Failure)

  /** What the supervisor hands to `complete`. */
  function ResultOf(o: Outcome): WorkerResult {
    match o
    case Response(token, expireIn, at) =>
      (match IntoValidated(token, expireIn, at) case Some(v) => Ok(v) case None => Err(ResponseDecode))
    case WorkerError(code) => Err(Upstream(code))
    case Panicked => Err(RefreshLost)
  }

  function AnswerOf(r: WorkerResult): Answer {
    match r case Ok(v) => Token(v.value) case Err(f) => Failed(f)
  }

  // ------------------------------------------------------------------- steps

  /**
   * Operations are numbered in the order they were created. `publishing` holds the completions that have left the lock
   * but not yet reached their operation.
   */
  datatype State = State(cached: Option<Cached>, inFlight: Option<nat>, completions: seq<Option<Answer>>,
                         publishing: seq<Publication>)

  datatype Publication = Publication(operation: nat, answer: Answer)

  const Initial := State(None, None, [], [])

  datatype Action = Serve(value: string) | Join(operation: nat) | Start(operation: nat)

  function Acquire(s: State, now: int): (State, Action) {
    if s.cached.Some? && now < s.cached.value.expiresAt then (s, Serve(s.cached.value.value))
    else if s.inFlight.Some? then (s.(cached := None), Join(s.inFlight.value))
    else
      var id := |s.completions|;
      (s.(cached := None, inFlight := Some(id), completions := s.completions + [None]), Start(id))
  }

  /** The critical section of `complete`; the answer is published afterwards. */
  function Complete(s: State, operation: nat, r: WorkerResult): State {
    if s.inFlight != Some(operation)
    then s.(publishing := s.publishing + [Publication(operation, Failed(RefreshLost))])
    else
      s.(inFlight := None,
         cached := if r.Ok? then r.validated.cached else s.cached,
         publishing := s.publishing + [Publication(operation, AnswerOf(r))])
  }

  /** `TokenRefreshOperation::complete`: the first answer stays. */
  function Publish(s: State, i: nat): State
    requires i < |s.publishing|
  {
    var p, rest := s.publishing[i], s.publishing[..i] + s.publishing[i + 1..];
    if p.operation < |s.completions| && s.completions[p.operation].None?
    then s.(completions := s.completions[p.operation := Some(p.answer)], publishing := rest)
    else s.(publishing := rest)
  }

  datatype Event = Acquired(now: int) | Completed(operation: nat, outcome: Outcome) | Published(index: nat)

  predicate Enabled(s: State, e: Event) {
    match e
    case Acquired(_) => true
    case Completed(operation, _) => operation < |s.completions|
    case Published(index) => index < |s.publishing|
  }

  function Step(s: State, e: Event): State
    requires Enabled(s, e)
  {
    match e
    case Acquired(now) => Acquire(s, now).0
    case Completed(operation, outcome) => Complete(s, operation, ResultOf(outcome))
    case Published(index) => Publish(s, index)
  }

  /** Any interleaving of callers, supervisors and publications, with duplicate and stale completions. */
  predicate IsRun(events: seq<Event>)
    decreases |events|, 0
  {
    events == [] || (IsRun(events[..|events| - 1]) && Enabled(After(events[..|events| - 1]), events[|events| - 1]))
  }

  function After(events: seq<Event>): State
    requires IsRun(events)
    decreases |events|, 1
  {
    if events == [] then Initial else Step(After(events[..|events| - 1]), events[|events| - 1])
  }
}
