/** What holds in every run of the token refresh. */
module TokenRefreshProofs {
  import opened Common
  import opened TokenRefresh

  /** An unfinished operation is in flight or about to be published; an operation in flight leaves the cache empty. */
  ghost predicate Safe(s: State) {
    && (s.inFlight.Some? ==>
          s.inFlight.value < |s.completions| && s.completions[s.inFlight.value].None? && s.cached.None?)
    && (forall p <- s.publishing :: p.operation < |s.completions| && s.inFlight != Some(p.operation))
    && (forall g | 0 <= g < |s.completions| && s.completions[g].None? ::
          s.inFlight == Some(g) || exists p <- s.publishing :: p.operation == g)
  }

  lemma StepKeepsSafe(s: State, e: Event)
    requires Safe(s) && Enabled(s, e)
    ensures Safe(Step(s, e))
  {
    var t := Step(s, e);
    match e
    case Acquired(now) =>
    case Completed(operation, outcome) =>
      var last := t.publishing[|s.publishing|];
      assert last in t.publishing && last.operation == operation;
      forall g | 0 <= g < |t.completions| && t.completions[g].None?
        ensures t.inFlight == Some(g) || exists p <- t.publishing :: p.operation == g
      {
        if s.inFlight != Some(g) {
          var p :| p in s.publishing && p.operation == g;
          assert p in t.publishing;
        }
      }
    case Published(i) =>
      var p := s.publishing[i];
      assert p in s.publishing && forall q <- t.publishing :: q in s.publishing;
      forall g | 0 <= g < |t.completions| && t.completions[g].None?
        ensures t.inFlight == Some(g) || exists q <- t.publishing :: q.operation == g
      {
        if s.inFlight != Some(g) {
          var q :| q in s.publishing && q.operation == g;
          assert q != p;
          assert q in t.publishing;
        }
      }
  }

  /** In every run: one operation in flight at most, and no waiter is left without a pending answer. */
  lemma {:induction false} RunsAreSafe(events: seq<Event>)
    requires IsRun(events)
    ensures Safe(After(events))
  {
    if events != [] {
      RunsAreSafe(events[..|events| - 1]);
      StepKeepsSafe(After(events[..|events| - 1]), events[|events| - 1]);
    }
  }

  // -------------------------------------------------------------- write-once

  /** An answer, once given, is the answer however the run goes on: all waiters of an operation hear the same. */
  lemma {:induction false} AnswersAreFinal(events: seq<Event>, more: seq<Event>, g: nat)
    requires IsRun(events) && IsRun(events + more)
    requires g < |After(events).completions| && After(events).completions[g].Some?
    ensures g < |After(events + more).completions|
    ensures After(events + more).completions[g] == After(events).completions[g]
  {
    if more == [] {
      assert events + more == events;
    } else {
      var init := more[..|more| - 1];
      assert (events + more)[..|events + more| - 1] == events + init;
      AnswersAreFinal(events, init, g);
    }
  }

  // --------------------------------------------------------- non-interference

  /** A publication, or the completion of an operation that is not in flight. */
  predicate IsStale(s: State, e: Event) {
    e.Published? || (e.Completed? && s.inFlight != Some(e.operation))
  }

  /** The run without its publications, and without completions of operations that were not in flight. */
  function Core(events: seq<Event>): seq<Event>
    requires IsRun(events)
  {
    if events == [] then []
    else
      var init, e := events[..|events| - 1], events[|events| - 1];
      if IsStale(After(init), e) then Core(init) else Core(init) + [e]
  }

  /** The same cache and slot, so the same treatment of whoever comes next. */
  predicate SameCoordinator(s: State, t: State) {
    s.cached == t.cached && s.inFlight == t.inFlight && |s.completions| == |t.completions|
  }

  lemma RunGoesOn(events: seq<Event>, e: Event)
    requires IsRun(events) && Enabled(After(events), e)
    ensures IsRun(events + [e]) && After(events + [e]) == Step(After(events), e)
  {
    assert (events + [e])[..|events|] == events;
  }

  /**
   Stale completions and publications interfere with nothing: delete all of them from any run, and after each remaining
   event the cache, the slot and what the next caller is told to do are what they were.
   */
  lemma {:induction false} StaleCompletionsDoNotInterfere(events: seq<Event>, k: nat, now: int)
    requires IsRun(events) && k <= |events| && IsRun(events[..k])
    ensures Core(events[..k]) <= Core(events) && IsRun(Core(events[..k]))
    ensures SameCoordinator(After(Core(events[..k])), After(events[..k]))
    ensures Acquire(After(Core(events[..k])), now).1 == Acquire(After(events[..k]), now).1
  {
    if k < |events| {
      assert events[..|events| - 1][..k] == events[..k];
      StaleCompletionsDoNotInterfere(events[..|events| - 1], k, now);
    } else {
      assert events[..k] == events;
      CoreRuns(events);
    }
  }

  lemma {:induction false} CoreRuns(events: seq<Event>)
    requires IsRun(events)
    ensures IsRun(Core(events)) && SameCoordinator(After(Core(events)), After(events))
  {
    if events != [] {
      var init, e := events[..|events| - 1], events[|events| - 1];
      CoreRuns(init);
      CoreStep(After(Core(init)), After(init), e);
      hide Step, After, IsRun, Enabled, SameCoordinator;
      if !IsStale(After(init), e) { RunGoesOn(Core(init), e); }
    }
  }

  lemma CoreStep(s: State, t: State, e: Event)
    requires SameCoordinator(s, t) && Enabled(t, e)
    ensures if IsStale(t, e) then SameCoordinator(s, Step(t, e))
            else Enabled(s, e) && SameCoordinator(Step(s, e), Step(t, e))
  {
    hide ResultOf;
  }

  // ------------------------------------------------------------------- cache

  /** Event `k` completed the operation in flight with a valid response. */
  ghost predicate Refreshed(events: seq<Event>, k: nat, token: string, expireIn: int, at: int) {
    && IsRun(events) && k < |events| && IsRun(events[..k])
    && events[k].Completed? && events[k].outcome == Response(token, expireIn, at)
    && After(events[..k]).inFlight == Some(events[k].operation)
    && ValidToken(token) && ValidTtl(expireIn)
  }

  /** Whatever is cached came from one refresh, and expires a safety margin before the token does. */
  lemma {:induction false} CacheHasSource(events: seq<Event>) returns (k: nat, expireIn: int, at: int)
    requires IsRun(events) && After(events).cached.Some?
    ensures var c := After(events).cached.value;
            Refreshed(events, k, c.value, expireIn, at)
            && c.expiresAt == Expiry(expireIn, at)
  {
    var init, e := events[..|events| - 1], events[|events| - 1];
    var s := After(init);
    RunsAreSafe(init);
    if e.Completed? && s.inFlight == Some(e.operation) {
      k, expireIn, at := |init|, e.outcome.expireIn, e.outcome.at;
      assert events[..k] == init;
    } else {
      k, expireIn, at := CacheHasSource(init);
      assert init[..k] == events[..k];
    }
  }

  /** A token is served from the cache only while its own validity, less the margin, has not run out. */
  lemma {:induction false} ServedTokensAreFresh(events: seq<Event>, now: int, token: string)
    requires IsRun(events) && Acquire(After(events), now).1 == Serve(token)
    ensures exists k: nat, expireIn: int, at: int ::
              Refreshed(events, k, token, expireIn, at) && now < Expiry(expireIn, at)
  {
    var k, expireIn, at := CacheHasSource(events);
  }

  function Expiry(expireIn: int, at: int): int {
    at + (expireIn - TOKEN_CACHE_SAFETY_MARGIN_SECONDS) * SECOND
  }

  /**
   One refresh serves everybody: from a refresh that outlives the margin until its token expires, every caller gets
   that token and no other refresh starts, whatever stale completions and publications happen meanwhile.
   */
  lemma {:induction false} FreshTokenServesEveryone(events: seq<Event>, k: nat, token: string, expireIn: int, at: int,
                                                    now: int)
    requires Refreshed(events, k, token, expireIn, at) && expireIn > TOKEN_CACHE_SAFETY_MARGIN_SECONDS
    requires forall j :: k < j < |events| && events[j].Acquired? ==> events[j].now < Expiry(expireIn, at)
    ensures After(events).inFlight == None && After(events).cached == Some(Cached(token, Expiry(expireIn, at)))
    ensures now < Expiry(expireIn, at) ==> Acquire(After(events), now) == (After(events), Serve(token))
  {
    var init, e := events[..|events| - 1], events[|events| - 1];
    if k == |events| - 1 {
      assert events[..k] == init;
    } else {
      assert init[..k] == events[..k] && forall j :: 0 <= j < |init| ==> init[j] == events[j];
      FreshTokenServesEveryone(init, k, token, expireIn, at, if e.Acquired? then e.now else now);
    }
  }

  // ------------------------------------------------------- what waiters hear

  /** A response a caller may use: 1 to 16384 visible ASCII characters that live for up to a day. */
  predicate Usable(token: string, expireIn: int) {
    1 <= |token| <= 16_384 && (forall c <- token :: '!' <= c <= '~') && 1 <= expireIn <= 86_400
  }

  /** What a worker's end means to whoever waits for it. */
  function Heard(o: Outcome): Answer {
    match o
    case Response(token, expireIn, _) => if Usable(token, expireIn) then Token(token) else Failed(ResponseDecode)
    case WorkerError(code) => Failed(Upstream(code))
    case Panicked => Failed(RefreshLost)
  }

  lemma HeardIsAnswered(o: Outcome)
    ensures AnswerOf(ResultOf(o)) == Heard(o)
    ensures ResultOf(o).Ok? <==> o.Response? && Usable(o.token, o.expireIn)
    ensures ResultOf(o).Ok? ==>
              ResultOf(o).validated.cached ==
              if o.expireIn > 120 then Some(Cached(o.token, o.at + (o.expireIn - 120) * 1_000_000_000)) else None
  {
  }

  /** How often the operation was completed. */
  function Completions(events: seq<Event>, g: nat): nat {
    if events == [] then 0
    else
      var e := events[|events| - 1];
      Completions(events[..|events| - 1], g) + if e.Completed? && e.operation == g then 1 else 0
  }

  /** What the first completion of the operation means to its waiters. */
  function FirstAnswer(events: seq<Event>, g: nat): (r: Option<Answer>)
    ensures r.Some? <==> Completions(events, g) > 0
  {
    if events == [] then None
    else
      var e, before := events[|events| - 1], FirstAnswer(events[..|events| - 1], g);
      if before.None? && e.Completed? && e.operation == g then Some(Heard(e.outcome)) else before
  }

  /** The first answer; or the loss of the refresh, if the operation was completed again. */
  predicate Possible(events: seq<Event>, g: nat, a: Answer) {
    FirstAnswer(events, g) == Some(a) || (Completions(events, g) >= 2 && a == Failed(RefreshLost))
  }

  ghost predicate Told(events: seq<Event>, s: State) {
    && (forall g: nat :: g < |s.completions| ==> (s.inFlight == Some(g) <==> FirstAnswer(events, g).None?))
    && (forall g: nat :: g >= |s.completions| ==> FirstAnswer(events, g).None?)
    && (forall g: nat :: g < |s.completions| && s.completions[g].Some? ==> Possible(events, g, s.completions[g].value))
    && (forall p <- s.publishing :: Possible(events, p.operation, p.answer))
  }

  lemma OneMore(init: seq<Event>, e: Event, g: nat)
    ensures var hit := e.Completed? && e.operation == g;
            && Completions(init + [e], g) == Completions(init, g) + (if hit then 1 else 0)
            && FirstAnswer(init + [e], g) ==
               (if hit && FirstAnswer(init, g).None? then Some(Heard(e.outcome)) else FirstAnswer(init, g))
            && (forall a :: Possible(init, g, a) ==> Possible(init + [e], g, a))
  {
    assert (init + [e])[..|init|] == init;
    hide Heard;
  }

  lemma ToldStep(init: seq<Event>, e: Event, s: State)
    requires Told(init, s) && Safe(s) && Enabled(s, e)
    ensures Told(init + [e], Step(s, e))
  {
    var t := Step(s, e);
    forall g: nat { OneMore(init, e, g); }
    if e.Completed? {
      HeardIsAnswered(e.outcome);
      assert t.publishing[..|s.publishing|] == s.publishing;
    }
    if e.Published? {
      assert s.publishing[e.index] in s.publishing && forall p <- t.publishing :: p in s.publishing;
    }
    hide Completions, FirstAnswer, Safe, ResultOf, AnswerOf, Heard;
  }

  lemma {:induction false} RunsTell(events: seq<Event>)
    requires IsRun(events)
    ensures Told(events, After(events))
  {
    if events != [] {
      var init, e := events[..|events| - 1], events[|events| - 1];
      assert events == init + [e];
      RunsTell(init);
      RunsAreSafe(init);
      ToldStep(init, e, After(init));
    }
  }

  /** In every run a waiter hears the first answer of its operation, or its loss if that was completed again. */
  lemma {:induction false} WaitersGetTheirResult(events: seq<Event>, g: nat)
    requires IsRun(events) && g < |After(events).completions| && After(events).completions[g].Some?
    ensures Possible(events, g, After(events).completions[g].value)
  {
    RunsTell(events);
  }

  /** Event `k` is the first completion of `g`. */
  ghost predicate FirstCompletion(events: seq<Event>, k: nat, g: nat) {
    && k < |events| && events[k].Completed? && events[k].operation == g
    && forall j :: 0 <= j < k && events[j].Completed? ==> events[j].operation != g
  }

  lemma {:induction false} FirstIsFirst(events: seq<Event>, g: nat) returns (k: nat)
    requires FirstAnswer(events, g).Some?
    ensures FirstCompletion(events, k, g) && FirstAnswer(events, g) == Some(Heard(events[k].outcome))
  {
    var init, e := events[..|events| - 1], events[|events| - 1];
    if FirstAnswer(init, g).Some? {
      k := FirstIsFirst(init, g);
      hide Heard;
    } else {
      k := |init|;
      NeverCompleted(init, g);
    }
  }

  lemma {:induction false} NeverCompleted(events: seq<Event>, g: nat)
    requires Completions(events, g) == 0
    ensures forall j :: 0 <= j < |events| && events[j].Completed? ==> events[j].operation != g
  {
    if events != [] { NeverCompleted(events[..|events| - 1], g); }
  }

  /** A waiter is handed a token only if the first completion of its operation was a usable response with that token. */
  lemma TokensComeFromResponses(events: seq<Event>, g: nat, token: string) returns (k: nat)
    requires IsRun(events) && g < |After(events).completions| && After(events).completions[g] == Some(Token(token))
    ensures FirstCompletion(events, k, g) && events[k].outcome.Response? && events[k].outcome.token == token
    ensures Usable(token, events[k].outcome.expireIn)
  {
    WaitersGetTheirResult(events, g);
    k := FirstIsFirst(events, g);
    hide IsRun, After;
  }

  /** An operation completed once tells its waiters what its worker produced: token, error, bad response or panic. */
  lemma WorkersAreHeard(events: seq<Event>, k: nat, g: nat)
    requires IsRun(events) && k < |events| && events[k].Completed? && events[k].operation == g && Completions(events, g) == 1
    requires g < |After(events).completions| && After(events).completions[g].Some?
    ensures After(events).completions[g].value ==
            match events[k].outcome
            case Response(token, expireIn, _) => if Usable(token, expireIn) then Token(token) else Failed(ResponseDecode)
            case WorkerError(code) => Failed(Upstream(code))
            case Panicked => Failed(RefreshLost)
  {
    WaitersGetTheirResult(events, g);
    var first := FirstIsFirst(events, g);
    if first != k { TwoCompletions(events, first, k, g); }
    hide IsRun, After;
  }

  lemma {:induction false} OneCompletion(events: seq<Event>, j: nat, g: nat)
    requires j < |events| && events[j].Completed? && events[j].operation == g
    ensures Completions(events, g) >= 1
  {
    if j < |events| - 1 { OneCompletion(events[..|events| - 1], j, g); }
  }

  lemma {:induction false} TwoCompletions(events: seq<Event>, i: nat, j: nat, g: nat)
    requires i < |events| && j < |events| && i != j
    requires events[i].Completed? && events[i].operation == g && events[j].Completed? && events[j].operation == g
    ensures Completions(events, g) >= 2
  {
    var init := events[..|events| - 1];
    if i < |init| && j < |init| {
      TwoCompletions(init, i, j, g);
    } else {
      OneCompletion(init, if i < |init| then i else j, g);
    }
  }

  /** A worker starts only when every earlier one was completed. */
  lemma {:induction false} OneWorkerAtATime(events: seq<Event>, now: int, id: nat, g: nat)
    requires IsRun(events) && Acquire(After(events), now).1 == Start(id) && g < id
    ensures Completions(events, g) > 0 && id == |After(events).completions|
  {
    RunsTell(events);
    assert FirstAnswer(events, g).Some?;
    hide FirstAnswer, Possible;
  }

  /** The acquires and completions of a run, in order. */
  function Schedule(events: seq<Event>): seq<Event> {
    if events == [] then []
    else
      var rest, e := Schedule(events[..|events| - 1]), events[|events| - 1];
      if e.Published? then rest else rest + [e]
  }

  predicate Unpublished(events: seq<Event>) {
    forall e <- events :: !e.Published?
  }

  /** Every answered operation carries the answer of its first completion. */
  ghost predicate FirstAnswersStand(events: seq<Event>)
    requires IsRun(events)
  {
    var s := After(events);
    forall g: nat :: g < |s.completions| && s.completions[g].Some? ==> s.completions[g] == FirstAnswer(events, g)
  }

  /** No operation is completed again after an answer that differs from its loss. */
  ghost predicate NothingToHide(schedule: seq<Event>) {
    forall g: nat :: Completions(schedule, g) >= 2 ==> FirstAnswer(schedule, g) == Some(Failed(RefreshLost))
  }

  /**
   The exact condition. Whatever the order in which the answers of a schedule are published, every waiter hears the
   first answer of the operation it joined, if and only if no operation of the schedule is completed again after an
   answer other than the loss of the refresh. In particular it holds where each worker has one supervisor.
   */
  lemma {:induction false} FirstAnswersStandIff(schedule: seq<Event>)
    requires IsRun(schedule) && Unpublished(schedule)
    ensures (forall events :: IsRun(events) && Schedule(events) == schedule ==> FirstAnswersStand(events))
            <==> NothingToHide(schedule)
  {
    if NothingToHide(schedule) {
      forall events | IsRun(events) && Schedule(events) == schedule
        ensures FirstAnswersStand(events)
      {
        RunsTell(events);
        forall g: nat { ScheduleTells(events, g); }
        hide IsRun, After, FirstAnswer, Completions;
      }
    }
    forall g: nat | Completions(schedule, g) >= 2 && FirstAnswer(schedule, g) != Some(Failed(RefreshLost))
      ensures exists events :: IsRun(events) && Schedule(events) == schedule && !FirstAnswersStand(events)
    {
      var i := LossIsPending(schedule, g);
      LossCanWin(schedule, g, i);
      assert IsRun(schedule + [Published(i)]);
    }
  }

  lemma {:induction false} ScheduleTells(events: seq<Event>, g: nat)
    ensures Completions(Schedule(events), g) == Completions(events, g)
    ensures FirstAnswer(Schedule(events), g) == FirstAnswer(events, g)
  {
    if events != [] {
      var init, e := events[..|events| - 1], events[|events| - 1];
      ScheduleTells(init, g);
      OneMore(Schedule(init), e, g);
      hide Heard;
    }
  }

  lemma {:induction false} UnpublishedIsSchedule(events: seq<Event>)
    requires Unpublished(events)
    ensures Schedule(events) == events
  {
    if events != [] {
      UnpublishedIsSchedule(events[..|events| - 1]);
    }
  }

  lemma {:induction false} UnpublishedIsSilent(events: seq<Event>, g: nat)
    requires IsRun(events) && Unpublished(events) && g < |After(events).completions|
    ensures After(events).completions[g] == None
  {
    var init, e := events[..|events| - 1], events[|events| - 1];
    assert e in events && forall x <- init :: x in events;
    if g < |After(init).completions| { UnpublishedIsSilent(init, g); }
  }

  /** A second completion leaves the loss of the refresh to be published. */
  lemma {:induction false} LossIsPending(events: seq<Event>, g: nat) returns (i: nat)
    requires IsRun(events) && Unpublished(events) && Completions(events, g) >= 2
    ensures i < |After(events).publishing| && After(events).publishing[i] == Publication(g, Failed(RefreshLost))
  {
    var init, e := events[..|events| - 1], events[|events| - 1];
    assert e in events && forall x <- init :: x in events;
    if Completions(init, g) >= 2 {
      i := LossIsPending(init, g);
    } else {
      RunsTell(init);
      assert FirstAnswer(init, g).Some?;
      i := |After(init).publishing|;
    }
  }

  lemma {:induction false} LossCanWin(schedule: seq<Event>, g: nat, i: nat)
    requires IsRun(schedule) && Unpublished(schedule)
    requires Completions(schedule, g) >= 2 && FirstAnswer(schedule, g) != Some(Failed(RefreshLost))
    requires i < |After(schedule).publishing| && After(schedule).publishing[i] == Publication(g, Failed(RefreshLost))
    ensures var events := schedule + [Published(i)];
            IsRun(events) && Schedule(events) == schedule && !FirstAnswersStand(events)
  {
    var events := schedule + [Published(i)];
    RunGoesOn(schedule, Published(i));
    RunsTell(schedule);
    assert FirstAnswer(schedule, g).Some?;
    UnpublishedIsSilent(schedule, g);
    UnpublishedIsSchedule(schedule);
    OneMore(schedule, Published(i), g);
    assert events[..|schedule|] == schedule;
  }

  /**
   Any operation in flight can lose its answer that way, whatever its worker produced: a second completion reaches the
   waiters first. The cache is what the first completion made it.
   */
  lemma {:induction false} DuplicateHidesAnswer(events: seq<Event>, g: nat, first: Outcome, second: Outcome)
    requires IsRun(events) && After(events).inFlight == Some(g)
    ensures var s := After(events);
            var all := events + [Completed(g, first)] + [Completed(g, second)] + [Published(|s.publishing| + 1)];
            && IsRun(all) && g < |After(all).completions| && After(all).completions[g] == Some(Failed(RefreshLost))
            && After(all).cached ==
               if first.Response? && Usable(first.token, first.expireIn) && first.expireIn > 120
               then Some(Cached(first.token, first.at + (first.expireIn - 120) * 1_000_000_000)) else None
  {
    HeardIsAnswered(first);
    hide ResultOf, Heard, AnswerOf;
    RunsAreSafe(events);
    RunGoesOn(events, Completed(g, first));
    RunGoesOn(events + [Completed(g, first)], Completed(g, second));
    RunGoesOn(events + [Completed(g, first)] + [Completed(g, second)], Published(|After(events).publishing| + 1));
  }

  /** For example a fresh token: it is cached, and its waiters are told that the refresh was lost. */
  lemma DuplicateCompletionCanHideToken()
    ensures var ok := Response("token", 3600, 0);
            var events := [Acquired(0)] + [Completed(0, ok)] + [Completed(0, ok)] + [Published(1)];
            && IsRun(events) && |After(events).completions| > 0 && After(events).completions[0] == Some(Failed(RefreshLost))
            && After(events).cached == Some(Cached("token", 3480 * SECOND))
  {
    var ok := Response("token", 3600, 0);
    RunGoesOn([], Acquired(0));
    assert [] + [Acquired(0)] == [Acquired(0)] && After([Acquired(0)]).publishing == [];
    DuplicateHidesAnswer([Acquired(0)], 0, ok, ok);
  }
}
