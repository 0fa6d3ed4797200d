/** What the calls made so far decide about the next one, without looking at any session. */
module MqttHistory {
  import opened Mqtt
  import opened MqttProofs

  /** The reconnects granted to each client, in the order the clients were opened. */
  function Limits(run: seq<Action>): seq<nat> {
    if run == [] then []
    else
      var before, a := Limits(run[..|run| - 1]), run[|run| - 1];
      if a.Open? then before + [a.maxReconnects] else before
  }

  /** Polls of the client that ended in an error its driver may recover from. */
  function Retries(run: seq<Action>, id: nat): nat {
    if run == [] then 0
    else Retries(run[..|run| - 1], id) + if run[|run| - 1] == PollOnce(id, DriverError(false)) then 1 else 0
  }

  /** A call that ends its client at once. */
  predicate EndsAtOnce(a: Action, id: nat) {
    || a == PollOnce(id, TimedOut) || a == PollOnce(id, Cancelled) || a == PollOnce(id, DriverError(true))
    || (a.Close? && a.id == id) || (a.Abort? && a.id == id)
  }

  /** Opened, never ended at once, and with no more errors than the reconnects it was granted. */
  predicate Alive(run: seq<Action>, id: nat) {
    && id < |Limits(run)|
    && (forall a <- run :: !EndsAtOnce(a, id))
    && Retries(run, id) <= Limits(run)[id]
  }

  lemma {:induction false} LimitsAreKept(run: seq<Action>)
    requires IsRun(run)
    ensures |After(run).sessions| == |Limits(run)|
    ensures forall id | 0 <= id < |Limits(run)| :: After(run).sessions[id].maxReconnects == Limits(run)[id]
  {
    if run != [] { LimitsAreKept(run[..|run| - 1]); }
  }

  lemma {:induction false} UnopenedIsUncalled(run: seq<Action>, id: nat)
    requires IsRun(run) && id >= |After(run).sessions|
    ensures Retries(run, id) == 0 && forall a <- run :: !EndsAtOnce(a, id)
  {
    if run != [] { UnopenedIsUncalled(run[..|run| - 1], id); }
  }

  lemma AliveAfter(init: seq<Action>, a: Action, id: nat)
    ensures var run := init + [a];
            && Limits(run) == (if a.Open? then Limits(init) + [a.maxReconnects] else Limits(init))
            && Retries(run, id) == Retries(init, id) + (if a == PollOnce(id, DriverError(false)) then 1 else 0)
            && ((forall x <- run :: !EndsAtOnce(x, id)) <==> (forall x <- init :: !EndsAtOnce(x, id)) && !EndsAtOnce(a, id))
  {
    var run := init + [a];
    assert run[..|init|] == init;
    assert forall x :: x in run <==> x in init || x == a;
  }

  lemma AvailableNext(s: System, a: Action, id: nat)
    requires Enabled(s, a) && id < |s.sessions|
    ensures var t, retry := Step(s, a), a == PollOnce(id, DriverError(false));
            && id < |t.sessions|
            && (Available(t.sessions[id])
                <==> Available(s.sessions[id]) && !EndsAtOnce(a, id)
                     && !(retry && s.sessions[id].reconnects >= s.sessions[id].maxReconnects))
            && (Available(t.sessions[id]) ==>
                  t.sessions[id].reconnects == s.sessions[id].reconnects + if retry then 1 else 0)
  {
  }

  /** A client can still reach its driver exactly as long as it is alive. */
  lemma {:induction false} AvailableIffAlive(run: seq<Action>, id: nat)
    requires IsRun(run) && id < |After(run).sessions|
    ensures Available(After(run).sessions[id]) <==> Alive(run, id)
    ensures Alive(run, id) ==> After(run).sessions[id].reconnects == Retries(run, id)
  {
    LimitsAreKept(run);
    var init, a := run[..|run| - 1], run[|run| - 1];
    assert run == init + [a];
    LimitsAreKept(init);
    AliveAfter(init, a, id);
    if id < |After(init).sessions| {
      AvailableIffAlive(init, id);
      AvailableNext(After(init), a, id);
      hide Limits, Retries, Step, Available, EndsAtOnce;
    } else {
      UnopenedIsUncalled(init, id);
      hide Limits, Retries;
    }
  }

  /** An ended client that was not closed reports failure. */
  lemma {:induction false} EndedReportsFailed(run: seq<Action>, id: nat)
    requires IsRun(run) && id < |After(run).sessions| && !Alive(run, id)
    requires forall a <- run :: !(a.Close? && a.id == id) && !(a.Abort? && a.id == id)
    ensures Reported(After(run).sessions[id]) == Failed
  {
    AvailableIffAlive(run, id);
    DeadHasFailed(run, id);
  }

  /** The calls a run can go on with: any client can be opened, and an open client can be called in any way. */
  lemma EnabledIff(run: seq<Action>, a: Action)
    requires IsRun(run)
    ensures IsRun(run + [a]) <==> a.Open? || (a.id < |Limits(run)| && (a.Acknowledge? ==> a.event < Deliveries(run)))
  {
    assert (run + [a])[..|run|] == run;
    LimitsAreKept(run);
    EventsAreDelivered(run);
    hide After, Limits, Deliveries;
  }

  /** A client that was closed or aborted holds no driver. */
  lemma {:induction false} ClosedHasNoDriver(run: seq<Action>, a: Action)
    requires IsRun(run) && a in run && (a.Close? || a.Abort?)
    ensures a.id < |After(run).sessions| && !After(run).sessions[a.id].hasDriver && After(run).sessions[a.id].state == Stopped
  {
    var init := run[..|run| - 1];
    if a in init {
      ClosedHasNoDriver(init, a);
    } else {
      assert a == run[|run| - 1];
    }
  }

  lemma {:induction false} DeadHasFailed(run: seq<Action>, id: nat)
    requires IsRun(run) && id < |After(run).sessions|
    requires forall a <- run :: !(a.Close? && a.id == id) && !(a.Abort? && a.id == id)
    ensures var s := After(run).sessions[id]; Available(s) || s.busy || s.state == Failed
  {
    var init, a := run[..|run| - 1], run[|run| - 1];
    assert a in run && forall x <- init :: x in run;
    if id < |After(init).sessions| { DeadHasFailed(init, id); }
  }

  /** A client surfaces at most one driver error more than the reconnects it was opened with. */
  lemma ErrorsStayWithinGrant(run: seq<Action>, id: nat)
    requires IsRun(run) && id < |Limits(run)|
    ensures ErrorsSeen(run, id) <= Limits(run)[id] + 1
  {
    LimitsAreKept(run);
    ErrorsAreBounded(run, id);
  }

  // --------------------------------------------------------- events handed out

  /** The poll hands out an event. */
  predicate Delivers(before: seq<Action>, a: Action) {
    a.PollOnce? && a.outcome.Delivered? && Alive(before, a.id)
  }

  /** Events handed out so far, to all clients. */
  function Deliveries(run: seq<Action>): nat {
    if run == [] then 0
    else
      var init := run[..|run| - 1];
      Deliveries(init) + if Delivers(init, run[|run| - 1]) then 1 else 0
  }

  lemma {:induction false} EventsAreDelivered(run: seq<Action>)
    requires IsRun(run)
    ensures |After(run).events| == Deliveries(run)
    ensures forall e <- After(run).events ::
              e.owner < |After(run).sessions| && e.generation <= After(run).sessions[e.owner].generation
  {
    if run != [] {
      var init, a := run[..|run| - 1], run[|run| - 1];
      EventsAreDelivered(init);
      if a.PollOnce? { AvailableIffAlive(init, a.id); }
      hide Alive;
    }
  }

  /** Call `k` handed out event `event` to client `id`. */
  predicate HandsOut(run: seq<Action>, k: nat, id: nat, event: nat) {
    k < |run| && Delivers(run[..k], run[k]) && run[k].id == id && Deliveries(run[..k]) == event
  }

  /** Since call `k` the client has neither connected again nor acknowledged the event. */
  predicate Untouched(run: seq<Action>, k: nat, id: nat, event: nat) {
    forall j :: k < j < |run| ==> run[j] != PollOnce(id, Delivered(true)) && run[j] != Acknowledge(id, event, true)
  }

  /** The client is alive, was handed the event, and has since neither connected again nor acknowledged it. */
  ghost predicate Acknowledgeable(run: seq<Action>, id: nat, event: nat) {
    Alive(run, id) && exists k: nat :: HandsOut(run, k, id, event) && Untouched(run, k, id, event)
  }

  lemma {:induction false} DeliveriesGrow(run: seq<Action>, k: nat)
    requires k < |run| && Delivers(run[..k], run[k])
    ensures Deliveries(run[..k]) < Deliveries(run)
  {
    var init := run[..|run| - 1];
    if k < |init| {
      assert init[..k] == run[..k];
      DeliveriesGrow(init, k);
    }
    hide Alive;
  }

  lemma HandedOutBefore(init: seq<Action>, a: Action, k: nat, id: nat, event: nat)
    ensures var run := init + [a];
            && (HandsOut(run, k, id, event)
                <==> HandsOut(init, k, id, event)
                     || (k == |init| && Delivers(init, a) && a.id == id && Deliveries(init) == event))
            && (k < |init| ==> (Untouched(run, k, id, event)
                                <==> Untouched(init, k, id, event)
                                     && a != PollOnce(id, Delivered(true)) && a != Acknowledge(id, event, true)))
            && (k == |init| ==> Untouched(run, k, id, event))
  {
    var run := init + [a];
    if k <= |init| { assert run[..k] == init[..k]; }
    assert init[..|init|] == init == run[..|init|];
    if k < |init| && Untouched(run, k, id, event) {
      forall j | k < j < |init|
        ensures init[j] != PollOnce(id, Delivered(true)) && init[j] != Acknowledge(id, event, true)
      {
        assert init[j] == run[j];
      }
    }
    hide Alive, Deliveries;
  }

  lemma {:induction false} LimitsGrow(run: seq<Action>, k: nat)
    requires k <= |run|
    ensures |Limits(run[..k])| <= |Limits(run)|
  {
    if k == |run| {
      assert run[..k] == run;
    } else {
      assert run[..|run| - 1][..k] == run[..k];
      LimitsGrow(run[..|run| - 1], k);
    }
  }

  lemma AcknowledgeableNext(init: seq<Action>, a: Action, id: nat, event: nat)
    requires event < Deliveries(init)
    ensures Acknowledgeable(init + [a], id, event) <==>
            Alive(init + [a], id) && Acknowledgeable(init, id, event)
            && a != PollOnce(id, Delivered(true)) && a != Acknowledge(id, event, true)
  {
    forall k: nat { HandedOutBefore(init, a, k, id, event); }
    AliveAfter(init, a, id);
    forall k: nat | HandsOut(init, k, id, event) ensures id < |Limits(init)| { LimitsGrow(init, k); }
    hide HandsOut, Untouched, Deliveries, Limits, Retries;
  }

  lemma AcknowledgeableFirst(init: seq<Action>, a: Action, id: nat)
    requires Delivers(init, a)
    ensures Acknowledgeable(init + [a], id, Deliveries(init)) <==> Alive(init + [a], id) && a.id == id
  {
    var event := Deliveries(init);
    forall k: nat { HandedOutBefore(init, a, k, id, event); }
    forall k: nat ensures !HandsOut(init, k, id, event) {
      if HandsOut(init, k, id, event) { DeliveriesGrow(init, k); }
    }
    assert HandsOut(init + [a], |init|, id, event) <==> a.id == id;
    hide HandsOut, Untouched, Deliveries, Alive;
  }

  /** The session may acknowledge event `event` and reaches its driver doing so. */
  predicate Acceptable(s: System, id: nat, event: nat)
    requires id < |s.sessions| && event < |s.events|
  {
    MayAcknowledge(s.sessions[id], id, s.events[event]) && Available(s.sessions[id])
  }

  lemma AcceptableNext(s: System, a: Action, id: nat, event: nat)
    requires Enabled(s, a) && id < |s.sessions| && event < |s.events|
    requires s.events[event].owner == id ==> s.events[event].generation <= s.sessions[id].generation
    ensures var t := Step(s, a);
            && id < |t.sessions| && event < |t.events|
            && (Available(t.sessions[id]) ==> Available(s.sessions[id]))
            && (Acceptable(t, id, event)
                <==> Available(t.sessions[id]) && Acceptable(s, id, event)
                     && a != PollOnce(id, Delivered(true)) && a != Acknowledge(id, event, true))
  {
  }

  lemma {:induction false} AcceptableIff(run: seq<Action>, id: nat, event: nat)
    requires IsRun(run) && id < |After(run).sessions| && event < |After(run).events|
    ensures Acceptable(After(run), id, event) <==> Acknowledgeable(run, id, event)
  {
    var init, a := run[..|run| - 1], run[|run| - 1];
    var s := After(init);
    assert run == init + [a];
    AvailableIffAlive(run, id);
    EventsAreDelivered(init);
    LimitsAreKept(init);
    EventsPersist(s, a, event);
    if event < |s.events| {
      AcknowledgeableNext(init, a, id, event);
      if id < |s.sessions| {
        AcceptableNext(s, a, id, event);
        AcceptableIff(init, id, event);
      }
      hide Acknowledgeable, Step, Available;
    } else {
      AvailableIffAlive(init, a.id);
      AcknowledgeableFirst(init, a, id);
      hide Acknowledgeable, Step, Available;
    }
    hide Limits, Retries, Deliveries;
  }

  /**
   Which calls reach a driver is decided by the calls before them: a poll with a usable deadline, a send or a close of a
   client that is alive; and an acknowledgement by a client that is alive, of an event it was handed on its present
   connection and has not acknowledged.
   */
  lemma CallsReachIff(run: seq<Action>, a: Action)
    requires IsRun(run) && Enabled(After(run), a)
    ensures a.Open? || a.Abort? ==> !Reaches(After(run), a)
    ensures a.PollOnce? ==> (Reaches(After(run), a) <==> !a.outcome.BadDeadline? && Alive(run, a.id))
    ensures a.Send? || a.Close? ==> (Reaches(After(run), a) <==> Alive(run, a.id))
    ensures a.Acknowledge? ==> (Reaches(After(run), a) <==> Acknowledgeable(run, a.id, a.event))
  {
    if !a.Open? { AvailableIffAlive(run, a.id); }
    if a.Acknowledge? { AcceptableIff(run, a.id, a.event); }
    hide Alive, Acknowledgeable, IsRun, After;
  }
}
