/** What holds in every run of any number of MQTT sessions. */
module MqttProofs {
  import opened Mqtt

  /** No call on the session reaches its driver any more. */
  predicate Dead(s: Session) {
    s.busy || s.state == Failed || s.state == Stopping || s.state == Stopped
  }

  /** A live session has its driver, and its errors so far are its reconnects; a dead one may have seen one more. */
  predicate Sound(s: Session, errors: nat, connAcks: nat) {
    && (s.hasDriver || Dead(s))
    && s.reconnects <= s.maxReconnects && s.generation == connAcks
    && s.reconnects <= errors <= s.reconnects + 1 && (errors == s.reconnects + 1 ==> Dead(s))
  }

  lemma {:induction false} UnopenedIsSilent(run: seq<Action>, id: nat)
    requires IsRun(run) && id >= |After(run).sessions|
    ensures ErrorsSeen(run, id) == 0 && ConnAcksSeen(run, id) == 0 && LastSignal(run, id) == Nothing
  {
    if run != [] { UnopenedIsSilent(run[..|run| - 1], id); }
  }

  lemma {:induction false} SessionsAreSound(run: seq<Action>, id: nat)
    requires IsRun(run) && id < |After(run).sessions|
    ensures Sound(After(run).sessions[id], ErrorsSeen(run, id), ConnAcksSeen(run, id))
  {
    if run != [] {
      var init := run[..|run| - 1];
      if id < |After(init).sessions| { SessionsAreSound(init, id); } else { UnopenedIsSilent(init, id); }
    }
  }

  /** Over its whole life a session surfaces at most one driver error more than it may reconnect. */
  lemma ErrorsAreBounded(run: seq<Action>, id: nat)
    requires IsRun(run) && id < |After(run).sessions|
    ensures ErrorsSeen(run, id) <= After(run).sessions[id].maxReconnects + 1
  {
    SessionsAreSound(run, id);
  }

  /** The generation is the number of connections the caller was told about. */
  lemma GenerationCountsConnections(run: seq<Action>, id: nat)
    requires IsRun(run) && id < |After(run).sessions|
    ensures After(run).sessions[id].generation == ConnAcksSeen(run, id)
  {
    SessionsAreSound(run, id);
  }

  datatype Signal = Nothing | Polled | ConnAck | Lost

  /** The last thing a poll of the session said about its connection. */
  function LastSignal(run: seq<Action>, id: nat): Signal
    requires IsRun(run)
  {
    if run == [] then Nothing
    else
      var init, a := run[..|run| - 1], run[|run| - 1];
      var before := LastSignal(init, id);
      if !a.PollOnce? || a.id != id || !Reaches(After(init), a) then before
      else if a.outcome == Delivered(true) then ConnAck
      else if a.outcome.DriverError? then Lost
      else if before == Nothing then Polled
      else before
  }

  /** A live session reports its connection as the driver last described it. */
  lemma {:induction false} StateFollowsDriver(run: seq<Action>, id: nat)
    requires IsRun(run) && id < |After(run).sessions| && !Dead(After(run).sessions[id])
    ensures Reported(After(run).sessions[id]) ==
            match LastSignal(run, id)
            case Nothing => Created
            case Polled => Connecting
            case ConnAck => Ready
            case Lost => Reconnecting
  {
    if run != [] {
      var init, a := run[..|run| - 1], run[|run| - 1];
      if id < |After(init).sessions| {
        if Dead(After(init).sessions[id]) { DeadStaysDead(After(init), a, id); }
        StateFollowsDriver(init, id);
      } else {
        UnopenedIsSilent(init, id);
      }
    }
  }

  // -------------------------------------------------------------------- death

  lemma DeadStaysDead(s: System, a: Action, id: nat)
    requires Enabled(s, a) && id < |s.sessions| && Dead(s.sessions[id])
    ensures id < |Step(s, a).sessions| && Dead(Step(s, a).sessions[id])
    ensures !a.Open? && a.id == id ==> !Reaches(s, a)
  {
  }

  /** What ends a session: a timeout, a cancelled poll, a fatal error, an error beyond the last reconnect, or a close. */
  predicate Ends(s: System, a: Action, id: nat)
    requires Enabled(s, a)
  {
    !a.Open? && a.id == id &&
    match a
    case PollOnce(_, outcome) =>
      Reaches(s, a) &&
      (outcome.TimedOut? || outcome.Cancelled?
       || (outcome.DriverError? && (outcome.fatal || s.sessions[id].reconnects >= s.sessions[id].maxReconnects)))
    case Close(_, _) => true
    case Abort(_) => true
    case _ => false
  }

  lemma DeathHasCause(s: System, a: Action, id: nat)
    requires Enabled(s, a) && id < |s.sessions| && !Dead(s.sessions[id])
    ensures Dead(Step(s, a).sessions[id]) <==> Ends(s, a, id)
  {
  }

  /** Action `k` of the run ends session `id`. */
  ghost predicate EndsAt(run: seq<Action>, k: nat, id: nat) {
    && k < |run| && IsRun(run[..k]) && Enabled(After(run[..k]), run[k])
    && Ends(After(run[..k]), run[k], id)
  }

  /** In every run: a session is dead if and only if one of the actions so far ended it. */
  lemma {:induction false} DeadIffEnded(run: seq<Action>, id: nat)
    requires IsRun(run) && id < |After(run).sessions|
    ensures Dead(After(run).sessions[id]) <==> exists k :: EndsAt(run, k, id)
  {
    if run != [] {
      var init, a := run[..|run| - 1], run[|run| - 1];
      forall k: nat | k < |init|
        ensures EndsAt(init, k, id) <==> EndsAt(run, k, id)
      {
        assert init[..k] == run[..k];
      }
      assert EndsAt(run, |init|, id) <==> Ends(After(init), a, id);
      if id < |After(init).sessions| {
        DeadIffEnded(init, id);
        if Dead(After(init).sessions[id]) { DeadStaysDead(After(init), a, id); } else { DeathHasCause(After(init), a, id); }
      } else {
        forall k: nat | k < |init|
          ensures !EndsAt(init, k, id)
        {
          if EndsAt(init, k, id) { SessionsStay(init, k); }
        }
      }
      hide IsRun, After, Step, Enabled, Dead, Ends;
    }
  }

  lemma {:induction false} SessionsStay(run: seq<Action>, k: nat)
    requires IsRun(run) && k <= |run| && IsRun(run[..k])
    ensures |After(run[..k]).sessions| <= |After(run).sessions|
  {
    if k == |run| {
      assert run[..k] == run;
    } else {
      assert run[..|run| - 1][..k] == run[..k];
      SessionsStay(run[..|run| - 1], k);
    }
  }

  lemma {:induction false} PrefixIsRun(run: seq<Action>, k: nat)
    requires IsRun(run) && k <= |run|
    ensures IsRun(run[..k])
  {
    if k == |run| {
      assert run[..k] == run;
    } else {
      PrefixIsRun(run[..|run| - 1], k);
      assert run[..|run| - 1][..k] == run[..k];
    }
  }

  lemma {:induction false} AfterNext(run: seq<Action>, k: nat)
    requires IsRun(run) && k < |run|
    ensures IsRun(run[..k]) && IsRun(run[..k + 1])
    ensures Enabled(After(run[..k]), run[k]) && After(run[..k + 1]) == Step(After(run[..k]), run[k])
  {
    PrefixIsRun(run, k);
    PrefixIsRun(run, k + 1);
    assert run[..k + 1][..k] == run[..k];
  }

  lemma {:induction false} DeadInRun(run: seq<Action>, k: nat, id: nat)
    requires IsRun(run) && k <= |run| && IsRun(run[..k])
    requires id < |After(run[..k]).sessions| && Dead(After(run[..k]).sessions[id])
    ensures id < |After(run).sessions| && Dead(After(run).sessions[id])
  {
    if k == |run| {
      assert run[..k] == run;
    } else {
      var init := run[..|run| - 1];
      assert init[..k] == run[..k];
      DeadInRun(init, k, id);
      DeadStaysDead(After(init), run[|run| - 1], id);
    }
  }

  /** After a timeout, a cancellation, a terminal error or a close, no later call on the session reaches the driver. */
  lemma NothingAfterTheEnd(run: seq<Action>, k: nat, j: nat, id: nat)
    requires IsRun(run) && k < j < |run| && IsRun(run[..k]) && IsRun(run[..j])
    requires Enabled(After(run[..k]), run[k]) && Enabled(After(run[..j]), run[j])
    requires id < |After(run[..k]).sessions| && Ends(After(run[..k]), run[k], id)
    requires !run[j].Open? && run[j].id == id
    ensures !Reaches(After(run[..j]), run[j])
  {
    var before := After(run[..k]);
    if !Dead(before.sessions[id]) {
      DeathHasCause(before, run[k], id);
    } else {
      DeadStaysDead(before, run[k], id);
    }
    AfterNext(run, k);
    assert run[..j][..k + 1] == run[..k + 1];
    DeadInRun(run[..j], k + 1, id);
    DeadStaysDead(After(run[..j]), run[j], id);
  }

  // ---------------------------------------------------------- acknowledgement

  lemma {:induction false} AckedStaysAcked(run: seq<Action>, k: nat, event: nat)
    requires IsRun(run) && k <= |run| && IsRun(run[..k])
    requires event < |After(run[..k]).events| && After(run[..k]).events[event].acked
    ensures event < |After(run).events| && After(run).events[event].acked
  {
    if k == |run| {
      assert run[..k] == run;
    } else {
      var init := run[..|run| - 1];
      assert init[..k] == run[..k];
      AckedStaysAcked(init, k, event);
    }
  }

  /** No event is acknowledged twice, by anybody, on any connection. */
  lemma AcknowledgedOnce(run: seq<Action>, i: nat, j: nat, event: nat)
    requires IsRun(run) && i < j < |run| && IsRun(run[..i]) && IsRun(run[..j])
    requires Enabled(After(run[..i]), run[i]) && Acknowledges(After(run[..i]), run[i], event)
    requires Enabled(After(run[..j]), run[j])
    ensures !Acknowledges(After(run[..j]), run[j], event)
  {
    hide Step, Acknowledges, Enabled, After, IsRun;
    var prefix := run[..j];
    assert prefix[..i] == run[..i] && prefix[i] == run[i];
    AckedEarlier(prefix, i, event);
    MarkedIsRefused(After(prefix), run[j], event);
  }

  lemma AckedEarlier(run: seq<Action>, i: nat, event: nat)
    requires IsRun(run) && i < |run| && IsRun(run[..i]) && Enabled(After(run[..i]), run[i])
    requires Acknowledges(After(run[..i]), run[i], event)
    ensures event < |After(run).events| && After(run).events[event].acked
  {
    hide Step, Acknowledges, Enabled, After, IsRun;
    AckMarks(After(run[..i]), run[i], event);
    AfterNext(run, i);
    AckedStaysAcked(run, i + 1, event);
  }

  lemma AckMarks(s: System, a: Action, event: nat)
    requires Enabled(s, a) && Acknowledges(s, a, event)
    ensures event < |Step(s, a).events| && Step(s, a).events[event].acked
  {
  }

  lemma MarkedIsRefused(s: System, a: Action, event: nat)
    requires Enabled(s, a) && event < |s.events| && s.events[event].acked
    ensures !Acknowledges(s, a, event)
  {
  }

  /** The poll of session `id` at position `k` handed out event `event`. */
  predicate HandedOut(run: seq<Action>, k: nat, id: nat, event: nat) {
    && IsRun(run) && k < |run| && IsRun(run[..k]) && Enabled(After(run[..k]), run[k])
    && run[k].PollOnce? && run[k].id == id && run[k].outcome.Delivered? && Reaches(After(run[..k]), run[k])
    && |After(run[..k]).events| == event
  }

  /** Connections of session `id` up to and including action `k`. */
  function ConnectionsThrough(run: seq<Action>, k: nat, id: nat): nat
    requires IsRun(run) && k < |run| && IsRun(run[..k + 1])
  {
    ConnAcksSeen(run[..k + 1], id)
  }

  lemma {:induction false} EventsHaveSource(run: seq<Action>, event: nat) returns (k: nat)
    requires IsRun(run) && event < |After(run).events|
    ensures var e := After(run).events[event];
            && HandedOut(run, k, e.owner, event)
            && IsRun(run[..k + 1]) && e.generation == ConnectionsThrough(run, k, e.owner)
  {
    var init, a := run[..|run| - 1], run[|run| - 1];
    EventsPersist(After(init), a, event);
    hide Step, Reaches;
    if event < |After(init).events| {
      k := EventsHaveSource(init, event);
      assert init[..k] == run[..k] && init[..k + 1] == run[..k + 1];
    } else {
      k := |init|;
      assert run[..k] == init && run[..k + 1] == run;
      SessionsAreSound(run, a.id);
    }
  }

  /** An action keeps every event's origin, and the one event a poll may add carries the session's generation. */
  lemma EventsPersist(s: System, a: Action, event: nat)
    requires Enabled(s, a) && event < |Step(s, a).events|
    ensures var t := Step(s, a);
            if event < |s.events|
            then t.events[event].owner == s.events[event].owner && t.events[event].generation == s.events[event].generation
            else
              && event == |s.events| && a.PollOnce? && a.outcome.Delivered? && Reaches(s, a)
              && t.events[event].owner == a.id < |t.sessions| && t.events[event].generation == t.sessions[a.id].generation
  {
  }

  /** An event is acknowledged only by the session that handed it out, and only before that session connects again. */
  lemma AcknowledgedByOwnConnection(run: seq<Action>, a: Action, event: nat) returns (k: nat)
    requires IsRun(run) && Enabled(After(run), a) && Acknowledges(After(run), a, event)
    ensures HandedOut(run, k, a.id, event)
    ensures IsRun(run[..k + 1]) && ConnAcksSeen(run, a.id) == ConnectionsThrough(run, k, a.id)
  {
    k := EventsHaveSource(run, event);
    SessionsAreSound(run, a.id);
  }
}
