/** MQTT sessions: the lifecycle of a client, and the acknowledgement of the events it handed out. */
module Mqtt {
  datatype Lifecycle = Created | Connecting | Ready | Reconnecting | Failed | Stopping | Stopped

  /** `busy` is set for the duration of a poll, so it stays set when the poll is cancelled. */
  datatype Session = Session(hasDriver: bool, state: Lifecycle, reconnects: nat, busy: bool, generation: nat, maxReconnects: nat)

  function NewSession(maxReconnects: nat): Session {
    Session(true, Created, 0, false, 0, maxReconnects)
  }

  predicate Available(s: Session) {
    !s.busy && s.state != Failed && s.state != Stopping && s.state != Stopped && s.hasDriver
  }

  /** `Client::state`. */
  function Reported(s: Session): Lifecycle {
    if s.busy then Failed else s.state
  }

  /** How one poll ends; `fatal` stands for an authentication, protocol or rejection error. */
  datatype PollOutcome = BadDeadline | Delivered(connAck: bool) | DriverError(fatal: bool) | TimedOut | Cancelled

  /** The driver is called by a poll with a usable deadline on an available session. */
  predicate PollReaches(s: Session, o: PollOutcome) {
    !o.BadDeadline? && Available(s)
  }

  function Poll(s: Session, o: PollOutcome): Session {
    if !PollReaches(s, o) then s
    else
      var started := if s.state == Created then s.(state := Connecting) else s;
      match o
      case BadDeadline => s
      case Delivered(connAck) =>
        if connAck then started.(state := Ready, generation := s.generation + 1) else started
      case DriverError(fatal) =>
        if fatal || s.reconnects >= s.maxReconnects then started.(state := Failed, hasDriver := false)
        else started.(reconnects := s.reconnects + 1, state := Reconnecting)
      case TimedOut => started.(state := Failed, hasDriver := false)
      case Cancelled => started.(busy := true)
  }

  /** An event handed out by session `owner`. */
  datatype Issued = Issued(owner: nat, generation: nat, acked: bool)

  /** The check before the driver is asked to acknowledge. */
  predicate MayAcknowledge(s: Session, id: nat, e: Issued) {
    id == e.owner && s.generation == e.generation && !e.acked
  }

  // -------------------------------------------------------------------- runs

  /** Any number of sessions, and all events they ever handed out. */
  datatype System = System(sessions: seq<Session>, events: seq<Issued>)

  /** `Send` is publish, subscribe or unsubscribe; `accepted` is the driver's answer. `Close` and `Abort` consume a client. */
  datatype Action =
    | Open(maxReconnects: nat)
    | PollOnce(id: nat, outcome: PollOutcome)
    | Send(id: nat, accepted: bool)
    | Acknowledge(id: nat, event: nat, accepted: bool)
    | Close(id: nat, accepted: bool)
    | Abort(id: nat)

  predicate Enabled(s: System, a: Action) {
    match a
    case Open(_) => true
    case Acknowledge(id, event, _) => id < |s.sessions| && event < |s.events|
    case _ => a.id < |s.sessions|
  }

  /** The action calls into the driver of its session. */
  predicate Reaches(s: System, a: Action)
    requires Enabled(s, a)
  {
    match a
    case Open(_) => false
    case PollOnce(id, outcome) => PollReaches(s.sessions[id], outcome)
    case Send(id, _) => Available(s.sessions[id])
    case Acknowledge(id, event, _) => MayAcknowledge(s.sessions[id], id, s.events[event]) && Available(s.sessions[id])
    case Close(id, _) => Available(s.sessions[id])
    case Abort(_) => false
  }

  predicate Acknowledges(s: System, a: Action, event: nat)
    requires Enabled(s, a)
  {
    a.Acknowledge? && a.event == event && a.accepted && Reaches(s, a)
  }

  function Step(s: System, a: Action): System
    requires Enabled(s, a)
  {
    match a
    case Open(maxReconnects) => s.(sessions := s.sessions + [NewSession(maxReconnects)])
    case PollOnce(id, outcome) =>
      var next := Poll(s.sessions[id], outcome);
      System(s.sessions[id := next],
             if outcome.Delivered? && Reaches(s, a) then s.events + [Issued(id, next.generation, false)] else s.events)
    case Send(_, _) => s
    case Acknowledge(_, event, _) =>
      if Acknowledges(s, a, event) then s.(events := s.events[event := s.events[event].(acked := true)]) else s
    case Close(id, _) => s.(sessions := s.sessions[id := s.sessions[id].(state := Stopped, hasDriver := false)])
    case Abort(id) => s.(sessions := s.sessions[id := s.sessions[id].(state := Stopped, hasDriver := false)])
  }

  predicate IsRun(run: seq<Action>)
    decreases |run|, 0
  {
    run == [] || (IsRun(run[..|run| - 1]) && Enabled(After(run[..|run| - 1]), run[|run| - 1]))
  }

  function After(run: seq<Action>): System
    requires IsRun(run)
    decreases |run|, 1
  {
    if run == [] then System([], []) else Step(After(run[..|run| - 1]), run[|run| - 1])
  }

  /** Driver errors that polls of session `id` returned. */
  function ErrorsSeen(run: seq<Action>, id: nat): nat
    requires IsRun(run)
  {
    if run == [] then 0
    else
      var init, a := run[..|run| - 1], run[|run| - 1];
      ErrorsSeen(init, id)
      + if a.PollOnce? && a.id == id && a.outcome.DriverError? && Reaches(After(init), a) then 1 else 0
  }

  /** Connection acknowledgements that polls of session `id` returned. */
  function ConnAcksSeen(run: seq<Action>, id: nat): nat
    requires IsRun(run)
  {
    if run == [] then 0
    else
      var init, a := run[..|run| - 1], run[|run| - 1];
      ConnAcksSeen(init, id)
      + if a.PollOnce? && a.id == id && a.outcome == Delivered(true) && Reaches(After(init), a) then 1 else 0
  }
}
