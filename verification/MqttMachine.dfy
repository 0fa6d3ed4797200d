/** The client and its events as objects; what the driver does is a parameter of each call. */
module MqttMachine {
  import opened Mqtt

  /** The identity a client shares with its events. */
  class Owner {
    constructor () {}
  }

  class Event {
    const owner: Owner
    const generation: nat
    var acked: bool

    constructor (owner: Owner, generation: nat)
      ensures this.owner == owner && this.generation == generation && !acked
    {
      this.owner, this.generation, acked := owner, generation, false;
    }
  }

  class Client {
    var hasDriver: bool
    const maxReconnects: nat
    var state: Lifecycle
    var reconnects: nat
    var busy: bool
    const owner: Owner
    var generation: nat

    constructor (maxReconnects: nat)
      ensures Abstract() == NewSession(maxReconnects) && fresh(owner)
    {
      hasDriver, state, reconnects, busy, generation := true, Created, 0, false, 0;
      this.maxReconnects := maxReconnects;
      owner := new Owner();
    }

    function Abstract(): Session
      reads this
    {
      Session(hasDriver, state, reconnects, busy, generation, maxReconnects)
    }

    function CurrentState(): Lifecycle
      reads this
      ensures CurrentState() == Reported(Abstract())
    {
      if busy then Failed else state
    }

    predicate CanCall()
      reads this
      ensures CanCall() == Available(Abstract())
    {
      if busy || state == Failed || state == Stopping || state == Stopped then false else hasDriver
    }

    /** Acknowledges an event of this client's present connection, once; a driver error leaves it open. */
    method AcknowledgeEvent(event: Event, accepted: bool) returns (ok: bool)
      modifies event
      ensures ok == (event.owner == owner && event.generation == generation && !old(event.acked)
                     && Available(Abstract()) && accepted)
      ensures event.acked == (old(event.acked) || ok)
    {
      if event.owner != owner || generation != event.generation || event.acked { return false; }
      if !CanCall() || !accepted { return false; }
      event.acked := true;
      ok := true;
    }

    method PollEvent(outcome: PollOutcome) returns (event: Event?)
      modifies this
      ensures Abstract() == Poll(old(Abstract()), outcome)
      ensures event != null <==> outcome.Delivered? && old(Available(Abstract()))
      ensures event != null ==> fresh(event) && event.owner == owner && event.generation == generation && !event.acked
    {
      if outcome.BadDeadline? || !CanCall() { return null; }
      busy := true;
      if state == Created { state := Connecting; }
      if outcome.Cancelled? { return null; }
      busy := false;
      match outcome {
        case Delivered(connAck) =>
          if connAck {
            state := Ready;
            generation := generation + 1;
          }
          event := new Event(owner, generation);
          return;
        case DriverError(fatal) =>
          if fatal || reconnects >= maxReconnects {
            state, hasDriver := Failed, false;
          } else {
            reconnects, state := reconnects + 1, Reconnecting;
          }
        case TimedOut =>
          state, hasDriver := Failed, false;
        case BadDeadline =>
        case Cancelled =>
      }
      event := null;
    }

    /** Consumes the client: the driver is gone whatever happened on the way. */
    method Shut()
      modifies this
      ensures Abstract() == old(Abstract()).(state := Stopped, hasDriver := false)
    {
      hasDriver, state := false, Stopped;
    }
  }
}
