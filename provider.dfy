// The provider object: reference counting by client service name, the
// demand gate that starts and stops the GPS hardware, delayed queries and
// their drain when a fix arrives, and the idle timer that ends the process.
// Every effect on the outside world (watcher, hardware, timers, signals,
// replies, quit) is appended to an event log.
module Provider {
  import opened Geo
  import opened Bus
  import opened Services

  /** Period of the idle timer that ends the process, in milliseconds. */
  const QuitIdleTime: int := 30000
  // Parameters passed to the hardware's set_position_mode.
  const MinimumInterval: int := 1000
  const PreferredAccuracy: int := 1
  const PreferredInitialFixTime: int := 0

  datatype PositionMode = Standalone
  datatype Recurrence = Periodic

  datatype Event =
    | ServiceWatched(name: ServiceName)
    | ServiceUnwatched(name: ServiceName)
    | SetPositionMode(mode: PositionMode, recurrence: Recurrence, minInterval: int,
                      preferredAccuracy: int, preferredInitialFixTime: int)
    | GpsStart
    | GpsStop
    | TimerStarted(id: int, interval: int)
    | TimerKilled(id: int)
    | PositionChanged(positionFields: bv32, timestamp: int, latitude: Option<real>,
                      longitude: Option<real>, altitude: Option<real>, accuracy: Accuracy)
    | VelocityChanged(velocityFields: bv32, timestamp: int, speed: Option<real>,
                      direction: Option<real>, climb: Option<real>)
    | Replied(call: PendingCall, args: seq<Arg>)
    | UnknownCallDropped(call: PendingCall)
    | QuitRequested

  /**
   * What the start check does at a given demand: nothing unless the demand
   * is exactly 1; then kill an armed idle timer, set the position mode, and
   * start the hardware only if setting the mode returned no error.
   */
  function StartEvents(demand: int, idleTimer: int, modeError: int): seq<Event>
  {
    if demand != 1 then []
    else
      (if idleTimer != -1 then [TimerKilled(idleTimer)] else [])
      + [SetPositionMode(Standalone, Periodic, MinimumInterval, PreferredAccuracy, PreferredInitialFixTime)]
      + (if modeError == 0 then [GpsStart] else [])
  }

  /**
   * What the stop check does at a given demand: nothing unless the demand is
   * 0; then stop the hardware, whatever it answers, and arm a fresh idle timer.
   */
  function StopEvents(demand: int, newTimer: int): seq<Event>
  {
    if demand != 0 then [] else [GpsStop, TimerStarted(newTimer, QuitIdleTime)]
  }

  /** The watcher call AddReference makes: watch the service only if no reference from it was held before. */
  function WatchEvents(before: seq<ServiceName>, service: ServiceName): seq<Event>
  {
    if service in before then [] else [ServiceWatched(service)]
  }

  /** The watcher call RemoveReference makes: unwatch the service only if no reference from it is left. */
  function UnwatchEvents(after: seq<ServiceName>, service: ServiceName): seq<Event>
  {
    if service in after then [] else [ServiceUnwatched(service)]
  }

  /** The outcome of one pending call when a fix arrives. */
  function Answer(call: PendingCall, position: seq<Arg>, velocity: seq<Arg>): Event
  {
    if call.member == GetPositionMember then Replied(call, position)
    else if call.member == GetVelocityMember then Replied(call, velocity)
    else UnknownCallDropped(call)
  }

  /** The outcomes of a queue of pending calls, in queue order. */
  function Drain(calls: seq<PendingCall>, position: seq<Arg>, velocity: seq<Arg>): (r: seq<Event>)
    ensures |r| == |calls|
  {
    if calls == [] then []
    else Drain(calls[..|calls| - 1], position, velocity) + [Answer(calls[|calls| - 1], position, velocity)]
  }

  /**
   * The drain is first-in first-out and uses one snapshot: its i-th outcome
   * answers the i-th queued call with the same two argument lists.
   */
  lemma {:induction false} DrainInOrder(calls: seq<PendingCall>, position: seq<Arg>, velocity: seq<Arg>, i: nat)
    requires i < |calls|
    ensures Drain(calls, position, velocity)[i] == Answer(calls[i], position, velocity)
  {
    var front := calls[..|calls| - 1];
    if i < |calls| - 1 {
      DrainInOrder(front, position, velocity, i);
      assert front[i] == calls[i];
    }
  }

  /** A drain only replies and drops: it never touches the hardware, the timers or the watcher. */
  lemma DrainOnlyAnswers(calls: seq<PendingCall>, position: seq<Arg>, velocity: seq<Arg>)
    ensures forall e | e in Drain(calls, position, velocity) :: e.Replied? || e.UnknownCallDropped?
  {
    forall e | e in Drain(calls, position, velocity)
      ensures e.Replied? || e.UnknownCallDropped?
    {
      var i :| 0 <= i < |calls| && Drain(calls, position, velocity)[i] == e;
      DrainInOrder(calls, position, velocity, i);
    }
  }

  /** The two change signals, carrying the new location. */
  function Signals(loc: Location): seq<Event>
  {
    [PositionChanged(PositionFieldsOf(loc), loc.timestamp, loc.latitude, loc.longitude, loc.altitude, loc.accuracy),
     VelocityChanged(VelocityFieldsOf(loc), loc.timestamp, loc.speed, loc.direction, loc.climb)]
  }

  /** Everything a new fix causes: both signals, then the drain of the pending calls with that fix. */
  function LocationChangedEvents(loc: Location, calls: seq<PendingCall>): seq<Event>
  {
    Signals(loc) + Drain(calls, DelayedPositionReply(loc), DelayedVelocityReply(loc))
  }

  /**
   * Whatever is pending, a new fix never stops the hardware and never starts
   * or kills a timer.
   */
  lemma FixNeverStopsPositioning(loc: Location, calls: seq<PendingCall>)
    ensures forall e | e in LocationChangedEvents(loc, calls) ::
              !e.GpsStop? && !e.TimerStarted? && !e.TimerKilled?
  {
    DrainOnlyAnswers(calls, DelayedPositionReply(loc), DelayedVelocityReply(loc));
  }

  class HybrisProvider {
    /** The services holding references, one entry per AddReference still in force. */
    var watchedServices: seq<ServiceName>
    /** The names the bus watcher reports the unregistration of. */
    var watchedNames: set<ServiceName>
    /** Delayed GetPosition and GetVelocity calls, oldest first. */
    var pendingCalls: seq<PendingCall>
    var currentLocation: Location
    /** The idle timer's id, or -1 when it is not armed. */
    var idleTimer: int
    /** The id the next started timer gets. */
    var nextTimerId: int
    var quitRequested: bool
    var events: seq<Event>
    /** Which hardware interfaces were obtained at construction. */
    const gps: bool
    const agps: bool
    const agpsRil: bool

    /** Demand: references held plus calls waiting for a fix. */
    function Demand(): nat
      reads this
    {
      |watchedServices| + |pendingCalls|
    }

    /** The watcher watches exactly the distinct referencing services, and timer ids are sane. */
    ghost predicate Consistent()
      reads this
    {
      && watchedNames == Names(watchedServices)
      && 0 < nextTimerId
      && (idleTimer == -1 || 0 < idleTimer < nextTimerId)
    }

    /** Consistent, and the idle timer is never armed while there is demand. */
    ghost predicate Valid()
      reads this
    {
      Consistent() && (Demand() > 0 ==> idleTimer == -1)
    }

    /**
     * With no demand and no quit requested, an idle timer is armed, so the
     * process eventually ends. Every operation but SetLocation keeps this.
     */
    ghost predicate ArmedWhenIdle()
      reads this
    {
      Demand() == 0 && !quitRequested ==> idleTimer != -1
    }

    function GetStatus(): ProviderStatus
    {
      Status(gps, agps, agpsRil)
    }

    /**
     * A new provider holds no reference, no pending call and no fix, and has
     * armed the idle timer. Which hardware interfaces were found is given.
     */
    constructor (gps: bool, agps: bool, agpsRil: bool)
      ensures Valid() && ArmedWhenIdle()
      ensures watchedServices == [] && watchedNames == {} && pendingCalls == []
      ensures currentLocation == EmptyLocation && !quitRequested
      ensures idleTimer == 1 && nextTimerId == 2
      ensures events == [TimerStarted(1, QuitIdleTime)]
      ensures this.gps == gps && this.agps == agps && this.agpsRil == agpsRil
    {
      this.gps, this.agps, this.agpsRil := gps, agps, agpsRil;
      watchedServices, watchedNames, pendingCalls := [], {}, [];
      currentLocation := EmptyLocation;
      quitRequested := false;
      idleTimer := 1;
      nextTimerId := 2;
      events := [TimerStarted(1, QuitIdleTime)];
    }

    /** Starts positioning when the demand is exactly 1; see StartEvents. */
    method StartPositioningIfNeeded(modeError: int)
      requires Consistent()
      modifies this`idleTimer, this`events
      ensures Consistent()
      ensures events == old(events) + StartEvents(Demand(), old(idleTimer), modeError)
      ensures idleTimer == if Demand() == 1 then -1 else old(idleTimer)
    {
      if Demand() != 1 {
        return;
      }
      if idleTimer != -1 {
        events := events + [TimerKilled(idleTimer)];
        idleTimer := -1;
      }
      events := events + [SetPositionMode(Standalone, Periodic, MinimumInterval, PreferredAccuracy, PreferredInitialFixTime)];
      if modeError != 0 {
        return;
      }
      events := events + [GpsStart];
    }

    /** Stops positioning when the demand is 0; see StopEvents. */
    method StopPositioningIfNeeded()
      requires Consistent()
      modifies this`idleTimer, this`nextTimerId, this`events
      ensures Consistent()
      ensures events == old(events) + StopEvents(Demand(), old(nextTimerId))
      ensures idleTimer == if Demand() == 0 then old(nextTimerId) else old(idleTimer)
      ensures nextTimerId == if Demand() == 0 then old(nextTimerId) + 1 else old(nextTimerId)
    {
      if Demand() != 0 {
        return;
      }
      events := events + [GpsStop];
      idleTimer := nextTimerId;
      nextTimerId := nextTimerId + 1;
      events := events + [TimerStarted(idleTimer, QuitIdleTime)];
    }

    /**
     * A reference from `service`: it is appended even when already present,
     * watched only if it was absent, and positioning starts if this makes
     * the demand exactly 1.
     */
    method AddReference(service: ServiceName, modeError: int)
      requires Valid()
      modifies this
      ensures Valid() && ArmedWhenIdle()
      ensures watchedServices == old(watchedServices) + [service]
      ensures watchedNames == old(watchedNames) + {service}
      ensures events == old(events)
                         + WatchEvents(old(watchedServices), service)
                         + StartEvents(old(Demand()) + 1, old(idleTimer), modeError)
      ensures idleTimer == -1
      ensures pendingCalls == old(pendingCalls) && currentLocation == old(currentLocation)
      ensures nextTimerId == old(nextTimerId) && quitRequested == old(quitRequested)
    {
      NamesAppend(watchedServices, service);
      if service !in watchedServices {
        watchedNames := watchedNames + {service};
        events := events + [ServiceWatched(service)];
      }
      watchedServices := watchedServices + [service];
      StartPositioningIfNeeded(modeError);
    }

    /**
     * Drops one reference from `service` (none if it holds none), unwatches
     * it only when no reference from it is left, and stops positioning if
     * the demand is then 0, even when nothing was removed.
     */
    method RemoveReference(service: ServiceName)
      requires Valid()
      modifies this
      ensures Valid() && ArmedWhenIdle()
      ensures watchedServices == RemoveOne(old(watchedServices), service)
      ensures watchedNames == if service in watchedServices then old(watchedNames) else old(watchedNames) - {service}
      ensures events == old(events)
                         + UnwatchEvents(watchedServices, service)
                         + StopEvents(Demand(), old(nextTimerId))
      ensures idleTimer == if Demand() == 0 then old(nextTimerId) else old(idleTimer)
      ensures nextTimerId == if Demand() == 0 then old(nextTimerId) + 1 else old(nextTimerId)
      ensures pendingCalls == old(pendingCalls) && currentLocation == old(currentLocation)
      ensures quitRequested == old(quitRequested)
    {
      NamesRemoveOne(watchedServices, service);
      watchedServices := RemoveOne(watchedServices, service);
      if service !in watchedServices {
        watchedNames := watchedNames - {service};
        events := events + [ServiceUnwatched(service)];
      }
      StopPositioningIfNeeded();
    }

    /**
     * The bus reports that `service` went away: every reference from it is
     * dropped, it is unwatched, and positioning stops if the demand is then 0.
     */
    method ServiceUnregistered(service: ServiceName)
      requires Valid()
      modifies this
      ensures Valid() && ArmedWhenIdle()
      ensures watchedServices == RemoveAll(old(watchedServices), service)
      ensures watchedNames == old(watchedNames) - {service}
      ensures events == old(events) + [ServiceUnwatched(service)] + StopEvents(Demand(), old(nextTimerId))
      ensures idleTimer == if Demand() == 0 then old(nextTimerId) else old(idleTimer)
      ensures nextTimerId == if Demand() == 0 then old(nextTimerId) + 1 else old(nextTimerId)
      ensures pendingCalls == old(pendingCalls) && currentLocation == old(currentLocation)
      ensures quitRequested == old(quitRequested)
    {
      NamesRemoveAll(watchedServices, service);
      watchedServices := RemoveAll(watchedServices, service);
      watchedNames := watchedNames - {service};
      events := events + [ServiceUnwatched(service)];
      StopPositioningIfNeeded();
    }

    /**
     * Appends a delayed call to the queue and runs the start check: the
     * common stale branch of GetPosition and GetVelocity.
     */
    method DelayCall(call: PendingCall, modeError: int)
      requires Valid()
      modifies this`pendingCalls, this`idleTimer, this`events
      ensures Valid() && ArmedWhenIdle()
      ensures pendingCalls == old(pendingCalls) + [call]
      ensures events == old(events) + StartEvents(old(Demand()) + 1, old(idleTimer), modeError)
      ensures idleTimer == -1
    {
      pendingCalls := pendingCalls + [call];
      StartPositioningIfNeeded(modeError);
    }

    /**
     * A GetPosition call at time `now`: answered at once from the current
     * location unless it is stale, otherwise queued for the next fix.
     */
    method GetPosition(caller: nat, now: int, modeError: int) returns (reply: Reply)
      requires Valid()
      modifies this
      ensures Valid()
      ensures old(ArmedWhenIdle()) ==> ArmedWhenIdle()
      ensures !IsStale(currentLocation, now) ==>
                && reply == Immediate(ImmediatePositionReply(currentLocation))
                && pendingCalls == old(pendingCalls) && events == old(events) && idleTimer == old(idleTimer)
      ensures IsStale(currentLocation, now) ==>
                && reply == Delayed
                && pendingCalls == old(pendingCalls) + [PendingCall(GetPositionMember, caller)]
                && events == old(events) + StartEvents(old(Demand()) + 1, old(idleTimer), modeError)
                && idleTimer == -1
      ensures watchedServices == old(watchedServices) && watchedNames == old(watchedNames)
      ensures currentLocation == old(currentLocation) && nextTimerId == old(nextTimerId)
      ensures quitRequested == old(quitRequested)
    {
      if IsStale(currentLocation, now) {
        DelayCall(PendingCall(GetPositionMember, caller), modeError);
        reply := Delayed;
      } else {
        reply := Immediate(ImmediatePositionReply(currentLocation));
      }
    }

    /**
     * A GetVelocity call at time `now`: answered at once from the current
     * location unless it is stale, otherwise queued for the next fix.
     */
    method GetVelocity(caller: nat, now: int, modeError: int) returns (reply: Reply)
      requires Valid()
      modifies this
      ensures Valid()
      ensures old(ArmedWhenIdle()) ==> ArmedWhenIdle()
      ensures !IsStale(currentLocation, now) ==>
                && reply == Immediate(ImmediateVelocityReply(currentLocation))
                && pendingCalls == old(pendingCalls) && events == old(events) && idleTimer == old(idleTimer)
      ensures IsStale(currentLocation, now) ==>
                && reply == Delayed
                && pendingCalls == old(pendingCalls) + [PendingCall(GetVelocityMember, caller)]
                && events == old(events) + StartEvents(old(Demand()) + 1, old(idleTimer), modeError)
                && idleTimer == -1
      ensures watchedServices == old(watchedServices) && watchedNames == old(watchedNames)
      ensures currentLocation == old(currentLocation) && nextTimerId == old(nextTimerId)
      ensures quitRequested == old(quitRequested)
    {
      if IsStale(currentLocation, now) {
        DelayCall(PendingCall(GetVelocityMember, caller), modeError);
        reply := Delayed;
      } else {
        reply := Immediate(ImmediateVelocityReply(currentLocation));
      }
    }

    /**
     * A timer event: the idle timer's own event kills it, clears its id and
     * asks the application to quit; an event for any other timer changes
     * nothing. Timer ids are positive.
     */
    method TimerEvent(timerId: int)
      requires Valid()
      requires 0 < timerId
      modifies this
      ensures Valid()
      ensures old(ArmedWhenIdle()) ==> ArmedWhenIdle()
      ensures timerId == old(idleTimer) ==>
                idleTimer == -1 && quitRequested && events == old(events) + [TimerKilled(timerId), QuitRequested]
      ensures timerId != old(idleTimer) ==>
                idleTimer == old(idleTimer) && quitRequested == old(quitRequested) && events == old(events)
      ensures watchedServices == old(watchedServices) && watchedNames == old(watchedNames)
      ensures pendingCalls == old(pendingCalls) && currentLocation == old(currentLocation)
      ensures nextTimerId == old(nextTimerId)
    {
      if timerId == idleTimer {
        events := events + [TimerKilled(idleTimer)];
        idleTimer := -1;
        quitRequested := true;
        events := events + [QuitRequested];
      }
    }

    /**
     * A new fix replaces the current location wholesale and is announced;
     * see EmitLocationChanged. Neither the references nor the timers are
     * touched, so a drain that brings the demand to 0 leaves the hardware
     * running with no idle timer armed.
     */
    method SetLocation(location: Location)
      requires Valid()
      modifies this
      ensures Valid()
      ensures currentLocation == location && pendingCalls == []
      ensures events == old(events) + LocationChangedEvents(location, old(pendingCalls))
      ensures watchedServices == old(watchedServices) && watchedNames == old(watchedNames)
      ensures idleTimer == old(idleTimer) && nextTimerId == old(nextTimerId)
      ensures quitRequested == old(quitRequested)
    {
      currentLocation := location;
      EmitLocationChanged();
    }

    /**
     * Emits both change signals, then answers every pending call in queue
     * order from the current location, position arguments to GetPosition,
     * velocity arguments to GetVelocity, dropping any other call, and
     * empties the queue.
     */
    method EmitLocationChanged()
      modifies this`pendingCalls, this`events
      ensures pendingCalls == []
      ensures events == old(events) + LocationChangedEvents(currentLocation, old(pendingCalls))
    {
      var loc := currentLocation;
      events := events + Signals(loc);
      ghost var announced := events;
      if pendingCalls != [] {
        var position := DelayedPositionReply(loc);
        var velocity := DelayedVelocityReply(loc);
        // The loop walks a copy of the queue, as Qt's foreach does.
        var calls := pendingCalls;
        var i := 0;
        while i < |calls|
          invariant 0 <= i <= |calls|
          invariant events == announced + Drain(calls[..i], position, velocity)
        {
          var call := calls[i];
          if call.member == GetPositionMember {
            events := events + [Replied(call, position)];
          } else if call.member == GetVelocityMember {
            events := events + [Replied(call, velocity)];
          } else {
            events := events + [UnknownCallDropped(call)];
          }
          assert calls[..i + 1][..i] == calls[..i];
          i := i + 1;
        }
        assert calls[..i] == calls;
        pendingCalls := [];
      } else {
        assert Drain([], DelayedPositionReply(loc), DelayedVelocityReply(loc)) == [];
      }
    }
  }

  /**
   * The subscribe-fix-query scenario: a client takes a reference, a fix
   * with only latitude 1 and longitude 2 arrives at time 0, and a
   * GetPosition at time 0 is answered at once with latitude and longitude
   * flagged and altitude absent.
   */
  method SubscribeFixQueryScenario() returns (reply: Reply)
    ensures reply == Immediate([FieldsArg(LatitudePresent | LongitudePresent), Int32Arg(0),
                                DoubleArg(Some(1.0)), DoubleArg(Some(2.0)), DoubleArg(None),
                                AccuracyArg(UnknownAccuracy)])
  {
    var p := new HybrisProvider(true, false, false);
    p.AddReference("org.example.Client", 0);
    var fix := GpsLocation(HasLatLong, 1.0, 2.0, 5.0, 3.0, 90.0, 10.0, 0);
    p.SetLocation(LocationFromFix(fix));
    reply := p.GetPosition(1, 0, 0);
  }

  /**
   * A query with no client and no recent fix starts the hardware; the fix
   * that answers it brings the demand back to 0, yet the hardware is never
   * stopped and no idle timer is armed again. The waiting caller is
   * answered with the new fix's values.
   */
  method StaleQueryThenFixScenario() returns (p: HybrisProvider)
    ensures p.Demand() == 0 && p.idleTimer == -1 && !p.quitRequested && !p.ArmedWhenIdle()
    ensures GpsStart in p.events && GpsStop !in p.events
    ensures Replied(PendingCall(GetVelocityMember, 7), DelayedVelocityReply(EmptyLocation.(timestamp := 2500))) in p.events
  {
    p := new HybrisProvider(true, false, false);
    var reply := p.GetVelocity(7, 2000, 0);
    assert p.events == [TimerStarted(1, QuitIdleTime), TimerKilled(1),
                        SetPositionMode(Standalone, Periodic, MinimumInterval, PreferredAccuracy, PreferredInitialFixTime),
                        GpsStart];
    var fix := EmptyLocation.(timestamp := 2500);
    p.SetLocation(fix);
    FixNeverStopsPositioning(fix, [PendingCall(GetVelocityMember, 7)]);
    assert Drain([PendingCall(GetVelocityMember, 7)], DelayedPositionReply(fix), DelayedVelocityReply(fix))
           == [Replied(PendingCall(GetVelocityMember, 7), DelayedVelocityReply(fix))];
    assert GpsStart in p.events;
  }

  /**
   * RemoveReference from a service holding no reference, at zero demand,
   * stops the hardware again and arms a second idle timer without killing
   * the first; the first timer's event then changes nothing.
   */
  method RemoveAbsentReferenceScenario() returns (p: HybrisProvider)
    ensures p.events == [TimerStarted(1, QuitIdleTime), ServiceUnwatched("org.example.Client"),
                         GpsStop, TimerStarted(2, QuitIdleTime)]
    ensures p.idleTimer == 2 && !p.quitRequested
  {
    p := new HybrisProvider(true, false, false);
    p.RemoveReference("org.example.Client");
    p.TimerEvent(1);
  }

  /**
   * Two AddReference calls from one service need two RemoveReference calls:
   * after the first removal the service is still watched and positioning
   * keeps running; the second stops it.
   */
  method DoubleReferenceScenario() returns (p: HybrisProvider)
    ensures p.watchedServices == [] && p.watchedNames == {}
    ensures p.events == [TimerStarted(1, QuitIdleTime), ServiceWatched("a"), TimerKilled(1),
                         SetPositionMode(Standalone, Periodic, MinimumInterval, PreferredAccuracy, PreferredInitialFixTime),
                         GpsStart, ServiceUnwatched("a"), GpsStop, TimerStarted(2, QuitIdleTime)]
  {
    p := new HybrisProvider(true, false, false);
    p.AddReference("a", 0);
    p.AddReference("a", 0);
    p.RemoveReference("a");
    assert p.watchedServices == ["a"];
    p.RemoveReference("a");
  }
}
