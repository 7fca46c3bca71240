/** Bounded session leases for one synchronized producer. */
module Lifecycle {
  import opened Outcomes
  import opened FlowCodec
  import opened Policy
  import SM = SessionManager
  import P = Paths
  import PathSessions

  type Producer = nat   // an authenticated identity: boot, process and stream

  datatype Lease = Lease(decision: Request, expires: real, deadline: real) {
    predicate Due(now: real) {
      now >= expires || now >= deadline
    }
  }

  datatype Event =
    | Heartbeat
    | Open(request: Request)
    | Refresh(sid: int, decision: Request)
    | Close(id: int)

  /** The clock and the generation reader; either may fail, and the clock may misbehave, unless they stand still. */
  class Surroundings {
    var steady: bool
    var time: real
    var applied: Result<string>
    ghost var shown: seq<real>   // every value the clock has shown

    method Clock() returns (t: real)
      modifies this`shown
      ensures shown == old(shown) + [t]
      ensures steady ==> t == time
    {
      t := *;
      if steady {
        t := time;
      }
      shown := shown + [t];
    }

    method Generation() returns (g: Result<string>)
      ensures steady ==> g == applied
    {
      g := *;
      if steady {
        g := applied;
      }
    }
  }

  /** What is left of the leases are those that have not run out. */
  ghost predicate Kept(before: map<int, Lease>, after: map<int, Lease>, now: real) {
    && (forall sid :: sid in after <==> sid in before && now < before[sid].expires && now < before[sid].deadline)
    && (forall sid :: sid in after ==> after[sid] == before[sid])
  }

  /** What is left of the leases are those that have not run out and those still to be looked at. */
  ghost predicate KeptBut(todo: set<int>, before: map<int, Lease>, after: map<int, Lease>, now: real) {
    && (forall sid :: sid in after <==> sid in before && (sid in todo || !before[sid].Due(now)))
    && (forall sid :: sid in after ==> after[sid] == before[sid])
  }

  lemma KeptNone(leases: map<int, Lease>, now: real)
    ensures KeptBut(leases.Keys, leases, leases, now)
  {
  }

  lemma KeptMore(sid: int, todo: set<int>, before: map<int, Lease>, after: map<int, Lease>, now: real)
    requires KeptBut(todo, before, after, now) && sid in todo && sid in after
    ensures sid in before && after[sid] == before[sid]
    ensures KeptBut(todo - {sid}, before, if after[sid].Due(now) then after - {sid} else after, now)
  {
  }

  lemma KeptAll(before: map<int, Lease>, after: map<int, Lease>, now: real)
    requires KeptBut({}, before, after, now)
    ensures Kept(before, after, now) && forall sid :: sid in after ==> !after[sid].Due(now)
  {
  }

  /** The event may be acted on. */
  ghost predicate Timely(e: Event, leases: map<int, Lease>, capacity: nat) {
    && (e.Open? ==> |leases| < capacity && e.request.sid !in leases)
    && (e.Refresh? ==> e.sid in leases && leases[e.sid].decision == e.decision)
  }

  /** The leases after an event that was acted on when the clock showed `at`: an open lease idles out after `idle` and ends
      after `lifetime`, a refresh restarts the first and leaves the second alone, and nobody else's lease changes. */
  ghost function Renewed(e: Event, at: real, idle: real, lifetime: real, leases: map<int, Lease>): map<int, Lease> {
    match e
    case Heartbeat => leases
    case Open(q) => leases[q.sid := Lease(q, at + idle, at + lifetime)]
    case Refresh(sid, _) =>
      if sid !in leases then leases
      else leases[sid := Lease(leases[sid].decision, if at + idle <= leases[sid].deadline then at + idle else leases[sid].deadline, leases[sid].deadline)]
    case Close(id) => leases - {id}
  }

  /** An event was acted on, at one of these readings of the clock, between two ticks at others; whether the producer is heard
      from is its heartbeats' business alone. */
  ghost predicate Ruled(e: Event, idle: real, lifetime: real, capacity: nat, before: map<int, Lease>, after: map<int, Lease>,
                        beat: real, beat': real, clock: seq<real>)
  {
    exists i, j, k, mid ::
      && 0 <= i <= j < k < |clock| && Kept(before, mid, clock[i]) && Timely(e, mid, capacity)
      && Kept(Renewed(e, clock[j], idle, lifetime, mid), after, clock[k])
      && beat' == if e.Heartbeat? then clock[j] else beat
  }

  lemma RuledByNow(e: Event, idle: real, lifetime: real, capacity: nat, before: map<int, Lease>, mid: map<int, Lease>, mid': map<int, Lease>,
                   after: map<int, Lease>, beat: real, beat': real, shown: seq<real>, shown1: seq<real>, shown2: seq<real>, shown3: seq<real>)
    requires shown < shown1 <= shown2 < shown3 && Kept(before, mid, shown1[|shown1| - 1]) && Timely(e, mid, capacity)
    requires if e.Close? then mid' == mid - {e.id} else mid' == Renewed(e, shown2[|shown2| - 1], idle, lifetime, mid)
    requires Kept(mid', after, shown3[|shown3| - 1]) && beat' == if e.Heartbeat? then shown2[|shown2| - 1] else beat
    ensures Ruled(e, idle, lifetime, capacity, before, after, beat, beat', shown3[|shown|..])
    ensures e.Close? ==> e.id !in after
  {
    hide Timely;
    var clock := shown3[|shown|..];
    var i, j, k := |shown1| - 1 - |shown|, |shown2| - 1 - |shown|, |shown3| - 1 - |shown|;
    assert clock[i] == shown1[|shown1| - 1] && clock[j] == shown2[|shown2| - 1] && clock[k] == shown3[|shown3| - 1];
    assert Kept(Renewed(e, clock[j], idle, lifetime, mid), after, clock[k]);
  }

  class SessionLifecycle {
    const paths: PathSessions.Coupling
    const around: Surroundings
    const heartbeatTimeout: real
    const idleTimeout: real
    const maximumLifetime: real
    const capacity: nat
    var producer: Option<Producer>
    var sequence: int
    var lastHeartbeat: real
    var leases: map<int, Lease>
    var lastClock: Option<real>
    var generation: Option<string>

    /** While a producer is synchronized every recorded session has a lease; otherwise admission is off. */
    ghost predicate Valid()
      reads this, paths.policy, paths.policy.sessions, paths.policy.sessions.device, paths.policy.sessions.journal,
            paths.policy.resources, paths.policy.resources.db, paths.policy.resources.device, paths.policy.store, paths.policy.idJournal
    {
      && paths.policy.Valid()
      && (producer.None? ==> !paths.policy.activated)
      && (producer.Some? ==> forall sid :: sid in paths.policy.sessions.sessions ==> sid in leases)
    }

    /** Every lease is running and the producer's heartbeat is fresh, at the last clock value read. */
    ghost predicate Current()
      reads this`lastClock, this`lastHeartbeat, this`leases
    {
      && lastClock.Some? && 0.0 <= lastClock.value - lastHeartbeat < heartbeatTimeout
      && forall sid :: sid in leases ==> lastClock.value < leases[sid].expires && lastClock.value < leases[sid].deadline
    }

    constructor (paths: PathSessions.Coupling, around: Surroundings, heartbeat: real, idle: real, lifetime: real, capacity: nat)
      requires paths.policy.Valid() && !paths.policy.activated
      ensures Valid() && this.paths == paths && this.around == around && producer == None
      ensures heartbeatTimeout == heartbeat && idleTimeout == idle && maximumLifetime == lifetime && this.capacity == capacity
    {
      hide PolicyOwner.Valid;
      this.paths, this.around := paths, around;
      heartbeatTimeout, idleTimeout, maximumLifetime, this.capacity := heartbeat, idle, lifetime, capacity;
      producer, sequence, lastHeartbeat, leases, lastClock, generation := None, 0, 0.0, map[], None, None;
    }

    method Now() returns (r: Result<real>)
      modifies this`lastClock, around`shown
      ensures |around.shown| == |old(around.shown)| + 1 && old(around.shown) <= around.shown
      ensures var t := around.shown[|old(around.shown)|]; r == if t < 0.0 || (old(lastClock).Some? && t < old(lastClock).value) then Error else Ok(t)
      ensures lastClock == if r.Ok? then Some(r.value) else old(lastClock)
      ensures around.steady ==> around.shown[|old(around.shown)|] == around.time
    {
      var t := around.Clock();
      if t < 0.0 || (lastClock.Some? && t < lastClock.value) {
        return Error;
      }
      lastClock := Some(t);
      return Ok(t);
    }

    /** Ends the producer's lease before any hardware work, then drains. */
    method Fence() returns (r: Outcome)
      requires paths.policy.Valid()
      modifies this`producer, this`generation, this`leases, paths.policy.DrainFootprint()
      ensures !r.Crashed? ==> forall sid :: sid in paths.policy.sessions.sessions ==> sid in old(paths.policy.sessions.sessions)
      ensures r.Crashed? ==> paths.policy.Durable()
      ensures paths.policy.state.revision == old(paths.policy.state.revision) && paths.policy.state.digest == old(paths.policy.state.digest)
      ensures !r.Crashed? ==> Valid()
      ensures producer == None && (!r.Crashed? ==> !paths.policy.activated)
      ensures r.Done? ==> paths.policy.sessions.sessions == map[] && leases == map[]
      ensures r.Done? ==> paths.policy.state.phase.Blocked? && !paths.policy.sessions.recoveryRequired
      ensures old(paths.Idle()) ==> r.Done? && paths.Idle()
    {
      hide PolicyOwner.Valid, PolicyOwner.Durable, PathSessions.Coupling.Idle;
      producer, generation := None, None;
      paths.policy.Deactivate();
      r := paths.Reconcile();
      if r.Done? {
        leases := map[];
      }
    }

    /** Ends the producer's lease after a failed check, drains what it can, and reports the failure. */
    method Abandon() returns (r: Outcome)
      requires paths.policy.Valid()
      modifies this`producer, this`generation, paths.policy.DrainFootprint()
      ensures !r.Done? && producer == None
      ensures !r.Crashed? ==> forall sid :: sid in paths.policy.sessions.sessions ==> sid in old(paths.policy.sessions.sessions)
      ensures r.Crashed? ==> paths.policy.Durable()
      ensures paths.policy.state.revision == old(paths.policy.state.revision) && paths.policy.state.digest == old(paths.policy.state.digest)
      ensures !r.Crashed? ==> Valid() && !paths.policy.activated
    {
      hide PolicyOwner.Valid, PolicyOwner.Durable;
      producer, generation := None, None;
      paths.policy.Deactivate();
      r := paths.Reconcile();
      if r.Done? {
        r := Raised;
      }
    }

    method GenerationStands() returns (r: Result<bool>)
      ensures r == Ok(true) ==> generation.Some?
      ensures around.steady ==> r == if around.applied.Error? then Error else Ok(generation == Some(around.applied.value))
    {
      var g := around.Generation();
      if g.Error? {
        return Error;
      }
      return Ok(generation == Some(g.value));
    }

    /** The last clock value is the one the clock showed last. */
    ghost predicate ShownLast()
      reads this`lastClock, around
    {
      lastClock.Some? && around.shown != [] && lastClock.value == around.shown[|around.shown| - 1]
    }

    /** The producer's generation is the one applied, as far as that stands still. */
    ghost predicate Applied()
      reads this`generation, around
    {
      generation.Some? && (around.steady ==> around.applied == Ok(generation.value))
    }

    /** The clock and the generation stand still, and the heartbeat is fresh. */
    ghost predicate OnTime()
      reads this`generation, this`lastClock, this`lastHeartbeat, around`steady, around`time, around`applied
    {
      && around.steady && generation.Some? && around.applied == Ok(generation.value)
      && 0.0 <= around.time && (lastClock.Some? ==> lastClock.value <= around.time)
      && lastHeartbeat <= around.time && around.time - lastHeartbeat < heartbeatTimeout
    }

    /** A synchronized producer, nothing has changed under it, and what has run out can be withdrawn. */
    ghost predicate Undisturbed()
      reads this`producer, this`generation, this`lastClock, this`lastHeartbeat, this`leases, around`steady, around`time, around`applied,
            paths.policy, paths.policy.sessions, paths.policy.sessions.journal, paths.policy.sessions.device,
            paths.policy.resources, paths.policy.resources.db, paths.policy.resources.device, paths.policy.resources.resolver, paths.policy.world
    {
      producer.Some? && OnTime() && paths.Calm() && Leased(around.time)
    }

    /** Undisturbed, and no lease has run out. */
    ghost predicate Quiet()
      reads this`producer, this`generation, this`lastClock, this`lastHeartbeat, this`leases, around`steady, around`time, around`applied,
            paths.policy, paths.policy.sessions, paths.policy.sessions.journal, paths.policy.sessions.device,
            paths.policy.resources, paths.policy.resources.db, paths.policy.resources.device, paths.policy.resources.resolver, paths.policy.world
    {
      Undisturbed() && NoneDue(around.time)
    }

    /** The checks of one tick around a reconciliation.  `kept` says that the producer passed them all. */
    method Recheck() returns (r: Outcome, kept: bool)
      requires Valid() && producer.Some? && lastClock.Some? && lastHeartbeat <= lastClock.value
      modifies this`producer, this`generation, this`leases, this`lastClock, around`shown, paths.policy.DrainFootprint()
      ensures producer == None || producer == old(producer)
      ensures r.Crashed? ==> paths.policy.Durable()
      ensures paths.policy.state.revision == old(paths.policy.state.revision) && paths.policy.state.digest == old(paths.policy.state.digest)
      ensures !r.Crashed? ==> paths.policy.Valid()
      ensures r.Done? ==> Valid()
      ensures r.Done? && kept ==> producer == old(producer) && leases == old(leases)
      ensures r.Done? && kept ==> lastClock.Some? && 0.0 <= lastClock.value - lastHeartbeat < heartbeatTimeout
      ensures r.Done? && kept ==> generation == old(generation) && ShownLast() && Applied()
      ensures r.Done? && kept && around.steady ==> lastClock == Some(around.time)
      ensures old(around.shown) <= around.shown
      ensures r.Done? && !kept ==> producer == None
      ensures !r.Crashed? ==> forall sid :: sid in paths.policy.sessions.sessions ==> sid in old(paths.policy.sessions.sessions)
      ensures old(OnTime() && paths.Calm()) ==>
                && r.Done? && kept
                && unchanged(paths.policy, paths.policy.sessions, paths.policy.sessions.journal, paths.policy.sessions.device, paths.policy.store, paths.policy.resources,
                          paths.policy.resources.db, paths.policy.resources.device)
    {
      hide PolicyOwner.Valid, PolicyOwner.Durable, PathSessions.Coupling.Calm;
      kept := false;
      var stands := GenerationStands();
      if stands.Error? {
        return Raised, false;
      }
      if !stands.value {
        r := Fence();
        return;
      }
      r := paths.Reconcile();
      if !r.Done? {
        return;
      }
      var now := Now();
      stands := GenerationStands();
      if now.Error? || stands.Error? {
        return Raised, false;
      }
      if !stands.value || now.value - lastHeartbeat >= heartbeatTimeout {
        r := Fence();
        return;
      }
      return Done, true;
    }

    /** Every lease has its session, and those that have run out can be withdrawn. */
    ghost predicate Leased(now: real)
      reads this`leases, paths.policy, paths.policy.sessions, paths.policy.sessions.journal, paths.policy.sessions.device, paths.policy.resources,
            paths.policy.resources.db
    {
      forall sid :: sid in leases ==> sid in paths.policy.sessions.sessions && (leases[sid].Due(now) ==> paths.Revocable(sid))
    }

    ghost predicate NoneDue(now: real)
      reads this`leases
    {
      forall sid :: sid in leases ==> !leases[sid].Due(now)
    }

    /** Withdraws the sessions whose leases have run out. */
    method Expire(now: real) returns (r: Outcome)
      requires Valid() && producer.Some? && paths.policy.AdmissionEnabled()
      modifies this`leases, paths.policy.DrainFootprint()
      ensures !r.Crashed? ==> forall sid :: sid in paths.policy.sessions.sessions ==> sid in old(paths.policy.sessions.sessions)
      ensures r.Crashed? ==> paths.policy.Durable()
      ensures paths.policy.state.revision == old(paths.policy.state.revision) && paths.policy.state.digest == old(paths.policy.state.digest)
      ensures !r.Crashed? ==> paths.policy.Valid()
      ensures r.Done? ==> Valid() && paths.policy.AdmissionEnabled()
      ensures r.Done? ==> Kept(old(leases), leases, now) && NoneDue(now)
      ensures old(paths.Calm() && Leased(now)) ==> r.Done? && paths.Calm() && Leased(now)
      ensures old(NoneDue(now)) ==>
                && r.Done? && leases == old(leases)
                && unchanged(paths.policy, paths.policy.sessions, paths.policy.sessions.journal, paths.policy.sessions.device, paths.policy.store, paths.policy.resources,
                          paths.policy.resources.db, paths.policy.resources.device)
    {
      hide *;
      LeasedFacts(now);
      Outside();
      ghost var ready, none, before := paths.Calm() && Leased(now), NoneDue(now), leases;
      var todo := leases.Keys;
      KeptNone(leases, now);
      while todo != {}
        invariant Valid() && paths.policy.AdmissionEnabled()
        invariant paths.policy.state.revision == old(paths.policy.state.revision) && paths.policy.state.digest == old(paths.policy.state.digest)
        invariant forall sid :: sid in paths.policy.sessions.sessions ==> sid in old(paths.policy.sessions.sessions)
        invariant todo <= leases.Keys && KeptBut(todo, before, leases, now)
        invariant ready ==> paths.Calm() && forall sid :: sid in leases ==>
                    sid in paths.policy.sessions.sessions && (sid in todo && leases[sid].Due(now) ==> paths.Revocable(sid))
        invariant none ==>
                    && leases == before
                    && unchanged(paths.policy, paths.policy.sessions, paths.policy.sessions.journal, paths.policy.sessions.device, paths.policy.store, paths.policy.resources,
                          paths.policy.resources.db, paths.policy.resources.device)
        decreases todo
      {
        var sid := Pick(todo);
        KeptMore(sid, todo, before, leases, now);
        r := ExpireOne(sid, now);
        if !r.Done? {
          return;
        }
        todo := todo - {sid};
      }
      KeptAll(before, leases, now);
      Parts();
      LeasedFacts(now);
      return Done;
    }

    lemma LeasedFacts(now: real)
      ensures Leased(now) ==> forall sid :: sid in leases ==> sid in paths.policy.sessions.sessions && (leases[sid].Due(now) ==> paths.Revocable(sid))
      ensures NoneDue(now) <==> forall sid :: sid in leases ==> !leases[sid].Due(now)
      ensures NoneDue(now) && (forall sid :: sid in leases ==> sid in paths.policy.sessions.sessions) ==> Leased(now)
    {
      hide PathSessions.Coupling.Revocable;
    }

    /** Withdraws a session if its lease has run out. */
    method ExpireOne(sid: int, now: real) returns (r: Outcome)
      requires Valid() && producer.Some? && paths.policy.AdmissionEnabled() && sid in leases
      modifies this`leases, paths.policy.DrainFootprint()
      ensures !r.Crashed? ==> forall sid :: sid in paths.policy.sessions.sessions ==> sid in old(paths.policy.sessions.sessions)
      ensures r.Crashed? ==> paths.policy.Durable()
      ensures paths.policy.state.revision == old(paths.policy.state.revision) && paths.policy.state.digest == old(paths.policy.state.digest)
      ensures !r.Crashed? ==> paths.policy.Valid()
      ensures r.Done? ==> Valid() && paths.policy.AdmissionEnabled() && leases == if old(leases)[sid].Due(now) then old(leases) - {sid} else old(leases)
      ensures old(paths.Calm() && leases[sid].Due(now) && paths.Revocable(sid)) ==>
                && r.Done? && paths.Calm()
                && (forall other :: other != sid && other in old(paths.policy.sessions.sessions) ==> other in paths.policy.sessions.sessions)
                && (forall other :: other != sid && old(paths.Revocable(other)) ==> paths.Revocable(other))
      ensures !old(leases)[sid].Due(now) ==>
                && r.Done?
                && unchanged(paths.policy, paths.policy.sessions, paths.policy.sessions.journal, paths.policy.sessions.device, paths.policy.store, paths.policy.resources,
                          paths.policy.resources.db, paths.policy.resources.device)
    {
      hide PolicyOwner.Valid, PolicyOwner.Durable, PathSessions.Coupling.Calm, PathSessions.Coupling.Revocable;
      if !leases[sid].Due(now) {
        return Done;
      }
      r := paths.Revoke(sid);
      if r.Done? {
        leases := leases - {sid};
      }
    }

    method Tick() returns (r: Outcome)
      requires Valid()
      modifies this`producer, this`generation, this`leases, this`lastClock, around`shown, paths.policy.DrainFootprint()
      ensures r.Crashed? ==> paths.policy.Durable()
      ensures paths.policy.state.revision == old(paths.policy.state.revision) && paths.policy.state.digest == old(paths.policy.state.digest)
      ensures !r.Crashed? ==> Valid()
      ensures r.Raised? ==> producer == None && !paths.policy.activated
      ensures producer == None || producer == old(producer)
      ensures r.Done? && producer.Some? ==> Current() && paths.policy.AdmissionEnabled()
      // what is left of the leases are those that have not run out, at a clock value read by this tick
      ensures r.Done? && producer.Some? ==> ShownLast() && old(around.shown) < around.shown && Kept(old(leases), leases, lastClock.value)
      ensures r.Done? && producer.Some? ==> generation == old(generation) && Applied()
      ensures old(around.shown) <= around.shown
      ensures !r.Crashed? ==> forall sid :: sid in paths.policy.sessions.sessions ==> sid in old(paths.policy.sessions.sessions)
      // and if nothing stands in the way the producer stays synchronized, and nothing is withdrawn that has not run out
      ensures old(Undisturbed()) ==> r.Done? && producer.Some? && Quiet()
      ensures old(Quiet()) ==>
                && r.Done? && producer.Some? && Quiet() && leases == old(leases)
                && paths.Untouched()
    {
      hide PolicyOwner.Valid, PolicyOwner.Durable, PathSessions.Coupling.Calm, Leased, NoneDue, Kept, Current;
      var now := Now();
      if now.Error? {
        r := Fence();
        r := if r.Crashed? then Crashed else Raised;
        return;
      }
      if producer.None? {
        r := paths.Reconcile();
        return;
      }
      if now.value < lastHeartbeat || now.value - lastHeartbeat >= heartbeatTimeout {
        r := Fence();
        return;
      }
      r := TickOn();
    }

    /** The part of a tick that follows the check of the heartbeat. */
    method TickOn() returns (r: Outcome)
      requires Valid() && producer.Some? && lastClock.Some? && lastHeartbeat <= lastClock.value
      modifies this`producer, this`generation, this`leases, this`lastClock, around`shown, paths.policy.DrainFootprint()
      ensures r.Crashed? ==> paths.policy.Durable()
      ensures paths.policy.state.revision == old(paths.policy.state.revision) && paths.policy.state.digest == old(paths.policy.state.digest)
      ensures !r.Crashed? ==> Valid()
      ensures r.Raised? ==> producer == None && !paths.policy.activated
      ensures producer == None || producer == old(producer)
      ensures r.Done? && producer.Some? ==> Current() && paths.policy.AdmissionEnabled()
      ensures r.Done? && producer.Some? ==> ShownLast() && Kept(old(leases), leases, lastClock.value)
      ensures r.Done? && producer.Some? ==> generation == old(generation) && Applied()
      ensures old(around.shown) <= around.shown
      ensures !r.Crashed? ==> forall sid :: sid in paths.policy.sessions.sessions ==> sid in old(paths.policy.sessions.sessions)
      ensures old(Undisturbed()) ==> r.Done? && producer.Some? && Quiet()
      ensures old(Quiet()) ==>
                && r.Done? && producer.Some? && Quiet() && leases == old(leases)
                && paths.Untouched()
    {
      hide PolicyOwner.Valid, PolicyOwner.Durable, PathSessions.Coupling.Calm, Leased, NoneDue;
      paths.CalmFacts();
      var kept;
      r, kept := Recheck();
      if r.Raised? {
        r := Abandon();
        return;
      }
      if r.Crashed? || !kept {
        return;
      }
      if !paths.policy.AdmissionEnabled() {
        r := Fence();
        return;
      }
      r := Expire(lastClock.value);
      if r.Raised? {
        r := Fence();
        r := if r.Crashed? then Crashed else Raised;
      }
    }

    /** Fences after a failure and reports it. */
    method FenceAndRaise() returns (r: Outcome)
      requires paths.policy.Valid()
      modifies this`producer, this`generation, this`leases, paths.policy.DrainFootprint()
      ensures !r.Done? && producer == None
      ensures r.Crashed? ==> paths.policy.Durable()
      ensures paths.policy.state.revision == old(paths.policy.state.revision) && paths.policy.state.digest == old(paths.policy.state.digest)
      ensures !r.Crashed? ==> Valid() && !paths.policy.activated
    {
      hide *;
      r := Fence();
      if r.Done? {
        r := Raised;
      }
    }

    /** Nothing is recorded, the platform stands still, and the generation may be activated on it. */
    ghost predicate Ready(revision: int, digest: string)
      reads this`lastClock, around`steady, around`time, around`applied, paths.policy, paths.policy.sessions, paths.policy.sessions.journal`healthy,
            paths.policy.sessions.device`healthy, paths.policy.store`healthy, paths.policy.resources, paths.policy.resources.device,
            paths.policy.resources.resolver, paths.policy.world
    {
      && around.steady && around.applied.Ok? && 0.0 <= around.time && (lastClock.Some? ==> lastClock.value <= around.time)
      && 0.0 < heartbeatTimeout && paths.Idle()
      && paths.policy.world.steady && paths.policy.world.qualified == Ok(true) && paths.policy.world.bindings.Ok? && paths.policy.ids != null
      && revision != 0 && Sha256(digest) && revision == paths.policy.state.revision && paths.policy.state.digest == Some(digest)
    }

    /** The same with the clock read and the producer's last lease ended. */
    ghost predicate Activable(now: real, revision: int, digest: string)
      reads this`lastClock, this`leases, around`steady, around`time, around`applied, paths.policy, paths.policy.sessions, paths.policy.sessions.journal`healthy,
            paths.policy.sessions.device`healthy, paths.policy.store`healthy, paths.policy.resources, paths.policy.resources.device,
            paths.policy.resources.resolver, paths.policy.world
    {
      && around.steady && around.applied.Ok? && 0.0 <= now == around.time && lastClock == Some(now)
      && 0.0 < heartbeatTimeout && paths.Idle() && leases == map[]
      && paths.policy.world.steady && paths.policy.world.qualified == Ok(true) && paths.policy.store.healthy && paths.policy.Activable(revision, digest)
    }

    lemma ReadyFacts(revision: int, digest: string)
      ensures Ready(revision, digest) ==>
                && around.steady && around.applied.Ok? && 0.0 <= around.time && (lastClock.Some? ==> lastClock.value <= around.time)
                && 0.0 < heartbeatTimeout && paths.Idle()
                && paths.policy.world.steady && paths.policy.world.qualified == Ok(true) && paths.policy.world.bindings.Ok? && paths.policy.ids != null
                && revision != 0 && Sha256(digest) && revision == paths.policy.state.revision && paths.policy.state.digest == Some(digest)
    {
      hide Sha256, PathSessions.Coupling.Idle;
    }

    lemma ActivableNow(now: real, revision: int, digest: string)
      requires around.steady && around.applied.Ok? && 0.0 <= now == around.time && lastClock == Some(now) && 0.0 < heartbeatTimeout && leases == map[]
      requires paths.Idle() && paths.policy.world.steady && paths.policy.world.qualified == Ok(true) && paths.policy.world.bindings.Ok?
      requires paths.policy.ids != null && revision != 0 && Sha256(digest) && revision == paths.policy.state.revision
      requires paths.policy.state.digest == Some(digest) && paths.policy.state.phase.Blocked? && !paths.policy.sessions.recoveryRequired
      ensures Activable(now, revision, digest)
    {
      hide Sha256, PathSessions.Coupling.Calm;
    }

    lemma ActivableFacts(now: real, revision: int, digest: string)
      ensures Activable(now, revision, digest) ==>
                && around.steady && around.applied.Ok? && 0.0 <= now == around.time && lastClock == Some(now)
                && 0.0 < heartbeatTimeout && paths.Idle() && leases == map[]
                && paths.policy.world.steady && paths.policy.world.qualified == Ok(true) && paths.policy.world.bindings.Ok?
                && paths.policy.store.healthy && paths.policy.Activable(revision, digest)
    {
      hide Sha256, PathSessions.Coupling.Idle;
    }

    /** The generation has just been activated on an idle owner, and the clock and the applied generation stand still. */
    ghost predicate Activated(current: string, now: real)
      reads this`lastClock, this`leases, around`steady, around`time, around`applied, paths.policy, paths.policy.sessions, paths.policy.sessions.journal`healthy,
            paths.policy.sessions.device`healthy, paths.policy.store`healthy, paths.policy.resources, paths.policy.resources.device,
            paths.policy.resources.resolver, paths.policy.world
    {
      && around.steady && around.applied == Ok(current) && 0.0 <= now == around.time && lastClock == Some(now) && 0.0 < heartbeatTimeout && leases == map[]
      && paths.Idle() && paths.policy.activated && paths.policy.state.phase.Active? && !paths.policy.sessions.recoveryRequired
      && paths.policy.world.steady && paths.policy.world.qualified == Ok(true) && paths.policy.world.bindings.Ok?
      && paths.policy.state.attachment == Some(paths.policy.world.bindings.value)
    }

    lemma ActivatedNow(current: string, now: real)
      requires around.steady && around.applied == Ok(current) && 0.0 <= now == around.time && lastClock == Some(now) && 0.0 < heartbeatTimeout && leases == map[]
      requires paths.Idle() && paths.policy.activated && paths.policy.state.phase.Active? && !paths.policy.sessions.recoveryRequired
      requires paths.policy.world.steady && paths.policy.world.qualified == Ok(true) && paths.policy.world.bindings.Ok?
      requires paths.policy.state.attachment == Some(paths.policy.world.bindings.value)
      ensures Activated(current, now)
    {
      hide PathSessions.Coupling.Idle;
    }

    lemma UndisturbedAtStart(current: string, now: real)
      requires Activated(current, now) && producer.Some? && generation == Some(current) && lastHeartbeat == now
      ensures Undisturbed()
    {
      hide PathSessions.Coupling.Idle, PathSessions.Coupling.Calm;
      paths.CalmAtStart();
    }

    /** Synchronizes a producer with the applied generation, on an empty table. */
    method Start(who: Option<Producer>, revision: int, digest: string) returns (r: Outcome)
      requires Valid()
      modifies this, around`shown, paths.policy.Footprint()
      ensures r.Crashed? ==> paths.policy.Durable()
      ensures !r.Crashed? ==> Valid()
      ensures r.Raised? ==> producer == None && !paths.policy.activated
      ensures r.Done? ==> who.Some? && producer == who && sequence == 0 && Current() && paths.policy.AdmissionEnabled() && Applied() && ShownLast()
      ensures old(around.shown) <= around.shown
      ensures r.Done? ==> lastHeartbeat in around.shown[|old(around.shown)|..]
      ensures r.Done? ==> paths.policy.state.revision == revision && paths.policy.state.digest == Some(digest)
      // nothing from an earlier generation, attachment or producer is adopted
      ensures r.Done? ==> paths.policy.sessions.sessions == map[]
      // on a platform that stands still and has nothing recorded a producer is synchronized, and is heeded from then on
      ensures old(Ready(revision, digest)) && who.Some? ==> r.Done? && Quiet()
    {
      hide *;
      Parts();
      Outside();
      ReadyFacts(revision, digest);
      ghost var ready := Ready(revision, digest);
      r := Fence();
      if !r.Done? {
        return;
      }
      if who.None? {
        return Raised;
      }
      Parts();
      var now := Now();
      Whole();
      if now.Error? {
        return Raised;
      }
      if ready {
        ActivableNow(now.value, revision, digest);
      }
      r := Synchronize(who.value, now.value, revision, digest);
    }

    method Synchronize(who: Producer, now: real, revision: int, digest: string) returns (r: Outcome)
      requires Valid() && paths.policy.sessions.sessions == map[]
      modifies this, around`shown, paths.policy.Footprint()
      ensures r.Crashed? ==> paths.policy.Durable()
      ensures !r.Crashed? ==> Valid()
      ensures r.Raised? ==> producer == None && !paths.policy.activated
      ensures r.Done? ==> producer == Some(who) && sequence == 0 && Current() && paths.policy.AdmissionEnabled() && Applied() && ShownLast()
      ensures lastHeartbeat == now || lastHeartbeat == old(lastHeartbeat)
      ensures r.Done? ==> lastHeartbeat == now
      ensures old(around.shown) <= around.shown
      ensures r.Done? ==> paths.policy.sessions.sessions == map[]
      ensures r.Done? ==> paths.policy.state.revision == revision && paths.policy.state.digest == Some(digest)
      ensures old(Activable(now, revision, digest)) ==> r.Done? && Quiet()
    {
      hide *;
      Parts();
      Outside();
      ActivableFacts(now, revision, digest);
      ghost var ready := Activable(now, revision, digest);
      var current;
      r, current := Activate(revision, digest);
      if r.Raised? {
        r := FenceAndRaise();
      }
      if !r.Done? {
        return;
      }
      if ready {
        ActivatedNow(current, now);
      }
      r := Begin(who, current, now);
    }

    /** The producer's first tick. */
    method Begin(who: Producer, current: string, now: real) returns (r: Outcome)
      requires paths.policy.Valid() && paths.policy.sessions.sessions == map[]
      modifies this, around`shown, paths.policy.DrainFootprint()
      ensures r.Crashed? ==> paths.policy.Durable()
      ensures !r.Crashed? ==> Valid()
      ensures r.Raised? ==> producer == None && !paths.policy.activated
      ensures r.Done? ==> producer == Some(who) && sequence == 0 && Current() && paths.policy.AdmissionEnabled() && Applied() && ShownLast()
      ensures lastHeartbeat == now && old(around.shown) <= around.shown
      ensures r.Done? ==> paths.policy.sessions.sessions == map[]
      ensures paths.policy.state.revision == old(paths.policy.state.revision) && paths.policy.state.digest == old(paths.policy.state.digest)
      ensures old(Activated(current, now)) ==> r.Done? && Quiet()
    {
      hide *;
      Outside();
      ghost var ready := Activated(current, now);
      generation, producer, sequence, lastHeartbeat := Some(current), Some(who), 0, now;
      Whole();
      if ready {
        UndisturbedAtStart(current, now);
      }
      r := Tick();
      if !r.Crashed? {
        Parts();
      }
      if r.Done? && producer.None? {
        r := Raised;
      }
    }

    /** Activates the policy generation while the applied topology stands still. */
    method Activate(revision: int, digest: string) returns (r: Outcome, current: string)
      requires paths.policy.Valid()
      modifies paths.policy`state, paths.policy`activated, paths.policy.store`rows, paths.policy.store`doubts
      ensures r.Crashed? ==> paths.policy.Durable()
      ensures !r.Crashed? ==> paths.policy.Valid()
      ensures r.Done? ==> paths.policy.state.revision == revision && paths.policy.state.digest == Some(digest)
      ensures r.Done? ==>
                && paths.policy.activated && paths.policy.state.phase.Active? && !paths.policy.sessions.recoveryRequired
                && (paths.policy.world.steady ==>
                      paths.policy.world.bindings.Ok? && paths.policy.state.attachment == Some(paths.policy.world.bindings.value))
      ensures around.steady && paths.policy.world.steady && paths.policy.store.healthy ==>
                (around.applied.Ok? && old(paths.policy.Activable(revision, digest)) ==> r.Done? && current == around.applied.value)
    {
      hide *;
      current := "";
      var before := around.Generation();
      if before.Error? {
        return Raised, "";
      }
      r := paths.policy.Activate(revision, digest);
      var after := around.Generation();
      if r.Done? && after != before {
        r := Raised;
      }
      current := before.value;
    }

    /** The effect of one accepted event. */
    method Apply(e: Event) returns (r: Outcome)
      requires Valid() && producer.Some?
      modifies this`leases, this`lastClock, this`lastHeartbeat, around`shown, paths.policy.Footprint()
      ensures r.Crashed? ==> paths.policy.Durable()
      ensures !r.Crashed? ==> paths.policy.Valid()
      ensures r.Done? ==> Valid() && Timely(e, old(leases), capacity)
      ensures old(around.shown) <= around.shown
      ensures !Timely(e, old(leases), capacity) ==> r.Raised? && leases == old(leases)
      // the leases, exactly, at the clock value read last
      ensures r.Done? && !e.Close? ==> ShownLast() && old(around.shown) < around.shown && leases == Renewed(e, lastClock.value, idleTimeout, maximumLifetime, old(leases))
      ensures r.Done? && e.Close? ==> leases == old(leases) - {e.id} && around.shown == old(around.shown) && lastClock == old(lastClock)
      ensures lastHeartbeat == if r.Done? && e.Heartbeat? then lastClock.value else old(lastHeartbeat)
      // and it succeeds if nothing stands in the way
      ensures old(Quiet() && Doable(e)) ==> r.Done? && Quiet()
      // and the sessions
      ensures r.Done? && e.Open? ==> Opened(e.request, old(paths.policy.sessions.sessions), old(paths.policy.sessions.device.table), old(paths.policy.idJournal.issued))
      ensures r.Done? && e.Close? ==> e.id !in paths.policy.sessions.sessions && e.id !in paths.policy.dependencies
      ensures r.Done? ==> forall sid :: sid in paths.policy.sessions.sessions ==> sid in old(paths.policy.sessions.sessions) || (e.Open? && sid == e.request.sid)
      ensures e.Heartbeat? || e.Refresh? ==>
                && paths.policy.sessions.sessions == old(paths.policy.sessions.sessions)
                && paths.policy.sessions.device.table == old(paths.policy.sessions.device.table)
    {
      hide PolicyOwner.Valid, PolicyOwner.Durable, Opened, Quiet, Doable;
      match e
      case Heartbeat =>
        r := Beat();
      case Open(q) =>
        r := OpenLease(q);
      case Refresh(sid, decision) =>
        r := RefreshLease(sid, decision);
      case Close(sid) =>
        r := CloseLease(sid);
    }

    /** Hears from the producer. */
    method Beat() returns (r: Outcome)
      requires Valid() && producer.Some?
      modifies this`lastClock, this`lastHeartbeat, around`shown
      ensures !r.Crashed? && Valid() && old(around.shown) < around.shown
      ensures r.Done? ==> ShownLast() && lastHeartbeat == lastClock.value
      ensures r.Raised? ==> lastHeartbeat == old(lastHeartbeat)
      ensures old(Quiet()) ==> r.Done? && Quiet()
    {
      hide PolicyOwner.Valid, PolicyOwner.Durable, PathSessions.Coupling.Calm, PathSessions.Coupling.Revocable;
      var now := Now();
      if now.Error? {
        return Raised;
      }
      lastHeartbeat := now.value;
      return Done;
    }

    /** Restarts a lease's idle time, within its lifetime. */
    method RefreshLease(sid: int, decision: Request) returns (r: Outcome)
      requires Valid() && producer.Some?
      modifies this`leases, this`lastClock, around`shown
      ensures !r.Crashed? && Valid() && old(around.shown) <= around.shown
      ensures r.Raised? ==> leases == old(leases)
      ensures sid !in old(leases) || old(leases)[sid].decision != decision ==> r.Raised?
      ensures r.Done? ==>
                && ShownLast() && old(around.shown) < around.shown && sid in old(leases) && old(leases)[sid].decision == decision
                && leases == Renewed(Refresh(sid, decision), lastClock.value, idleTimeout, maximumLifetime, old(leases))
      ensures old(Quiet() && Doable(Refresh(sid, decision))) ==> r.Done? && Quiet()
    {
      hide PolicyOwner.Valid, PolicyOwner.Durable, PathSessions.Coupling.Calm, PathSessions.Coupling.Revocable;
      if sid !in leases || leases[sid].decision != decision {
        return Raised;
      }
      var now := Now();
      if now.Error? {
        return Raised;
      }
      var limit := leases[sid].deadline;
      var wanted := now.value + idleTimeout;
      leases := leases[sid := leases[sid].(expires := if wanted < limit then wanted else limit)];
      return Done;
    }

    /** Admits a session and leases it. */
    method OpenLease(q: Request) returns (r: Outcome)
      requires Valid() && producer.Some?
      modifies this`leases, this`lastClock, around`shown, paths.policy.Footprint()
      ensures r.Crashed? ==> paths.policy.Durable()
      ensures !r.Crashed? ==> paths.policy.Valid()
      ensures r.Done? ==> Valid() && |old(leases)| < capacity && q.sid !in old(leases)
      ensures old(around.shown) <= around.shown
      ensures |old(leases)| >= capacity || q.sid in old(leases) ==> r.Raised? && leases == old(leases)
      ensures r.Done? ==>
                && ShownLast() && old(around.shown) < around.shown
                && leases == old(leases)[q.sid := Lease(q, lastClock.value + idleTimeout, lastClock.value + maximumLifetime)]
      ensures r.Done? ==> Opened(q, old(paths.policy.sessions.sessions), old(paths.policy.sessions.device.table), old(paths.policy.idJournal.issued))
      ensures r.Done? ==> forall sid :: sid in paths.policy.sessions.sessions ==> sid == q.sid || sid in old(paths.policy.sessions.sessions)
      ensures old(Quiet() && Doable(Open(q))) ==> r.Done? && Quiet()
    {
      hide *;
      ghost var ready := Quiet() && Doable(Open(q));
      if ready {
        OpenReady(q);
      }
      Parts();
      Outside();
      if |leases| >= capacity || q.sid in leases {
        return Raised;
      }
      r := OpenPath(q);
      if r.Done? {
        if ready {
          GrantReady(q);
        }
        r := Grant(q);
        if r.Done? {
          Whole();
        }
      }
    }

    lemma ShownFacts()
      ensures ShownLast() ==> lastClock.Some? && around.shown != [] && lastClock.value == around.shown[|around.shown| - 1]
    {
    }

    lemma Parts()
      requires Valid()
      ensures producer.None? ==> !paths.policy.activated
      ensures paths.policy.Valid() && (producer.Some? ==> forall sid :: sid in paths.policy.sessions.sessions ==> sid in leases)
    {
    }

    lemma Whole()
      requires paths.policy.Valid() && (producer.None? ==> !paths.policy.activated)
      requires producer.Some? ==> forall sid :: sid in paths.policy.sessions.sessions ==> sid in leases
      ensures Valid()
    {
    }

    /** The policy owner and what it owns are other objects. */
    lemma Outside()
      ensures (this as object) !in paths.policy.Footprint() && (around as object) !in paths.policy.Footprint()
      ensures (paths.policy as object) in paths.policy.Footprint() && (paths.policy.store as object) in paths.policy.Footprint()
      ensures paths.policy.DrainFootprint() <= paths.policy.Footprint()
      ensures (this as object) !in paths.policy.DrainFootprint() && (around as object) !in paths.policy.DrainFootprint()
      ensures (paths.policy.world as object) !in paths.policy.DrainFootprint() && (paths.policy.resources.resolver as object) !in paths.policy.DrainFootprint()
    {
    }

    /** Leases a session from now on. */
    method Grant(q: Request) returns (r: Outcome)
      modifies this`leases, this`lastClock, around`shown
      ensures !r.Crashed? && old(around.shown) < around.shown && (r.Raised? ==> leases == old(leases))
      ensures r.Done? ==>
                && ShownLast()
                && leases == old(leases)[q.sid := Lease(q, lastClock.value + idleTimeout, lastClock.value + maximumLifetime)]
      ensures old(Grantable(q)) ==> r.Done? && Quiet()
    {
      hide PathSessions.Coupling.Calm, PathSessions.Coupling.Revocable;
      var now := Now();
      if now.Error? {
        return Raised;
      }
      leases := leases[q.sid := Lease(q, now.value + idleTimeout, now.value + maximumLifetime)];
      return Done;
    }

    /** Withdraws a session and drops its lease. */
    method CloseLease(sid: int) returns (r: Outcome)
      requires Valid() && producer.Some?
      modifies this`leases, paths.policy.Footprint()
      ensures r.Crashed? ==> paths.policy.Durable()
      ensures !r.Crashed? ==> paths.policy.Valid()
      ensures r.Done? ==> Valid() && leases == old(leases) - {sid} && sid !in paths.policy.sessions.sessions && sid !in paths.policy.dependencies
      ensures r.Done? ==> forall other :: other in paths.policy.sessions.sessions ==> other in old(paths.policy.sessions.sessions)
      ensures old(Quiet() && Doable(Close(sid))) ==> r.Done? && Quiet()
    {
      hide PolicyOwner.Valid, PolicyOwner.Durable, PathSessions.Coupling.Calm, PathSessions.Coupling.Revocable;
      r := paths.Revoke(sid);
      if r.Done? {
        leases := leases - {sid};
      }
    }

    /** The request's session is recorded and in hardware, on the path that the resolver gives for it. */
    ghost predicate Opened(q: Request, sessions: SM.Records, flows: SM.Table, issued: seq<int>)
      reads paths.policy, paths.policy.sessions, paths.policy.sessions.device, paths.policy.resources, paths.policy.resources.device,
            paths.policy.resources.resolver, paths.policy.idJournal, paths.policy.world
    {
      && q.sid in paths.policy.sessions.sessions
      && exists plan ::
        && paths.Admitted(q, plan, sessions, flows, issued)
        && (paths.policy.resources.resolver.stable ==>
              q.Key() in paths.policy.resources.resolver.plans && paths.policy.resources.resolver.plans[q.Key()] == plan)
    }

    /** The resolver gives a path for the request, and nothing stands in the way of it there. */
    ghost predicate Awaited(q: Request)
      reads paths.policy, paths.policy.sessions, paths.policy.sessions.journal, paths.policy.sessions.device, paths.policy.resources,
            paths.policy.resources.device, paths.policy.resources.resolver, paths.policy.resources.db, paths.policy.idJournal, paths.policy.ids, paths.policy.world
    {
      && paths.policy.resources.resolver.stable && q.Key() in paths.policy.resources.resolver.plans
      && paths.Welcome(q, paths.policy.resources.resolver.plans[q.Key()])
    }

    /** The event may be acted on, and the calls it makes will answer. */
    ghost predicate Doable(e: Event)
      reads this`leases, paths.policy, paths.policy.sessions, paths.policy.sessions.journal, paths.policy.sessions.device, paths.policy.resources,
            paths.policy.resources.device, paths.policy.resources.resolver, paths.policy.resources.db, paths.policy.idJournal, paths.policy.ids, paths.policy.world
    {
      && 0.0 < idleTimeout && 0.0 < maximumLifetime && Timely(e, leases, capacity)
      && (e.Open? ==> Awaited(e.request))
      && (e.Close? ==> paths.Revocable(e.id))
    }

    lemma OpenReady(q: Request)
      requires Quiet() && Doable(Open(q))
      ensures paths.Calm() && Awaited(q) && |leases| < capacity && q.sid !in leases && OnTime() && producer.Some?
      ensures 0.0 < idleTimeout && 0.0 < maximumLifetime
      ensures forall sid :: sid in leases ==> sid in paths.policy.sessions.sessions && !leases[sid].Due(around.time)
    {
      hide PathSessions.Coupling.Calm, PathSessions.Coupling.Revocable, Awaited;
    }

    /** The session is there, and a lease of it would leave everything in order. */
    ghost predicate Grantable(q: Request)
      reads this`producer, this`generation, this`lastClock, this`lastHeartbeat, this`leases, around`steady, around`time, around`applied,
            paths.policy, paths.policy.sessions, paths.policy.sessions.device,
            paths.policy.resources, paths.policy.resources.device, paths.policy.resources.resolver, paths.policy.world
    {
      && producer.Some? && OnTime() && paths.Calm() && 0.0 < idleTimeout && 0.0 < maximumLifetime && q.sid in paths.policy.sessions.sessions
      && forall sid :: sid in leases ==> sid in paths.policy.sessions.sessions && !leases[sid].Due(around.time)
    }

    lemma GrantReady(q: Request)
      requires producer.Some? && OnTime() && paths.Calm() && 0.0 < idleTimeout && 0.0 < maximumLifetime && q.sid in paths.policy.sessions.sessions
      requires forall sid :: sid in leases ==> sid in paths.policy.sessions.sessions && !leases[sid].Due(around.time)
      ensures Grantable(q)
    {
      hide PathSessions.Coupling.Calm;
    }

    /** Resolves the path locally and admits on it; the event chooses no hardware index. */
    method OpenPath(q: Request) returns (r: Outcome)
      requires paths.policy.Valid()
      modifies paths.policy.Footprint()
      ensures r.Crashed? ==> paths.policy.Durable()
      ensures !r.Crashed? ==> paths.policy.Valid()
      ensures !r.Crashed? ==> forall sid :: sid in paths.policy.sessions.sessions ==> sid == q.sid || sid in old(paths.policy.sessions.sessions)
      ensures r.Done? ==> Opened(q, old(paths.policy.sessions.sessions), old(paths.policy.sessions.device.table), old(paths.policy.idJournal.issued))
      ensures !q.allow || q.inspectionRequired || !q.established ==>
                !r.Done? && (r.Raised? ==> forall sid :: sid in paths.policy.sessions.sessions ==> sid in old(paths.policy.sessions.sessions))
      ensures old(paths.Calm() && Awaited(q)) ==> r.Done? && paths.Calm() && paths.policy.sessions.sessions.Keys == old(paths.policy.sessions.sessions.Keys) + {q.sid}
    {
      hide PolicyOwner.Valid, PolicyOwner.Durable, PathSessions.Coupling.Admitted, PathSessions.Coupling.Welcome, PathSessions.Coupling.Calm;
      var plan := paths.policy.resources.resolver.Current(q.Key());
      if plan.None? {
        return Raised;
      }
      r := paths.Admit(q, plan.value);
      if r.Done? {
        paths.AdmittedFacts(q, plan.value, old(paths.policy.sessions.sessions), old(paths.policy.sessions.device.table), old(paths.policy.idJournal.issued));
      }
    }

    /** One event of the producer's stream: accepted in order, or the producer is fenced. */
    method Receive(who: Producer, number: int, e: Event) returns (r: Outcome)
      requires Valid()
      modifies this, around`shown, paths.policy.Footprint()
      ensures r.Crashed? ==> paths.policy.Durable()
      ensures !r.Crashed? ==> Valid()
      ensures r.Done? ==> producer == old(producer) == Some(who) && sequence == old(sequence) + 1 == number
      ensures r.Done? ==> Uint(number, U32 * U32)
      ensures r.Done? ==> Current() && paths.policy.AdmissionEnabled() && Applied() && ShownLast()
      ensures r.Raised? ==> producer == None && !paths.policy.activated && sequence == old(sequence)
      ensures old(around.shown) <= around.shown
      // what the event did, and that nothing else happened to the leases but that some ran out
      ensures r.Done? ==> Ruled(e, idleTimeout, maximumLifetime, capacity, old(leases), leases, old(lastHeartbeat), lastHeartbeat, around.shown[|old(around.shown)|..])
      ensures r.Done? && e.Close? ==> e.id !in leases && e.id !in paths.policy.sessions.sessions
      ensures r.Done? ==> forall sid :: sid in paths.policy.sessions.sessions ==> sid in old(paths.policy.sessions.sessions) || (e.Open? && sid == e.request.sid)
      // the next event of a producer that keeps its time is heeded if nothing stands in the way
      ensures old(Quiet() && Doable(e)) && old(producer) == Some(who) && Uint(number, U32 * U32) && number == old(sequence) + 1 ==> r.Done? && Quiet()
    {
      hide PolicyOwner.Valid, PolicyOwner.Durable, Kept, Renewed, Timely, Ruled, Current, PolicyOwner.AdmissionEnabled, Quiet, Doable, Undisturbed;
      r := Tick();
      if !r.Done? {
        return;
      }
      if producer.None? {
        return Raised;
      }
      ghost var shown, mid := around.shown, leases;
      if producer.value != who || !Uint(number, U32 * U32) || number != sequence + 1 {
        r := FenceAndRaise();
        return;
      }
      ghost var shown', mid';
      r, shown', mid' := Accept(number, e);
      if r.Done? {
        RuledByNow(e, idleTimeout, maximumLifetime, capacity, old(leases), mid, mid', leases, old(lastHeartbeat), lastHeartbeat,
                   old(around.shown), shown, shown', around.shown);
      }
    }

    /** The part of an event that follows the check of its number: acted on, then reconciled before it is acknowledged. */
    method Accept(number: int, e: Event) returns (r: Outcome, ghost shown: seq<real>, ghost acted: map<int, Lease>)
      requires Valid() && producer.Some?
      modifies this, around`shown, paths.policy.Footprint()
      ensures r.Crashed? ==> paths.policy.Durable()
      ensures !r.Crashed? ==> Valid()
      ensures r.Done? ==> producer == old(producer) && sequence == number && Current() && paths.policy.AdmissionEnabled() && Applied() && ShownLast()
      ensures r.Raised? ==> producer == None && !paths.policy.activated && sequence == old(sequence)
      ensures old(around.shown) <= around.shown
      ensures r.Done? ==> old(around.shown) <= shown < around.shown && Timely(e, old(leases), capacity)
      ensures r.Done? ==> Kept(acted, leases, around.shown[|around.shown| - 1])
      ensures r.Done? && !e.Close? ==> old(around.shown) < shown && acted == Renewed(e, shown[|shown| - 1], idleTimeout, maximumLifetime, old(leases))
      ensures r.Done? && e.Close? ==> acted == old(leases) - {e.id} && e.id !in paths.policy.sessions.sessions
      ensures r.Done? ==> lastHeartbeat == if e.Heartbeat? then shown[|shown| - 1] else old(lastHeartbeat)
      ensures r.Done? ==> forall sid :: sid in paths.policy.sessions.sessions ==> sid in old(paths.policy.sessions.sessions) || (e.Open? && sid == e.request.sid)
      ensures old(Quiet() && Doable(e)) ==> r.Done? && Quiet()
    {
      hide *;
      Outside();
      r := Apply(e);
      shown, acted := around.shown, leases;
      if r.Done? {
        ShownFacts();
        r := Tick();
        if !r.Crashed? {
          Parts();
        }
      }
      if r.Raised? || (r.Done? && producer.None?) {
        r := FenceAndRaise();
        return;
      }
      if r.Done? {
        ShownFacts();
        sequence := number;
        Whole();
      }
    }
  }
}
