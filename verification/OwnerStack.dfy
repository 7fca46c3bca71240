/** Whole runs of the owner: every layer together, with faults and process death anywhere. */
module OwnerStack {
  import opened Outcomes
  import opened FlowCodec
  import opened FlowTable
  import opened Policy
  import SM = SessionManager
  import P = Paths
  import FlowIds
  import PathSessions
  import Lifecycle

  /** What outlives a process: hardware tables, durable tables and the outside world. */
  datatype Platform = Platform(
    device: Adapter, journal: Store<SM.SessionId, SM.Session>, slots: P.SlotTable, db: Store<P.PathKey, P.PathRecord>,
    store: Store<(), PolicyState>, idJournal: FlowIds.IdJournal, resolver: P.Resolver, world: World, around: Lifecycle.Surroundings,
    boot: nat, smacPool: seq<int>, hopPool: seq<int>, first: int, last: int, domain: string)

  ghost predicate Configured(p: Platform) {
    && (p.store as object) != p.journal && (p.store as object) != p.db && (p.journal as object) != p.db
    && P.Distinct(p.smacPool) && P.Distinct(p.hopPool)
  }

  ghost predicate IdsCommissioned(p: Platform)
    reads p.idJournal
  {
    p.idJournal.Valid() && p.idJournal.generation.Some? && p.idJournal.generation.value.boot == p.idJournal.hardwareBoot
  }

  /** The durable state is one that a restart can start from. */
  ghost predicate Durable(p: Platform)
    reads p.device, p.journal, p.slots, p.db
  {
    && p.device.Valid() && SM.Covers(p.journal.rows, p.device.table, p.device.foreign) && SM.Unforged(p.journal.rows, p.device.foreign)
    && p.slots.Valid() && P.Sound(p.db.rows, p.slots.slots, p.slots.foreign)
    && NoDangling(p.journal.rows, p.device.table, p.device.foreign, p.db.rows, p.slots.slots)
  }

  /** This lifecycle runs on that platform. */
  ghost predicate RunsOn(l: Lifecycle.SessionLifecycle, p: Platform) {
    var o := l.paths.policy;
    && o.sessions.device == p.device && o.sessions.journal == p.journal && o.resources.device == p.slots && o.resources.db == p.db
    && o.store == p.store && o.idJournal == p.idJournal && l.around == p.around
  }

  /** Starts the owner from what it finds. */
  method Boot(p: Platform) returns (l: Lifecycle.SessionLifecycle)
    requires Configured(p) && Durable(p) && IdsCommissioned(p)
    modifies p.journal`doubts, p.db`doubts, p.store`doubts
    ensures l.Valid() && RunsOn(l, p) && l.producer == None
    ensures fresh(l) && fresh(l.paths.policy) && fresh(l.paths.policy.sessions) && fresh(l.paths.policy.resources)
    ensures l.paths.policy.ids != null && fresh(l.paths.policy.ids)
    ensures l.heartbeatTimeout == 15.0 && l.idleTimeout == 60.0 && l.maximumLifetime == 300.0 && l.capacity == 4096
  {
    hide SM.Covers, SM.Unforged, P.Sound, NoDangling, SM.Manager.Valid, P.PathOwner.Valid, PolicyOwner.Valid, Adapter.Valid, P.SlotTable.Valid,
      FlowIds.IdJournal.Valid;
    var sessions := new SM.Manager(p.device, p.journal);
    var resources := new P.PathOwner(p.db, p.slots, p.resolver, p.boot, p.smacPool, p.hopPool);
    var ids := new FlowIds.Allocator(p.idJournal, p.first, p.last, p.domain);
    var policy := new PolicyOwner(sessions, resources, p.store, ids, p.idJournal, p.world);
    var paths := new PathSessions.Coupling(policy);
    l := new Lifecycle.SessionLifecycle(paths, p.around, 15.0, 60.0, 300.0, 4096);
  }

  datatype Step =
    | StartStep(who: Option<Lifecycle.Producer>, revision: int, digest: string)
    | TickStep
    | ReceiveStep(from: Lifecycle.Producer, number: int, event: Lifecycle.Event)
    | ReplaceStep(expected: int, newDigest: string)
    | AgeStep(sid: SM.SessionId)
    | RecoverStep
    | RestartStep

  /** Installs a new policy generation below a running lifecycle. */
  method Replace(l: Lifecycle.SessionLifecycle, expected: int, digest: string) returns (r: Outcome)
    requires l.Valid()
    modifies l.paths.policy.Footprint()
    ensures r.Crashed? ==> l.paths.policy.Durable()
    ensures !r.Crashed? ==> l.Valid()
  {
    hide PolicyOwner.Valid, PolicyOwner.Durable, Sha256;
    var policy := l.paths.policy;
    ghost var recs := policy.sessions.sessions;
    r := policy.Replace(expected, digest);
  }

  /** Aging withdraws an idle session below the policy owner. */
  method Age(l: Lifecycle.SessionLifecycle, sid: SM.SessionId) returns (r: Outcome)
    requires l.Valid()
    modifies l.paths.policy.Footprint()
    ensures r.Crashed? ==> l.paths.policy.Durable()
    ensures !r.Crashed? ==> l.Valid()
  {
    hide PolicyOwner.Valid, PolicyOwner.Durable, SM.Shrinks;
    var policy := l.paths.policy;
    if policy.sessions.recoveryRequired || sid !in policy.sessions.sessions {
      return Done;
    }
    r := policy.Withdraw(sid);
  }

  method Recover(l: Lifecycle.SessionLifecycle) returns (r: Outcome)
    requires l.Valid()
    modifies l.paths.policy.Footprint()
    ensures r.Crashed? ==> l.paths.policy.Durable()
    ensures !r.Crashed? ==> l.Valid()
  {
    hide PolicyOwner.Valid, PolicyOwner.Durable;
    r := l.paths.Recover();
  }

  lemma DurablePlatform(l: Lifecycle.SessionLifecycle, p: Platform)
    requires RunsOn(l, p) && l.paths.policy.Durable() && l.paths.policy.ids != null
    ensures Durable(p) && IdsCommissioned(p)
  {
  }

  lemma ValidDurable(l: Lifecycle.SessionLifecycle)
    requires l.Valid()
    ensures l.paths.policy.Durable()
  {
  }

  /** One step of the owner; process death is followed by a restart from what is durable. */
  method Advance(l: Lifecycle.SessionLifecycle, p: Platform, step: Step) returns (next: Lifecycle.SessionLifecycle)
    requires l.Valid() && Configured(p) && RunsOn(l, p) && l.paths.policy.ids != null
    modifies l, l.around`shown, l.paths.policy.Footprint()
    ensures next.Valid() && RunsOn(next, p) && next.paths.policy.ids != null
    ensures next == l || (fresh(next) && fresh(next.paths.policy) && fresh(next.paths.policy.sessions) && fresh(next.paths.policy.resources)
                          && fresh(next.paths.policy.ids))
  {
    hide l.Valid, PolicyOwner.Valid, PolicyOwner.Durable, Durable, IdsCommissioned, Configured;
    var r := Done;
    match step {
      case StartStep(who, revision, digest) => r := l.Start(who, revision, digest);
      case TickStep => r := l.Tick();
      case ReceiveStep(who, number, event) => r := l.Receive(who, number, event);
      case ReplaceStep(expected, digest) => r := Replace(l, expected, digest);
      case AgeStep(sid) => r := Age(l, sid);
      case RecoverStep => r := Recover(l);
      case RestartStep =>
        ValidDurable(l);
        r := Crashed;
    }
    next := l;
    if r.Crashed? {
      DurablePlatform(l, p);
      next := Boot(p);
    }
  }

  /** Any run from a clean platform: admissions, leases, policy changes, aging, faults and restarts in any order. */
  method Run(p: Platform, steps: seq<Step>) returns (l: Lifecycle.SessionLifecycle)
    requires Configured(p) && IdsCommissioned(p)
    requires p.device.Valid() && p.device.table == p.device.foreign && p.journal.rows == map[]
    requires p.slots.Valid() && p.slots.slots == p.slots.foreign && p.db.rows == map[]
    modifies p.device, p.journal, p.slots, p.db, p.store, p.idJournal, p.around`shown
    ensures l.Valid() && RunsOn(l, p) && Assured(l)
  {
    hide Lifecycle.SessionLifecycle.Valid, Durable, IdsCommissioned, Configured, Assured, PolicyOwner.Valid, PolicyOwner.Durable, Adapter.Valid, P.SlotTable.Valid;
    CleanPlatform(p);
    l := Boot(p);
    for i := 0 to |steps|
      invariant l.Valid() && RunsOn(l, p) && l.paths.policy.ids != null
      invariant fresh(l) && fresh(l.paths.policy) && fresh(l.paths.policy.sessions) && fresh(l.paths.policy.resources) && fresh(l.paths.policy.ids)
    {
      l := Advance(l, p, steps[i]);
    }
    Guarantees(l);
  }

  lemma CleanPlatform(p: Platform)
    requires p.device.Valid() && p.device.table == p.device.foreign && p.journal.rows == map[]
    requires p.slots.Valid() && p.slots.slots == p.slots.foreign && p.db.rows == map[]
    ensures Durable(p)
  {
    assert P.Within(map[], p.db.rows) && P.Upheld(map[], p.slots.slots, p.slots.foreign);
  }

  /** What holds after every run, in the terms of the system. */
  ghost predicate Assured(l: Lifecycle.SessionLifecycle)
    reads l, l.paths.policy, l.paths.policy.sessions, l.paths.policy.sessions.device, l.paths.policy.sessions.journal,
          l.paths.policy.resources, l.paths.policy.resources.db, l.paths.policy.resources.device, l.paths.policy.idJournal
  {
    var o := l.paths.policy;
    // every flow entry of ours forwards to next hops that are recorded, filled and backed by their source MACs
    && NoDangling(o.sessions.journal.rows, o.sessions.device.table, o.sessions.device.foreign, o.resources.db.rows, o.resources.device.slots)
    // every entry that others did not write is a form of a journaled session's own
    && SM.Covers(o.sessions.journal.rows, o.sessions.device.table, o.sessions.device.foreign)
    // whatever became of database writes, a slot in use belongs to a row, with the row's contents and beside its source MACs,
    // and no slot belongs to two of the rows that are in use
    && P.Sound(o.resources.db.rows, o.resources.device.slots, o.resources.device.foreign)
    // while the resource owner is not fenced no slot belongs to two paths
    && (!o.resources.recoveryRequired ==> P.Disjoint(o.resources.paths))
    // while admission is enabled every recorded session belongs to the current revision and policy
    && (o.AdmissionEnabled() ==> Isolated(o.sessions.sessions, o.state.revision, o.state.digest, o.admitted))
    // while a producer is synchronized every recorded session has a lease, and without one nothing is admitted
    && (l.producer.Some? ==> forall sid :: sid in o.sessions.sessions ==> sid in l.leases)
    && (l.producer.None? ==> !o.AdmissionEnabled())
    // flow IDs handed out in this boot are distinct and increasing
    && FlowIds.StrictlyIncreasing(o.idJournal.issued)
  }

  lemma Guarantees(l: Lifecycle.SessionLifecycle)
    requires l.Valid()
    ensures Assured(l)
  {
    hide NoDangling, SM.Covers, P.Sound, Isolated, FlowIds.StrictlyIncreasing, SM.Consistent, SM.Settled, P.Kept, P.Disjoint, Anchors, SM.Unforged;
    OwnerFacts(l.paths.policy.resources);
  }
}
