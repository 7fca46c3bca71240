/** Policy generations over a serialized session owner: a change drains every session before it can admit again. */
module Policy {
  import opened Outcomes
  import opened FlowCodec
  import opened NatPair
  import opened FlowTable
  import SM = SessionManager
  import P = Paths
  import FlowIds

  /** Front-port bindings as the attachment owner reports them; their digest is taken as collision-free. */
  datatype Binding = Binding(enabled: bool, link: bool)
  type Bindings = map<int, Binding>

  datatype Phase = Blocked | Draining | Active
  datatype PolicyState = PolicyState(revision: int, phase: Phase, digest: Option<string>, attachment: Option<Bindings>)

  predicate Sha256(s: string) {
    |s| == 64 && forall i :: 0 <= i < 64 ==> '0' <= s[i] <= '9' || 'a' <= s[i] <= 'f'
  }

  /** A paired admission request: the evaluator's decision and the kernel's two conntrack tuples. */
  datatype Request = Request(sid: int, revision: int, policy: string, natDigest: string, path: P.PathSnapshot,
                             ruleLength: nat, allow: bool, original: Conntrack, reply: Conntrack, ingress: int, egress: int,
                             inspectionRequired: bool, natRequired: bool, established: bool)
  {
    function Key(): P.PathKey {
      P.PathKey(sid, revision, policy)
    }
  }

  /** What the owner reads from the platform.  Unless it is steady, any read may differ from the last, or fail. */
  class World {
    var steady: bool
    var qualified: Result<bool>
    var natQualified: Result<bool>
    var bindings: Result<Bindings>

    method Qualified() returns (r: Result<bool>)
      ensures steady ==> r == qualified
    {
      r := *;
      if steady {
        r := qualified;
      }
    }

    method NatQualified() returns (r: Result<bool>)
      ensures steady ==> r == natQualified
    {
      r := *;
      if steady {
        r := natQualified;
      }
    }

    method ReadBindings() returns (r: Result<Bindings>)
      ensures steady ==> r == bindings
    {
      r := *;
      if steady {
        r := bindings;
      }
    }
  }

  /** The path is the one the request was decided for, and leads where it says in both directions. */
  predicate Fits(p: P.PathSnapshot, q: Request) {
    && p.natDigest == q.natDigest && p == q.path
    && p.forward.ingress == q.ingress && p.forward.egress == q.egress && p.forward.destination == q.reply.source
    && p.backward.ingress == q.egress && p.backward.egress == q.ingress && p.backward.destination == q.original.source
  }

  function Zones(p: P.PathSnapshot): seq<int> {
    [p.forward.zone, p.backward.zone]
  }

  function Hops(p: P.PathSnapshot): seq<int> {
    [p.hop0, p.hop1]
  }

  /** The two entries of a request on its path, with placeholder flow IDs. */
  function Entries(q: Request): (Entry, Entry) {
    PairEntries(q.sid, q.original, q.reply, Zones(q.path), Hops(q.path))
  }

  /** The evaluator's decision allows the offload of an established flow that needs no inspection. */
  predicate Permitted(q: Request) {
    q.allow && !q.inspectionRequired && q.established && 1 <= q.ruleLength <= 128 && Sha256(q.policy) && Sha256(q.natDigest)
  }

  /** The path under the request's key is of this boot, the resolver's current one, and the request's own. */
  predicate HeldFor(q: Request, paths: P.PathRows, boot: nat, plans: map<P.PathKey, P.Plan>) {
    && q.Key() in paths && |paths[q.Key()].order| == 4 && paths[q.Key()].boot == boot
    && q.Key() in plans && plans[q.Key()] == paths[q.Key()].plan && Fits(paths[q.Key()].Snapshot(), q)
  }

  // ------------------------------------------------------------- invariants on values

  /** Every recorded session was admitted under the current revision and policy digest. */
  ghost predicate Isolated(sessions: SM.Records, revision: int, digest: Option<string>, admitted: map<SM.SessionId, Option<string>>) {
    forall sid :: sid in sessions ==> sessions[sid].revision == revision && sid in admitted && admitted[sid] == digest
  }

  /** Both directions forward to the record's two next hops. */
  predicate ForwardsTo(s: SM.Session, rec: P.PathRecord) {
    |rec.order| == 4 && s.forward.Hop() == Some(rec.order[2].index) && s.backward.Hop() == Some(rec.order[3].index)
  }

  /** The path under this key is the session's: its next hops are the ones the session's entries name,
      and all four of its slots are filled. */
  ghost predicate AnchoredAt(sid: SM.SessionId, s: SM.Session, key: P.PathKey, paths: P.PathRows, slots: P.SlotMap) {
    && key.sid == sid && key.revision == s.revision && key in paths
    && ForwardsTo(s, paths[key]) && P.InSlots(paths[key].held, slots)
  }

  /** Every flow entry of ours in the table belongs to a journaled session whose path is recorded and in place. */
  ghost predicate NoDangling(rows: SM.Records, flows: SM.Table, foreign: SM.Table, pathRows: P.PathRows, slots: P.SlotMap) {
    forall k :: k in flows && k !in foreign ==>
      exists sid, key :: sid in rows && rows[sid].Owns(k, flows[k]) && AnchoredAt(sid, rows[sid], key, pathRows, slots)
  }

  /** Each session with a known dependency is anchored at it; those dependencies presuppose that no slot is shared. */
  ghost predicate Anchors(sessions: SM.Records, dependencies: map<SM.SessionId, Request>, paths: P.PathRows, slots: P.SlotMap) {
    && (forall sid :: sid in sessions && sid in dependencies ==> AnchoredAt(sid, sessions[sid], dependencies[sid].Key(), paths, slots))
    && (dependencies != map[] ==> P.Disjoint(paths))
  }

  /** Sessions outlive an inactive generation only behind the manager's fence, or after a save that was not acknowledged. */
  predicate DrainedUnless(sessions: SM.Records, fenced: bool, phase: Phase, doubted: bool) {
    !fenced && sessions != map[] && !phase.Active? ==> doubted
  }

  lemma NoDanglingShrinks(rows: SM.Records, flows: SM.Table, rows': SM.Records, flows': SM.Table, foreign: SM.Table,
                          pathRows: P.PathRows, slots: P.SlotMap)
    requires NoDangling(rows, flows, foreign, pathRows, slots) && SM.Shrinks(rows, flows, rows', flows', foreign)
    ensures NoDangling(rows', flows', foreign, pathRows, slots)
  {
    hide P.InSlots, IsVariant;
    forall k | k in flows' && k !in foreign
      ensures exists sid, key :: sid in rows' && rows'[sid].Owns(k, flows'[k]) && AnchoredAt(sid, rows'[sid], key, pathRows, slots)
    {
      var sid, key :| sid in rows && rows[sid].Owns(k, flows[k]) && AnchoredAt(sid, rows[sid], key, pathRows, slots);
      assert rows[sid].Uses(k);
      assert sid in rows' && rows'[sid].SameIntent(rows[sid]);
      assert AnchoredAt(sid, rows'[sid], key, pathRows, slots);
    }
  }

  /** A path in memory whose slots are filled is in the database too. */
  lemma AnchoredInRows(sid: SM.SessionId, s: SM.Session, key: P.PathKey, paths: P.PathRows, pathRows: P.PathRows, slots: P.SlotMap, foreign: P.SlotMap)
    requires AnchoredAt(sid, s, key, paths, slots)
    requires P.Backed(paths, pathRows, slots) && P.Commissioned(paths, foreign)
    ensures AnchoredAt(sid, s, key, pathRows, slots)
  {
    hide P.SlotData.Matches;
    assert paths[key].order[0] in paths[key].held;
    assert P.Holds(paths[key].held, paths[key].order[0], slots);
    assert !P.Unused(paths[key].held, slots);
  }

  /** Settled sessions, all of them anchored, leave nothing dangling. */
  lemma AnchoredSessions(sessions: SM.Records, rows: SM.Records, flows: SM.Table, foreign: SM.Table,
                         keyOf: map<SM.SessionId, P.PathKey>, pathRows: P.PathRows, slots: P.SlotMap)
    requires SM.Covers(sessions, flows, foreign)
    requires forall sid :: sid in sessions ==> sid in rows && rows[sid].SameIntent(sessions[sid])
    requires forall sid :: sid in sessions ==> sid in keyOf && AnchoredAt(sid, sessions[sid], keyOf[sid], pathRows, slots)
    ensures NoDangling(rows, flows, foreign, pathRows, slots)
  {
    hide P.InSlots, IsVariant;
    forall k | k in flows && k !in foreign
      ensures exists sid, key :: sid in rows && rows[sid].Owns(k, flows[k]) && AnchoredAt(sid, rows[sid], key, pathRows, slots)
    {
      var sid :| sid in sessions && sessions[sid].Owns(k, flows[k]);
      assert rows[sid].Owns(k, flows[k]) && AnchoredAt(sid, rows[sid], keyOf[sid], pathRows, slots);
    }
  }

  /** An install whose own path is in place leaves nothing dangling, wherever it is cut. */
  lemma InstallNoDangling(sid: SM.SessionId, s: SM.Session, key: P.PathKey, sessions: SM.Records, rows: SM.Records, flows: SM.Table,
                          sessions': SM.Records, rows': SM.Records, flows': SM.Table, foreign: SM.Table,
                          keyOf: map<SM.SessionId, P.PathKey>, pathRows: P.PathRows, slots: P.SlotMap)
    requires SM.Covers(sessions, flows, foreign) && SM.Settled(sessions, rows, flows, foreign) && sid !in sessions
    requires SM.Installing1(sid, s, sessions, rows, flows, sessions', rows', flows')
    requires forall other :: other in sessions ==> other in keyOf && AnchoredAt(other, sessions[other], keyOf[other], pathRows, slots)
    requires AnchoredAt(sid, s, key, pathRows, slots)
    ensures NoDangling(rows', flows', foreign, pathRows, slots)
  {
    hide P.InSlots, IsVariant, SM.InPlace, SM.Apart;
    forall k | k in flows' && k !in foreign
      ensures exists other, at :: other in rows' && rows'[other].Owns(k, flows'[k]) && AnchoredAt(other, rows'[other], at, pathRows, slots)
    {
      if s.Uses(k) {
        assert rows'[sid].Owns(k, flows'[k]) && AnchoredAt(sid, rows'[sid], key, pathRows, slots);
      } else {
        var other :| other in sessions && sessions[other].Owns(k, flows[k]);
        assert rows'[other] == sessions[other];
        assert rows'[other].Owns(k, flows'[k]) && AnchoredAt(other, rows'[other], keyOf[other], pathRows, slots);
      }
    }
  }

  /** The three durable tables are different ones. */
  ghost predicate Separate(sessions: SM.Manager, resources: P.PathOwner, store: Store<(), PolicyState>) {
    (store as object) != sessions.journal && (store as object) != resources.db && (sessions.journal as object) != resources.db
  }

  lemma SeparateFacts(sessions: SM.Manager, resources: P.PathOwner, store: Store<(), PolicyState>)
    requires Separate(sessions, resources, store)
    ensures (store as object) != sessions.journal && (store as object) != resources.db
  {
  }

  lemma ValidIsDurable(sessions: SM.Manager, resources: P.PathOwner)
    ensures sessions.Valid() ==> sessions.Durable()
    ensures resources.Valid() ==> resources.Durable()
  {
  }

  class PolicyOwner {
    const sessions: SM.Manager
    const resources: P.PathOwner
    const store: Store<(), PolicyState>
    const ids: FlowIds.Allocator?
    const idJournal: FlowIds.IdJournal
    const world: World
    var state: PolicyState
    var activated: bool
    var dependencies: map<SM.SessionId, Request>
    ghost var admitted: map<SM.SessionId, Option<string>>   // the policy digest each session was admitted under

    /** Every object that a withdrawal may change. */
    ghost function DrainFootprint(): set<object> {
      {this, sessions, sessions.journal, sessions.device, store, resources, resources.db, resources.device}
    }

    /** Every object an operation of this owner or of the layers above may change. */
    ghost function Footprint(): set<object> {
      DrainFootprint() + {idJournal} + (if ids == null then {} else {ids})
    }

    /** What survives process death at any point. */
    ghost predicate Durable()
      reads sessions.device, sessions.journal, resources.db, resources.device, idJournal
    {
      && sessions.Durable() && resources.Durable() && IdsUsable()
      && NoDangling(sessions.journal.rows, sessions.device.table, sessions.device.foreign, resources.db.rows, resources.device.slots)
    }

    ghost predicate IdsUsable()
      reads idJournal
    {
      idJournal.Valid() && (ids != null ==> ids.db == idJournal && idJournal.generation.Some? && idJournal.generation.value.boot == idJournal.hardwareBoot)
    }

    ghost predicate Valid()
      reads this, sessions, sessions.device, sessions.journal, resources, resources.db, resources.device, store, idJournal
    {
      && Separate(sessions, resources, store) && DrainedUnless(sessions.sessions, sessions.recoveryRequired, state.phase, () in store.doubts)
      && sessions.Valid() && resources.Valid() && IdsUsable()
      && NoDangling(sessions.journal.rows, sessions.device.table, sessions.device.foreign, resources.db.rows, resources.device.slots)
      && Anchors(sessions.sessions, dependencies, resources.paths, resources.device.slots)
      && (!sessions.recoveryRequired ==>
            Isolated(sessions.sessions, state.revision, state.digest, admitted) && forall sid :: sid in sessions.sessions ==> sid in dependencies)
    }

    predicate AdmissionEnabled()
      reads this, sessions
    {
      activated && state.phase.Active? && !sessions.recoveryRequired
    }

    constructor (sessions: SM.Manager, resources: P.PathOwner, store: Store<(), PolicyState>, ids: FlowIds.Allocator?,
                 idJournal: FlowIds.IdJournal, world: World)
      requires Separate(sessions, resources, store)
      requires sessions.Valid() && resources.Valid() && (sessions.recoveryRequired <==> sessions.sessions != map[])
      requires NoDangling(sessions.journal.rows, sessions.device.table, sessions.device.foreign, resources.db.rows, resources.device.slots)
      requires idJournal.Valid()
      requires ids != null ==> ids.db == idJournal && idJournal.generation.Some? && idJournal.generation.value.boot == idJournal.hardwareBoot
      modifies store`doubts
      ensures Valid() && !activated && dependencies == map[] && store.doubts == {}
      ensures this.sessions == sessions && this.resources == resources && this.store == store && this.ids == ids && this.idJournal == idJournal
    {
      hide SM.Manager.Valid, SM.Manager.Durable, P.PathOwner.Valid, P.PathOwner.Durable, FlowIds.IdJournal.Valid, NoDangling, Valid, Durable, Anchors, Isolated,
        IdsUsable, DrainedUnless, Stands, AllStand, Current, Admissible, Resolvable, Installable, Stocked, Outdated;
      this.sessions, this.resources, this.store, this.ids, this.idJournal, this.world := sessions, resources, store, ids, idJournal, world;
      state, activated, dependencies, admitted := PolicyState(0, Blocked, None, None), false, map[], map[];
      new;
      UsableIds();
      LoadState();
    }

    /** The generation as the store has it. */
    method LoadState()
      requires sessions.Valid() && resources.Valid() && Separate(sessions, resources, store) && IdsUsable()
      requires NoDangling(sessions.journal.rows, sessions.device.table, sessions.device.foreign, resources.db.rows, resources.device.slots)
      requires (sessions.recoveryRequired <==> sessions.sessions != map[]) && dependencies == map[] && !activated
      modifies this`state, store`doubts
      ensures Valid() && store.doubts == {}
    {
      hide *;
      SeparateFacts(sessions, resources, store);
      var rows := store.Load();
      if () in rows {
        state := rows[()];
      }
      NoDependencies(sessions.sessions, sessions.recoveryRequired, resources.paths, resources.device.slots, state, admitted);
      Close();
    }

    lemma UsableIds()
      requires idJournal.Valid()
      requires ids != null ==> ids.db == idJournal && idJournal.generation.Some? && idJournal.generation.value.boot == idJournal.hardwareBoot
      ensures IdsUsable()
    {
    }

    /** The store is about to raise, with or without effect. */
    predicate Loses()
      reads store`healthy, store`omen
    {
      !store.healthy && (store.omen == Some(LostBefore) || store.omen == Some(LostAfter))
    }

    /** Saves a new state; a failed save leaves the old one, blocked. */
    method Persist(wanted: PolicyState) returns (r: Outcome)
      modifies this`state, store`rows, store`doubts
      ensures r.Done? ==> state == wanted
      ensures !r.Done? ==> state == old(state) || state == old(state).(phase := Blocked)
      ensures r.Raised? ==> state.phase.Blocked?
      ensures store.doubts == if r.Done? then old(store.doubts) - {()} else old(store.doubts) + {()}
      ensures store.healthy ==> r.Done?
      ensures Loses() ==> r.Raised? && state == old(state).(phase := Blocked)
    {
      r := store.Put((), wanted);
      if r.Raised? {
        state := state.(phase := Blocked);
      }
      :- r;
      state := wanted;
      return Done;
    }

    /** The request's path is current, held in this boot and answered for by every call that has to be asked. */
    ghost predicate Stands(q: Request)
      reads resources, resources.device, resources.resolver, world
    {
      && resources.device.healthy && resources.resolver.stable && !resources.recoveryRequired
      && HeldFor(q, resources.paths, resources.boot, resources.resolver.plans)
      && (q.natRequired ==> world.steady && world.natQualified == Ok(true))
    }

    /** The path held for the request runs between its ports, towards what conntrack answered from, both ways; and NAT is
        qualified where it is needed. */
    ghost predicate Carried(q: Request)
      reads resources, world
    {
      && q.Key() in resources.paths && |resources.paths[q.Key()].order| == 4
      && var rec := resources.paths[q.Key()];
      && rec.plan.natDigest == q.natDigest && rec.plan.forward.ingress == q.ingress && rec.plan.forward.egress == q.egress
      && rec.plan.backward.ingress == q.egress && rec.plan.backward.egress == q.ingress
      && rec.plan.forward.destination == q.reply.source && rec.plan.backward.destination == q.original.source
      && q.path == P.PathSnapshot(rec.plan.natDigest, rec.plan.forward, rec.plan.backward, rec.order[2].index, rec.order[3].index)
      && (q.natRequired && world.steady ==> world.natQualified == Ok(true))
    }

    /** The path owner answers for the request's path now: ready, of this boot, read back, and confirmed by the resolver. */
    ghost predicate Vouched(q: Request)
      reads resources, resources.device, resources.resolver, world
    {
      && Carried(q) && !resources.recoveryRequired && resources.paths[q.Key()].stage.Ready? && resources.paths[q.Key()].boot == resources.boot
      && P.InSlots(resources.paths[q.Key()].held, resources.device.slots)
      && (resources.resolver.stable ==>
            q.Key() in resources.resolver.plans && resources.resolver.plans[q.Key()] == resources.paths[q.Key()].plan)
    }

    /** Both ports are bound, enabled and up, as far as the platform stands still. */
    ghost predicate Attached(q: Request)
      reads world
    {
      && q.ingress != q.egress
      && (world.steady ==>
            && world.bindings.Ok? && q.ingress in world.bindings.value && q.egress in world.bindings.value
            && world.bindings.value[q.ingress].enabled && world.bindings.value[q.ingress].link
            && world.bindings.value[q.egress].enabled && world.bindings.value[q.egress].link)
    }

    ghost predicate AllStand()
      reads this, sessions, resources, resources.device, resources.resolver, world
    {
      forall sid :: sid in dependencies && sid in sessions.sessions ==> Stands(dependencies[sid])
    }

    /** Nothing that a reconciliation looks at has changed. */
    ghost predicate Current()
      reads this, sessions, resources, resources.device, resources.resolver, world
    {
      AdmissionEnabled() && world.steady && !Outdated() && AllStand()
    }

    /** The path owner's current, read-back snapshot, checked against the request in both directions. */
    method DirectionalPaths(q: Request) returns (r: Result<P.PathSnapshot>)
      requires resources.Valid()
      ensures r.Ok? ==>
                && r.value == q.path && !resources.recoveryRequired
                && q.Key() in resources.paths && resources.paths[q.Key()].WellFormed()
                && P.InSlots(resources.paths[q.Key()].held, resources.device.slots)
                && r.value == resources.paths[q.Key()].Snapshot()
      ensures r.Ok? ==> Vouched(q)
      ensures Stands(q) ==> r.Ok?
    {
      hide P.PathOwner.Valid, P.InSlots;
      var snapshot := resources.Snapshot(q.Key());
      if snapshot.Error? {
        return Error;
      }
      var p := snapshot.value;
      if !Fits(p, q) {
        return Error;
      }
      if q.natRequired {
        var qualified := world.NatQualified();
        if qualified != Ok(true) {
          return Error;
        }
      }
      return Ok(p);
    }

    /** Drops dependencies of sessions that are gone and rechecks the rest; false if any check fails. */
    method RecheckDependencies() returns (current: bool)
      requires Valid()
      modifies this`dependencies
      ensures Valid()
      ensures dependencies.Keys <= old(dependencies).Keys && forall sid :: sid in dependencies ==> dependencies[sid] == old(dependencies)[sid]
      ensures current ==> forall sid :: sid in dependencies ==> sid in sessions.sessions && Vouched(dependencies[sid])
      ensures old(AllStand()) ==> current && AllStand()
      ensures old(dependencies.Keys <= sessions.sessions.Keys) ==> dependencies == old(dependencies)
    {
      hide *;
      Open();
      ghost var before := dependencies;
      current := ConfirmAll();
      FewerDependencies(sessions.sessions, before, dependencies, resources.paths, resources.device.slots);
      Close();
    }

    /** Asks the path owner about every dependency, and forgets those of no session. */
    method ConfirmAll() returns (current: bool)
      requires resources.Valid()
      modifies this`dependencies
      ensures dependencies.Keys <= old(dependencies).Keys && forall sid :: sid in dependencies ==> dependencies[sid] == old(dependencies)[sid]
      ensures forall sid :: sid in old(dependencies) && sid in sessions.sessions ==> sid in dependencies
      ensures current ==> forall sid :: sid in dependencies ==> sid in sessions.sessions && Vouched(dependencies[sid])
      ensures old(AllStand()) ==> current && AllStand()
      ensures old(dependencies.Keys <= sessions.sessions.Keys) ==> dependencies == old(dependencies)
    {
      hide *;
      StandFacts();
      ghost var before, standing := dependencies, AllStand();
      var todo := dependencies.Keys;
      current := true;
      while todo != {} && current
        invariant todo <= dependencies.Keys <= before.Keys && (forall sid :: sid in dependencies ==> dependencies[sid] == before[sid])
        invariant forall sid :: sid in before && sid in sessions.sessions ==> sid in dependencies
        invariant current ==> forall sid :: sid in dependencies && sid !in todo ==> sid in sessions.sessions && Vouched(dependencies[sid])
        invariant before.Keys <= sessions.sessions.Keys ==> dependencies == before
        invariant standing ==> current && forall sid :: sid in before && sid in sessions.sessions ==> Stands(before[sid])
        decreases todo
      {
        var sid := Pick(todo);
        if sid !in sessions.sessions {
          dependencies := dependencies - {sid};
        } else {
          var paths := DirectionalPaths(dependencies[sid]);
          current := paths.Ok?;
        }
        todo := todo - {sid};
      }
      StandFacts();
    }

    lemma StandFacts()
      ensures AllStand() <==> forall sid :: sid in dependencies && sid in sessions.sessions ==> Stands(dependencies[sid])
    {
    }

    /** Durably announces a drain, removes every session, and announces the end of it. */
    method Drain(announce: PolicyState) returns (r: Outcome)
      requires Valid() && !activated && !announce.phase.Active?
      modifies this`state, this`dependencies, this`admitted, sessions, sessions.journal`rows, sessions.journal`doubts, sessions.device`table, store`rows, store`doubts
      ensures r.Crashed? ==> Durable()
      ensures !r.Crashed? ==> Valid()
      ensures SM.Shrinks(old(sessions.journal.rows), old(sessions.device.table), sessions.journal.rows, sessions.device.table, sessions.device.foreign)
      ensures !r.Crashed? ==> forall sid :: sid in sessions.sessions ==> sid in old(sessions.sessions) && sessions.sessions[sid].SameIntent(old(sessions.sessions)[sid])
      ensures r.Done? ==> sessions.sessions == map[] && !sessions.recoveryRequired && state == announce.(phase := Blocked)
      ensures r.Done? ==> dependencies == map[]
      ensures !r.Done? ==> !state.phase.Active? || state == old(state)
      ensures (state.revision == old(state.revision) && state.digest == old(state.digest)) || (state.revision == announce.revision && state.digest == announce.digest)
      ensures dependencies == map[] || dependencies == old(dependencies)
      ensures store.healthy && sessions.journal.healthy && sessions.device.healthy && SM.Clear(old(sessions.sessions), old(sessions.device.table)) ==> r.Done?
      // an announcement that raises ends the drain before anything is withdrawn
      ensures Loses() ==> r.Raised? && state == old(state).(phase := Blocked) && dependencies == old(dependencies)
      ensures Loses() ==> sessions.sessions == old(sessions.sessions) && sessions.recoveryRequired == old(sessions.recoveryRequired)
      ensures Loses() ==> sessions.journal.rows == old(sessions.journal.rows) && sessions.device.table == old(sessions.device.table)
    {
      hide *;
      Open();
      ValidIsDurable(sessions, resources);
      SM.ShrinksRefl(sessions.journal.rows, sessions.device.table, sessions.device.foreign);
      SM.IntentRefl(sessions.sessions);
      r := Persist(announce);
      if r.Raised? {
        Close();
      }
      CloseDurable();
      if r.Done? {
        r := Empty();
      }
    }

    /** The rest of a drain, once it is announced: the sessions may belong to an earlier generation. */
    method Empty() returns (r: Outcome)
      requires Separate(sessions, resources, store) && sessions.Valid() && resources.Valid() && IdsUsable() && Durable()
      requires Anchors(sessions.sessions, dependencies, resources.paths, resources.device.slots) && !state.phase.Active?
      modifies this`state, this`dependencies, this`admitted, sessions, sessions.journal`rows, sessions.journal`doubts, sessions.device`table, store`rows, store`doubts
      ensures r.Crashed? ==> Durable()
      ensures !r.Crashed? ==> Valid()
      ensures SM.Shrinks(old(sessions.journal.rows), old(sessions.device.table), sessions.journal.rows, sessions.device.table, sessions.device.foreign)
      ensures !r.Crashed? ==> forall sid :: sid in sessions.sessions ==> sid in old(sessions.sessions) && sessions.sessions[sid].SameIntent(old(sessions.sessions)[sid])
      ensures r.Done? ==> sessions.sessions == map[] && !sessions.recoveryRequired && state == old(state).(phase := Blocked) && dependencies == map[]
      ensures !state.phase.Active? && state.revision == old(state.revision) && state.digest == old(state.digest)
      ensures dependencies == map[] || dependencies == old(dependencies)
      ensures store.healthy && sessions.journal.healthy && sessions.device.healthy && SM.Clear(old(sessions.sessions), old(sessions.device.table)) ==> r.Done?
    {
      hide *;
      OpenDurable();
      ghost var rows, flows, recs := sessions.journal.rows, sessions.device.table, sessions.sessions;
      r := sessions.Recover();
      NoDanglingShrinks(rows, flows, sessions.journal.rows, sessions.device.table, sessions.device.foreign, resources.db.rows, resources.device.slots);
      if r.Crashed? {
        CloseDurable();
        return;
      }
      AnchorsShrink(recs, sessions.sessions, dependencies, resources.paths, resources.device.slots);
      if r.Raised? {
        Close();
        return;
      }
      ValidIsDurable(sessions, resources);
      dependencies, admitted := map[], map[];
      NothingAnchored(sessions.sessions, resources.paths, resources.device.slots, admitted);
      r := Persist(state.(phase := Blocked));
      CloseDurable();
      if !r.Crashed? {
        Close();
      }
    }

    lemma OpenDurable()
      requires Durable()
      ensures sessions.Durable() && resources.Durable()
      ensures NoDangling(sessions.journal.rows, sessions.device.table, sessions.device.foreign, resources.db.rows, resources.device.slots)
    {
    }

    method Deactivate()
      requires Valid()
      modifies this`activated
      ensures Valid() && !activated
    {
      hide *;
      Open();
      activated := false;
      Close();
    }

    /** The generation no longer stands, whatever becomes of its paths. */
    predicate Outdated()
      reads this`state, this`activated, world
    {
      || !state.phase.Active? || !activated
      || (world.steady && (world.qualified != Ok(true) || world.bindings.Error? || state.attachment != Some(world.bindings.value)))
    }

    /** There is something to drain. */
    predicate Drainable()
      reads this, sessions
    {
      !state.phase.Blocked? || state.attachment.Some? || sessions.sessions != map[] || sessions.recoveryRequired
    }

    /** The checks that decide whether the generation still stands. */
    method Stale() returns (stale: bool)
      requires Valid()
      modifies this`dependencies
      ensures Valid()
      ensures !stale ==> state.phase.Active? && activated && forall sid :: sid in dependencies ==> sid in sessions.sessions && Vouched(dependencies[sid])
      ensures Outdated() ==> stale && dependencies == old(dependencies)
      ensures world.steady && !Outdated() && old(AllStand()) ==> !stale && AllStand()
      ensures dependencies.Keys <= old(dependencies).Keys && forall sid :: sid in dependencies ==> dependencies[sid] == old(dependencies)[sid]
      ensures old(dependencies.Keys <= sessions.sessions.Keys) ==> dependencies == old(dependencies)
    {
      hide SM.Manager.Valid, SM.Manager.Durable, P.PathOwner.Valid, P.PathOwner.Durable, FlowIds.IdJournal.Valid, NoDangling, Isolated, Anchors, IdsUsable, Vouched;
      stale := !state.phase.Active? || !activated;
      if !stale {
        var qualified := world.Qualified();
        var bindings := world.ReadBindings();
        stale := qualified != Ok(true) || bindings.Error? || state.attachment != Some(bindings.value);
        if !stale {
          var current := RecheckDependencies();
          stale := !current;
        }
      }
    }

    /** Fences and drains stale ownership.  It never activates anything and never changes the generation. */
    method Reconcile() returns (r: Outcome)
      requires Valid()
      modifies this`state, this`activated, this`dependencies, this`admitted, sessions, sessions.journal`rows, sessions.journal`doubts, sessions.device`table, store`rows, store`doubts
      ensures r.Crashed? ==> Durable()
      ensures !r.Crashed? ==> Valid()
      ensures SM.Shrinks(old(sessions.journal.rows), old(sessions.device.table), sessions.journal.rows, sessions.device.table, sessions.device.foreign)
      ensures !r.Crashed? ==> forall sid :: sid in sessions.sessions ==> sid in old(sessions.sessions) && sessions.sessions[sid].SameIntent(old(sessions.sessions)[sid])
      ensures state.revision == old(state.revision) && state.digest == old(state.digest)
      ensures r.Done? && !activated ==> sessions.sessions == map[] && !sessions.recoveryRequired && state.phase.Blocked? && state.attachment.None?
      ensures r.Done? && activated ==>
                && old(activated) && state == old(state) && state.phase.Active? && !sessions.recoveryRequired && !old(sessions.recoveryRequired)
                && sessions.sessions == old(sessions.sessions) && sessions.journal.rows == old(sessions.journal.rows)
                && sessions.device.table == old(sessions.device.table)
                && (forall sid :: sid in dependencies ==> sid in sessions.sessions && Vouched(dependencies[sid]))
      ensures !old(activated) || r.Raised? ==> !activated
      ensures dependencies.Keys <= old(dependencies).Keys && forall sid :: sid in dependencies ==> dependencies[sid] == old(dependencies)[sid]
      ensures old(Outdated()) && !r.Crashed? ==> !activated
      ensures old(Current()) ==> r.Done? && Current()
      ensures old(Current() && dependencies.Keys <= sessions.sessions.Keys) ==> unchanged(this, sessions, sessions.journal, sessions.device, store)
      ensures store.healthy && sessions.journal.healthy && sessions.device.healthy && SM.Clear(old(sessions.sessions), old(sessions.device.table)) ==> r.Done?
      // a drain that cannot be announced leaves the generation blocked and every session in place
      ensures old(Outdated() && Drainable()) && Loses() ==>
                && r.Raised? && state == old(state).(phase := Blocked) && dependencies == old(dependencies)
                && sessions.sessions == old(sessions.sessions) && sessions.recoveryRequired == old(sessions.recoveryRequired)
                && sessions.journal.rows == old(sessions.journal.rows) && sessions.device.table == old(sessions.device.table)
    {
      hide Valid, Durable, SM.Shrinks, SM.Session.SameIntent, SM.Clear, Vouched;
      SM.ShrinksRefl(sessions.journal.rows, sessions.device.table, sessions.device.foreign);
      SM.IntentRefl(sessions.sessions);
      var stale := Stale();
      if stale || sessions.recoveryRequired {
        Deactivate();
        if Drainable() {
          r := Drain(state.(phase := Draining, attachment := None));
          return;   // a failed announcement leaves the generation blocked and undrained
        }
      }
      return Done;
    }

    /** Starts a new policy generation: admission ends, then every session is withdrawn. */
    method Replace(expected: int, digest: string) returns (r: Outcome)
      requires Valid()
      modifies this`state, this`activated, this`dependencies, this`admitted, sessions, sessions.journal`rows, sessions.journal`doubts, sessions.device`table, store`rows, store`doubts
      ensures r.Crashed? ==> Durable()
      ensures !r.Crashed? ==> Valid()
      ensures !r.Crashed? ==> forall sid :: sid in sessions.sessions ==> sid in old(sessions.sessions)
      ensures !old(activated) ==> !activated
      ensures expected != old(state.revision) || !Sha256(digest) ==> r.Raised? && state == old(state) && sessions.sessions == old(sessions.sessions)
      ensures r.Done? ==> state == PolicyState(expected + 1, Blocked, Some(digest), None) && !activated
      ensures r.Done? ==> sessions.sessions == map[] && !sessions.recoveryRequired && dependencies == map[]
      ensures r.Raised? && expected == old(state.revision) && Sha256(digest) && Uint(expected + 1, U32 * U32) ==> !activated
      ensures expected == old(state.revision) && Sha256(digest) && Uint(expected + 1, U32 * U32) && store.healthy && sessions.journal.healthy ==>
                (sessions.device.healthy && SM.Clear(old(sessions.sessions), old(sessions.device.table)) ==> r.Done?)
    {
      hide Valid, Durable, SM.Shrinks, SM.Clear;
      if expected != state.revision || !Sha256(digest) || !Uint(expected + 1, U32 * U32) {
        return Raised;
      }
      Deactivate();
      r := Drain(PolicyState(expected + 1, Draining, Some(digest), None));
    }

    /** The generation is the applied one, blocked, on a qualified platform. */
    predicate Activable(revision: int, digest: string)
      reads this, sessions, world
    {
      && revision != 0 && Sha256(digest) && revision == state.revision && state.digest == Some(digest)
      && state.phase.Blocked? && !sessions.recoveryRequired && world.qualified == Ok(true) && ids != null && world.bindings.Ok?
    }

    /** Enables admission for the applied generation.  It does not drain: sessions that a failed
        reconciliation left behind stay recorded, so a caller must see the table empty first. */
    method Activate(revision: int, digest: string) returns (r: Outcome)
      requires Valid()
      modifies this`state, this`activated, store`rows, store`doubts
      ensures r.Crashed? ==> Durable()
      ensures !r.Crashed? ==> Valid()
      ensures r.Done? ==> activated && state.phase.Active? && !sessions.recoveryRequired && ids != null && revision != 0
      ensures r.Done? ==> old(state.phase).Blocked? && state.revision == old(state.revision) == revision && state.digest == old(state.digest) == Some(digest)
      ensures r.Raised? ==> activated == old(activated)
      ensures state.revision == old(state.revision) && state.digest == old(state.digest)
      ensures r.Done? && world.steady ==> world.bindings.Ok? && state.attachment == Some(world.bindings.value)
      // what was recorded is no condition: with working calls it is activated exactly when the generation may be
      ensures world.steady && store.healthy ==> (r.Done? <==> old(Activable(revision, digest)))
    {
      hide SM.Manager.Valid, SM.Manager.Durable, P.PathOwner.Valid, P.PathOwner.Durable, FlowIds.IdJournal.Valid, NoDangling, Isolated, Anchors, IdsUsable;
      ValidIsDurable(sessions, resources);
      if revision == 0 || !Sha256(digest) || revision != state.revision || state.digest != Some(digest) {
        return Raised;
      }
      if !state.phase.Blocked? || sessions.recoveryRequired {
        return Raised;
      }
      var qualified := world.Qualified();
      if qualified != Ok(true) || ids == null {
        return Raised;
      }
      var bindings := world.ReadBindings();
      if bindings.Error? {
        return Raised;
      }
      :- Persist(state.(phase := Active, attachment := Some(bindings.value)));
      activated := true;
      return Done;
    }

    /** Admission is enabled over attachments that have changed since, on a qualified platform whose flow table and session
        journal work, and nobody else has taken a recorded key. */
    ghost predicate Reattached(digest: string)
      reads this, sessions, sessions.journal, sessions.device, world
    {
      && AdmissionEnabled() && ids != null && state.revision != 0 && state.digest == Some(digest) && Sha256(digest)
      && world.steady && world.qualified == Ok(true) && world.bindings.Ok? && state.attachment != Some(world.bindings.value)
      && sessions.journal.healthy && sessions.device.healthy && SM.Clear(sessions.sessions, sessions.device.table)
    }

    /** What will befall the calls of the store. */
    method Announce(fate: Fate)
      requires Valid()
      modifies store`healthy, store`omen
      ensures Valid() && store.healthy == fate.Acknowledged? && store.omen == Some(fate)
    {
      hide *;
      Open();
      store.healthy, store.omen := fate.Acknowledged?, Some(fate);
      Close();
    }

    method Withdraw(sid: SM.SessionId) returns (r: Outcome)
      requires Valid() && sid in sessions.sessions
      modifies sessions, sessions.journal`rows, sessions.journal`doubts, sessions.device`table
      ensures r.Crashed? ==> Durable()
      ensures !r.Crashed? ==> Valid()
      ensures SM.Shrinks(old(sessions.journal.rows), old(sessions.device.table), sessions.journal.rows, sessions.device.table, sessions.device.foreign)
      ensures !r.Crashed? ==> forall other :: other in sessions.sessions ==>
                other in old(sessions.sessions) && sessions.sessions[other].SameIntent(old(sessions.sessions)[other])
      ensures r.Done? ==> sessions.sessions == old(sessions.sessions) - {sid} && sessions.recoveryRequired == old(sessions.recoveryRequired)
      ensures r.Raised? ==> sessions.recoveryRequired
      ensures sessions.journal.healthy && sessions.device.healthy && old(sessions.sessions)[sid].ClearIn(old(sessions.device.table)) ==> r.Done?
    {
      hide SM.Manager.Valid, SM.Manager.Durable, P.PathOwner.Valid, P.PathOwner.Durable, FlowIds.IdJournal.Valid, NoDangling, Isolated, Anchors, SM.Shrinks, IdsUsable,
        SM.Session.Owns, SM.Session.ClearIn, SM.Session.Removable, SM.AgreeExcept, SM.Session.SameIntent, SM.Free;
      ghost var recs, rows, flows := sessions.sessions, sessions.journal.rows, sessions.device.table;
      ClearIsRemovable(recs[sid], flows);
      r := sessions.Remove(sid);
      NoDanglingShrinks(rows, flows, sessions.journal.rows, sessions.device.table, sessions.device.foreign, resources.db.rows, resources.device.slots);
      if r.Crashed? {
        ValidIsDurable(sessions, resources);
        return;
      }
      AnchorsShrink(recs, sessions.sessions, dependencies, resources.paths, resources.device.slots);
      IsolatedShrinks(recs, sessions.sessions, state, admitted);
    }

    lemma ClearIsRemovable(s: SM.Session, flows: SM.Table)
      ensures s.ClearIn(flows) ==> s.Removable(flows)
    {
    }

    method Disown(sid: SM.SessionId)
      requires Valid() && sid !in sessions.sessions
      modifies this`dependencies
      ensures Valid()
      ensures sid !in dependencies
      ensures forall other :: other != sid ==>
                (other in dependencies <==> other in old(dependencies)) && (other in dependencies ==> dependencies[other] == old(dependencies)[other])
    {
      hide SM.Manager.Valid, SM.Manager.Durable, P.PathOwner.Valid, P.PathOwner.Durable, FlowIds.IdJournal.Valid, NoDangling, Isolated, Anchors, IdsUsable;
      ghost var deps := dependencies;
      dependencies := dependencies - {sid};
      FewerDependencies(sessions.sessions, deps, dependencies, resources.paths, resources.device.slots);
    }

    /** Withdraws one session and forgets its dependency. */
    method Revoke(sid: int) returns (r: Outcome)
      requires Valid()
      modifies this`dependencies, sessions, sessions.journal`rows, sessions.journal`doubts, sessions.device`table
      ensures r.Crashed? ==> Durable()
      ensures !r.Crashed? ==> Valid()
      ensures SM.Shrinks(old(sessions.journal.rows), old(sessions.device.table), sessions.journal.rows, sessions.device.table, sessions.device.foreign)
      ensures !r.Crashed? ==> forall other :: other in sessions.sessions ==>
                other in old(sessions.sessions) && sessions.sessions[other].SameIntent(old(sessions.sessions)[other])
      ensures r.Done? ==> Uint(sid, 0x8000_0000) && sessions.recoveryRequired == old(sessions.recoveryRequired)
      ensures r.Done? ==> forall other :: other in sessions.sessions <==> other != sid && other in old(sessions.sessions)
      ensures r.Done? ==> forall other :: other in sessions.sessions ==> sessions.sessions[other] == old(sessions.sessions)[other]
      ensures r.Done? ==> forall other :: other in dependencies <==> other != sid && other in old(dependencies)
      ensures r.Done? ==> forall other :: other in dependencies ==> dependencies[other] == old(dependencies)[other]
      ensures Uint(sid, 0x8000_0000) && sid !in old(sessions.sessions) ==>
                && r.Done? && sessions.sessions == old(sessions.sessions) && sessions.device.table == old(sessions.device.table)
      ensures Uint(sid, 0x8000_0000) && sessions.journal.healthy && sessions.device.healthy ==>
                ((sid in old(sessions.sessions) ==> old(sessions.sessions)[sid].ClearIn(old(sessions.device.table))) ==> r.Done?)
      ensures !r.Done? ==> dependencies == old(dependencies)
      ensures r.Raised? && Uint(sid, 0x8000_0000) ==> sessions.recoveryRequired
    {
      hide Valid, Durable, SM.Shrinks, SM.Session.SameIntent, SM.Session.ClearIn;
      SM.IntentRefl(sessions.sessions);
      SM.ShrinksRefl(sessions.journal.rows, sessions.device.table, sessions.device.foreign);
      if !Uint(sid, 0x8000_0000) {
        return Raised;
      }
      var id: SM.SessionId := sid;
      if id in sessions.sessions {
        :- Withdraw(id);
      }
      Disown(id);
      return Done;
    }

    lemma Open()
      requires Valid()
      ensures sessions.Valid() && resources.Valid() && IdsUsable() && Separate(sessions, resources, store)
      ensures NoDangling(sessions.journal.rows, sessions.device.table, sessions.device.foreign, resources.db.rows, resources.device.slots)
      ensures DrainedUnless(sessions.sessions, sessions.recoveryRequired, state.phase, () in store.doubts)
      ensures Anchors(sessions.sessions, dependencies, resources.paths, resources.device.slots)
      ensures !sessions.recoveryRequired ==> Isolated(sessions.sessions, state.revision, state.digest, admitted)
      ensures !sessions.recoveryRequired ==> forall sid :: sid in sessions.sessions ==> sid in dependencies
    {
    }

    lemma Close()
      requires sessions.Valid() && resources.Valid() && IdsUsable() && Separate(sessions, resources, store)
      requires NoDangling(sessions.journal.rows, sessions.device.table, sessions.device.foreign, resources.db.rows, resources.device.slots)
      requires DrainedUnless(sessions.sessions, sessions.recoveryRequired, state.phase, () in store.doubts)
      requires Anchors(sessions.sessions, dependencies, resources.paths, resources.device.slots)
      requires !sessions.recoveryRequired ==> Isolated(sessions.sessions, state.revision, state.digest, admitted)
      requires !sessions.recoveryRequired ==> forall sid :: sid in sessions.sessions ==> sid in dependencies
      ensures Valid()
    {
    }

    lemma CloseDurable()
      requires sessions.Durable() && resources.Durable() && IdsUsable()
      requires NoDangling(sessions.journal.rows, sessions.device.table, sessions.device.foreign, resources.db.rows, resources.device.slots)
      ensures Durable()
    {
    }

    predicate Ready(sid: SM.SessionId, s: SM.Session, zones: seq<int>)
      reads sessions, sessions.journal, sessions.device
    {
      Installable(sid, s.forward, s.backward) && SM.Acceptable([s.forward, s.backward], Some(zones))
    }

    lemma ReadyFacts(sid: SM.SessionId, s: SM.Session, zones: seq<int>)
      ensures Ready(sid, s, zones) ==>
                && sessions.journal.healthy && sessions.device.healthy && sessions.device.ready && sessions.device.natQualified
                && SM.Acceptable([s.forward, s.backward], Some(zones)) && sid !in sessions.sessions && SM.Free(s, sessions.device.table)
    {
    }

    /** The install itself, with nothing left dangling wherever it is cut. */
    method InstallHeld(sid: SM.SessionId, s: SM.Session, key: P.PathKey, zones: seq<int>) returns (r: Outcome)
      requires Valid() && !sessions.recoveryRequired
      requires AnchoredAt(sid, s, key, resources.paths, resources.device.slots) && s.stage.Installed?
      modifies sessions, sessions.journal`rows, sessions.journal`doubts, sessions.device`table
      ensures r.Crashed? ==> sessions.Durable()
      ensures !r.Crashed? ==> sessions.Valid()
      ensures NoDangling(sessions.journal.rows, sessions.device.table, sessions.device.foreign, resources.db.rows, resources.device.slots)
      ensures Grown(sid, s, old(sessions.sessions), sessions.sessions)
      ensures r.Done? ==> sessions.sessions == old(sessions.sessions)[sid := s] && !sessions.recoveryRequired && sid !in old(sessions.sessions)
      ensures r.Done? ==> InHardware(s, old(sessions.device.table), sessions.device.table)
      ensures r.Raised? && !sessions.recoveryRequired ==> sessions.sessions == old(sessions.sessions)
      ensures old(Ready(sid, s, zones)) ==> r.Done?
    {
      hide *;
      ReadyFacts(sid, s, zones);
      Open();
      ManagerFacts(sessions);
      OwnerFacts(resources);
      ghost var keyOf := map other | other in dependencies :: dependencies[other].Key();
      ghost var recs, rows, flows := sessions.sessions, sessions.journal.rows, sessions.device.table;
      AllAnchored(recs, dependencies, keyOf, resources.paths, resources.db.rows, resources.device.slots, resources.device.foreign);
      AnchoredInRows(sid, s, key, resources.paths, resources.db.rows, resources.device.slots, resources.device.foreign);
      r := sessions.InstallSession(sid, s, zones);
      InHardwareFacts(s, flows, sessions.device.table);
      InstallOutcome(sid, s, key, recs, rows, flows, sessions.sessions, sessions.journal.rows, sessions.device.table,
                     sessions.device.foreign, keyOf, resources.db.rows, resources.device.slots);
    }

    /** Installs the session of a request whose path is held, and records the dependency. */
    method InstallAnchored(sid: SM.SessionId, s: SM.Session, q: Request, zones: seq<int>) returns (r: Outcome)
      requires Valid() && !sessions.recoveryRequired && !resources.recoveryRequired
      requires s.revision == state.revision && state.phase.Active? && s.stage.Installed? && (sid !in sessions.sessions ==> sid !in dependencies)
      requires AnchoredAt(sid, s, q.Key(), resources.paths, resources.device.slots)
      modifies this`dependencies, this`admitted, sessions, sessions.journal`rows, sessions.journal`doubts, sessions.device`table
      ensures r.Crashed? ==> Durable()
      ensures !r.Crashed? ==> Valid()
      ensures r.Done? ==> sid !in old(sessions.sessions) && sessions.sessions == old(sessions.sessions)[sid := s]
      ensures r.Done? ==> InHardware(s, old(sessions.device.table), sessions.device.table)
      ensures r.Done? ==> dependencies == old(dependencies)[sid := q] && !sessions.recoveryRequired
      ensures forall other :: other in sessions.sessions ==> other == sid || other in old(sessions.sessions)
      ensures !r.Done? ==> dependencies == old(dependencies)
      ensures r.Raised? && !sessions.recoveryRequired ==> sessions.sessions == old(sessions.sessions)
      ensures old(Ready(sid, s, zones)) ==> r.Done?
    {
      hide *;
      Open();
      OwnerFacts(resources);
      ValidIsDurable(sessions, resources);
      ghost var recs, deps, tags := sessions.sessions, dependencies, admitted;
      r := InstallHeld(sid, s, q.Key(), zones);
      GrownKeys(sid, s, recs, sessions.sessions);
      if r.Done? {
        dependencies, admitted := dependencies[sid := q], admitted[sid := state.digest];
      }
      if r.Crashed? {
        CloseDurable();
      } else {
        AnchorsInstall(sid, s, q, r.Done?, recs, sessions.sessions, deps, dependencies, resources.paths, resources.device.slots);
        IsolatedInstall(sid, s, r.Done?, recs, sessions.sessions, state, tags, admitted);
        Close();
      }
    }

    /** The evaluator's decision is complete, current and affirmative. */
    predicate Decided(q: Request)
      reads this`state
    {
      && Sha256(q.policy) && Sha256(q.natDigest)
      && q.revision == state.revision && state.digest == Some(q.policy)
      && q.allow && 1 <= q.ruleLength <= 128 && !q.inspectionRequired && q.established
    }

    /** Both ports are up, and the two tuples make a pair of entries on the path, translated as decided. */
    predicate Resolvable(q: Request)
      reads world
    {
      && world.steady && world.bindings.Ok? && q.ingress != q.egress && q.ingress in world.bindings.value && q.egress in world.bindings.value
      && world.bindings.value[q.ingress] == world.bindings.value[q.egress] == Binding(true, true)
      && SessionPair4(q.sid, q.original, q.reply, [0, 0], [0, 0]).Ok? && SessionPair4(q.sid, q.original, q.reply, Zones(q.path), Hops(q.path)).Ok?
      && (Entries(q).0.Translates() || Entries(q).1.Translates()) == q.natRequired
    }

    /** The two entries of a request on its held path. */
    method Resolve(q: Request) returns (e: Option<(Entry, Entry)>)
      requires resources.Valid()
      ensures e.Some? ==>
                && !resources.recoveryRequired && q.Key() in resources.paths && P.InSlots(resources.paths[q.Key()].held, resources.device.slots)
                && |resources.paths[q.Key()].order| == 4
                && e.value.0.Hop() == Some(resources.paths[q.Key()].order[2].index)
                && e.value.1.Hop() == Some(resources.paths[q.Key()].order[3].index)
                && (e.value.0.Translates() <==> q.natRequired) && (e.value.1.Translates() <==> q.natRequired)
      ensures e.Some? ==> e.value == Entries(q) && Carried(q) && Attached(q)
      ensures e.Some? ==> Directions(q, e.value.0, e.value.1)
      ensures Resolvable(q) && Stands(q) ==> e.Some?
    {
      hide P.PathOwner.Valid, P.InSlots, SessionPair4, Stands, Directions;
      var bindings := world.ReadBindings();
      if bindings.Error? || q.ingress == q.egress || q.ingress !in bindings.value || q.egress !in bindings.value {
        return None;
      }
      var ports := [bindings.value[q.ingress], bindings.value[q.egress]];
      if exists i :: 0 <= i < 2 && !(ports[i].enabled && ports[i].link) {
        return None;
      }
      assert ports[0].enabled && ports[0].link && ports[1].enabled && ports[1].link;
      var pair := SessionPair4(q.sid, q.original, q.reply, [0, 0], [0, 0]);
      if pair.Error? {
        return None;
      }
      var found := DirectionalPaths(q);
      if found.Error? {
        return None;
      }
      var p := found.value;
      pair := SessionPair4(q.sid, q.original, q.reply, Zones(p), Hops(p));
      if pair.Error? {
        return None;
      }
      var (a, b) := PairEntries(q.sid, q.original, q.reply, Zones(p), Hops(p));
      if (a.Translates() || b.Translates()) != q.natRequired {
        return None;
      }
      EntriesAreDirections(q);
      return Some((a, b));
    }

    /** The allocator works and has two IDs left. */
    predicate Stocked()
      reads idJournal, ids
    {
      && ids != null && idJournal.healthy && !ids.failed && ids.Accepts(idJournal.counter) && idJournal.counter.value.next + 1 <= ids.last
      && 0 < ids.first && ids.last < U32
    }

    /** The manager can take two entries under keys that are free. */
    predicate Installable(sid: SM.SessionId, a: Entry, b: Entry)
      reads sessions, sessions.journal, sessions.device
    {
      && sessions.journal.healthy && sessions.device.healthy && sessions.device.ready && sessions.device.natQualified
      && sid !in sessions.sessions && a.key != b.key && a.key !in sessions.device.table && b.key !in sessions.device.table
    }

    /** Nothing stands in the way of this request. */
    ghost predicate Admissible(q: Request)
      reads this, sessions, sessions.journal, sessions.device, resources, resources.device, resources.resolver, idJournal, ids, world
    {
      && Current() && Uint(q.revision, U32 * U32) && Uint(q.sid, 0x8000_0000) && Decided(q)
      && Stands(q) && Resolvable(q) && Stocked() && Installable(q.sid, Entries(q).0, Entries(q).1)
    }

    /** Two fresh flow IDs. */
    method Reserve() returns (r: Outcome, a: int, b: int)
      requires Valid() && ids != null
      modifies ids, idJournal
      ensures Valid() && Durable()
      ensures r.Done? ==> idJournal.issued == old(idJournal.issued) + [a, b] && ids.first <= a && b == a + 1 <= ids.last
      ensures old(Stocked()) ==> r.Done?
      ensures !r.Done? ==> idJournal.issued == old(idJournal.issued)
    {
      Open();
      ValidIsDurable(sessions, resources);
      hide SM.Manager.Valid, SM.Manager.Durable, P.PathOwner.Valid, P.PathOwner.Durable, FlowIds.IdJournal.Valid, NoDangling, Valid, Durable,
        Anchors, Isolated;
      r, a, b := ids.ReservePair();
      CloseDurable();
      Close();
    }

    lemma AdmissibleFacts(q: Request)
      ensures Admissible(q) ==> Uint(q.sid, 0x8000_0000) && ids != null && Stands(q) && Resolvable(q) && Stocked() && Installable(q.sid, Entries(q).0, Entries(q).1)
      ensures Stocked() ==> ids != null && 0 < ids.first && ids.last < U32
    {
    }

    lemma ReadyToInstall(sid: SM.SessionId, s: SM.Session, q: Request, first: int, second: int)
      requires s.forward == Entries(q).0.(flowId := first) && s.backward == Entries(q).1.(flowId := second) && first != second
      ensures Resolvable(q) && Installable(sid, Entries(q).0, Entries(q).1) && 0 < first < U32 && 0 < second < U32 ==>
                Ready(sid, s, [Entries(q).0.key.zone, Entries(q).1.key.zone])
    {
      hide SessionPair4, PairEntries, Entry.Valid, Entry.Encode, Key.Reverses, Entry.Output;
      if Resolvable(q) && 0 < first < U32 && 0 < second < U32 {
        LabelledPair(q.sid, q.original, q.reply, Zones(q.path), Hops(q.path), (first, second));
        PairIsEncoding(q.sid, q.original, q.reply, Zones(q.path), Hops(q.path));
        Relabelled(Entries(q).0, first);
        Relabelled(Entries(q).1, second);
      }
    }

    /** The part of a paired admission between its two reconciliations. */
    method AdmitDecided(q: Request, sid: SM.SessionId, revision: SM.Revision) returns (r: Outcome)
      requires Valid() && !sessions.recoveryRequired && state.phase.Active? && q.sid == sid && q.revision == revision == state.revision
      requires sid !in sessions.sessions ==> sid !in dependencies
      modifies this`dependencies, this`admitted, sessions, sessions.journal`rows, sessions.journal`doubts, sessions.device`table, ids, idJournal
      ensures r.Crashed? ==> Durable()
      ensures !r.Crashed? ==> Valid()
      ensures r.Done? ==> sid in sessions.sessions && dependencies == old(dependencies)[sid := q] && !sessions.recoveryRequired
      ensures r.Done? ==> Placed(q, sid, old(sessions.sessions), sessions.sessions, old(sessions.device.table), sessions.device.table,
                                 old(idJournal.issued), idJournal.issued)
      ensures r.Done? ==> Carried(q) && Attached(q)
      ensures !Carried(q) || !Attached(q) ==>
                && r.Raised? && sessions.sessions == old(sessions.sessions) && sessions.journal.rows == old(sessions.journal.rows)
                && sessions.device.table == old(sessions.device.table) && sessions.recoveryRequired == old(sessions.recoveryRequired)
      ensures forall other :: other in sessions.sessions ==> other == sid || other in old(sessions.sessions)
      ensures !r.Done? ==> dependencies == old(dependencies)
      ensures old(Admissible(q)) ==> r.Done?
    {
      hide *;
      AdmissibleFacts(q);
      Open();
      var e := Resolve(q);
      if e.None? || ids == null {
        return Raised;
      }
      var first, second;
      ghost var issued := idJournal.issued;
      r, first, second := Reserve();
      if !r.Done? {
        return;
      }
      var s := SM.Session(e.value.0.(flowId := first), e.value.1.(flowId := second), revision, SM.Installed);
      ResolvedIsAnchored(sid, s, e.value, q, resources.paths, resources.device.slots);
      ReadyToInstall(sid, s, q, first, second);
      ghost var recs, flows := sessions.sessions, sessions.device.table;
      r := InstallAnchored(sid, s, q, [e.value.0.key.zone, e.value.1.key.zone]);
      if r.Done? {
        PlacedByInstall(q, sid, e.value.0, e.value.1, s, recs, sessions.sessions, flows, sessions.device.table, issued);
      }
    }

    /** Admits a decided session on its held path, both directions or neither. */
    method AdmitPair(q: Request) returns (r: Outcome)
      requires Valid()
      modifies this`state, this`activated, this`dependencies, this`admitted, sessions, sessions.journal`rows, sessions.journal`doubts, sessions.device`table,
               store`rows, store`doubts, ids, idJournal
      ensures r.Crashed? ==> Durable()
      ensures state.revision == old(state.revision) && state.digest == old(state.digest)
      ensures !r.Crashed? ==> Valid()
      ensures !old(AdmissionEnabled()) ==> r.Raised? && sessions.sessions == old(sessions.sessions)
      ensures r.Done? ==> AdmissionEnabled() && q.revision == state.revision && state.digest == Some(q.policy)
      ensures r.Done? ==> Uint(q.sid, 0x8000_0000) && q.sid in sessions.sessions && q.sid in dependencies && dependencies[q.sid] == q
      // only what was allowed, on ports that are up and a path that leads there and back, and exactly that
      ensures r.Done? ==> q.allow && !q.inspectionRequired && q.established && 1 <= q.ruleLength <= 128 && Sha256(q.policy) && Sha256(q.natDigest)
      ensures r.Done? ==> Carried(q) && Attached(q) && forall sid :: sid in dependencies ==> sid in sessions.sessions && Vouched(dependencies[sid])
      ensures r.Done? ==> Placed(q, q.sid, old(sessions.sessions), sessions.sessions, old(sessions.device.table), sessions.device.table,
                                 old(idJournal.issued), idJournal.issued)
      // anything else is refused: nothing is recorded or written for it
      ensures !Permitted(q) || !Carried(q) || !Attached(q) ==>
                && !r.Done? && (old(Current()) ==> r.Raised?)
                && SM.Shrinks(old(sessions.journal.rows), old(sessions.device.table), sessions.journal.rows, sessions.device.table, sessions.device.foreign)
                && (r.Raised? ==> forall other :: other in sessions.sessions ==> other in old(sessions.sessions))
                && (old(Current()) ==> sessions.sessions == old(sessions.sessions) && sessions.device.table == old(sessions.device.table))
      ensures !r.Crashed? ==> forall other :: other in sessions.sessions ==> other == q.sid || other in old(sessions.sessions)
      ensures !old(activated) ==> !activated
      ensures !r.Crashed? ==> forall other :: other in dependencies ==> other == q.sid || (other in old(dependencies) && dependencies[other] == old(dependencies)[other])
      // it is admitted if nothing stands in the way
      ensures old(Admissible(q)) ==> r.Done? && Current()
    {
      hide Valid, Durable, SM.Shrinks, SM.Session.SameIntent, SM.Clear, Stands, Resolvable, Stocked, Sha256, Entries, Outdated, Carried, Attached, Placed, Vouched;
      SM.ShrinksRefl(sessions.journal.rows, sessions.device.table, sessions.device.foreign);
      if !Uint(q.revision, U32 * U32) || !Uint(q.sid, 0x8000_0000) || !AdmissionEnabled() {
        return Raised;
      }
      var sid: SM.SessionId, revision: SM.Revision := q.sid, q.revision;
      r := Reconcile();
      if r.Done? {
        r := AdmitNow(q, sid, revision);
      }
    }

    /** An admission between two reconciliations. */
    method AdmitNow(q: Request, sid: SM.SessionId, revision: SM.Revision) returns (r: Outcome)
      requires Valid() && q.sid == sid && q.revision == revision && (activated ==> forall other :: other in dependencies ==> other in sessions.sessions)
      modifies this`state, this`activated, this`dependencies, this`admitted, sessions, sessions.journal`rows, sessions.journal`doubts, sessions.device`table,
               store`rows, store`doubts, ids, idJournal
      ensures r.Crashed? ==> Durable()
      ensures state.revision == old(state.revision) && state.digest == old(state.digest)
      ensures !r.Crashed? ==> Valid()
      ensures r.Done? ==> AdmissionEnabled() && q.revision == state.revision && state.digest == Some(q.policy)
      ensures r.Done? ==> sid in sessions.sessions && sid in dependencies && dependencies[sid] == q
      ensures r.Done? ==> Placed(q, sid, old(sessions.sessions), sessions.sessions, old(sessions.device.table), sessions.device.table,
                                 old(idJournal.issued), idJournal.issued)
      ensures r.Done? ==> Permitted(q) && Carried(q) && Attached(q) && forall other :: other in dependencies ==> other in sessions.sessions && Vouched(dependencies[other])
      ensures !Permitted(q) || !Carried(q) || !Attached(q) ==>
                && r.Raised? && sessions.sessions == old(sessions.sessions) && sessions.journal.rows == old(sessions.journal.rows)
                && sessions.device.table == old(sessions.device.table)
      ensures !r.Crashed? ==> forall other :: other in sessions.sessions ==> other == sid || other in old(sessions.sessions)
      ensures !old(activated) ==> !activated
      ensures !r.Crashed? ==> forall other :: other in dependencies ==> other == sid || (other in old(dependencies) && dependencies[other] == old(dependencies)[other])
      ensures old(Admissible(q)) ==> r.Done? && Current()
    {
      hide Valid, Durable, SM.Shrinks, SM.Session.SameIntent, SM.Clear, Stands, Resolvable, Stocked, Installable, Sha256, Entries, Outdated, Carried, Attached,
        Placed, Vouched;
      if !AdmissionEnabled() || !Decided(q) {
        return Raised;
      }
      r := AdmitDecided(q, sid, revision);
      if r.Done? {
        r := Recheck();
      }
    }

    /** Hardware calls may take time: an admission is acknowledged only if nothing changed while the pair was programmed. */
    method Recheck() returns (r: Outcome)
      requires Valid()
      modifies this`state, this`activated, this`dependencies, this`admitted, sessions, sessions.journal`rows, sessions.journal`doubts, sessions.device`table, store`rows, store`doubts
      ensures r.Crashed? ==> Durable()
      ensures !r.Crashed? ==> Valid()
      ensures r.Done? ==> sessions.device.table == old(sessions.device.table) && forall sid :: sid in dependencies ==> sid in sessions.sessions && Vouched(dependencies[sid])
      ensures r.Done? ==> AdmissionEnabled() && sessions.sessions == old(sessions.sessions) && forall sid :: sid in sessions.sessions ==> sid in dependencies
      ensures !r.Crashed? ==> forall sid :: sid in sessions.sessions ==> sid in old(sessions.sessions)
      ensures state.revision == old(state.revision) && state.digest == old(state.digest)
      ensures forall sid :: sid in dependencies ==> sid in old(dependencies) && dependencies[sid] == old(dependencies)[sid]
      ensures !old(activated) ==> !activated
      ensures old(Current()) ==> r.Done? && Current()
    {
      hide Valid, Durable, SM.Shrinks, SM.Session.SameIntent, SM.Clear, AllStand, Vouched;
      r := Reconcile();
      if r.Done? {
        Open();
        if !AdmissionEnabled() {
          r := Raised;
        }
      }
    }
  }

  /** A session of exactly this request is recorded and in hardware, under two flow IDs that have just been issued: each
      direction takes the tuple that conntrack knows it by, in its own zone, to its own next hop, and comes out as the
      other direction's peer expects it. */
  ghost predicate Placed(q: Request, sid: SM.SessionId, sessions: SM.Records, sessions': SM.Records, flows: SM.Table, flows': SM.Table,
                         issued: seq<int>, issued': seq<int>)
  {
    && sid !in sessions && sid in sessions'
    && var s := sessions'[sid];
    && sessions' == sessions[sid := s] && s.stage.Installed? && s.revision == q.revision
    && issued' == issued + [s.forward.flowId, s.backward.flowId]
    && flows' == flows[s.forward.key := Flow(s.forward)][s.backward.key := Flow(s.backward)]
    && Directions(q, s.forward, s.backward)
  }

  ghost predicate Directions(q: Request, a: Entry, b: Entry) {
    && a.key == Key(q.original.protocol, q.path.forward.zone, q.original.sport, q.original.dport, q.original.source, q.original.destination)
    && b.key == Key(q.reply.protocol, q.path.backward.zone, q.reply.sport, q.reply.dport, q.reply.source, q.reply.destination)
    && a.Hop() == Some(q.path.hop0) && b.Hop() == Some(q.path.hop1)
    && a.Output().Tuple() == Translation(q.reply.destination, q.reply.source, q.reply.dport, q.reply.sport)
    && b.Output().Tuple() == Translation(q.original.destination, q.original.source, q.original.dport, q.original.sport)
    && (a.Translates() <==> q.natRequired) && (b.Translates() <==> q.natRequired)
  }

  lemma EntriesAreDirections(q: Request)
    requires SessionPair4(q.sid, q.original, q.reply, Zones(q.path), Hops(q.path)).Ok?
    requires (Entries(q).0.Translates() || Entries(q).1.Translates()) == q.natRequired
    ensures Directions(q, Entries(q).0, Entries(q).1)
  {
    hide SessionPair4, Entry.Valid, Entry.Encode, Key.Encode, Key.Valid;
    PairIsEncoding(q.sid, q.original, q.reply, Zones(q.path), Hops(q.path));
    PairFacts(q.sid, q.original, q.reply, Zones(q.path), Hops(q.path));
  }

  lemma PlacedByInstall(q: Request, sid: SM.SessionId, a: Entry, b: Entry, s: SM.Session,
                        sessions: SM.Records, sessions': SM.Records, flows: SM.Table, flows': SM.Table, issued: seq<int>)
    requires Directions(q, a, b) && s.forward == a.(flowId := s.forward.flowId) && s.backward == b.(flowId := s.backward.flowId)
    requires s.revision == q.revision && s.stage.Installed?
    requires sid !in sessions && sessions' == sessions[sid := s] && InHardware(s, flows, flows')
    ensures Placed(q, sid, sessions, sessions', flows, flows', issued, issued + [s.forward.flowId, s.backward.flowId])
  {
  }

  lemma ResolvedIsAnchored(sid: SM.SessionId, s: SM.Session, e: (Entry, Entry), q: Request, paths: P.PathRows, slots: P.SlotMap)
    requires q.Key() in paths && |paths[q.Key()].order| == 4 && P.InSlots(paths[q.Key()].held, slots)
    requires e.0.Hop() == Some(paths[q.Key()].order[2].index) && e.1.Hop() == Some(paths[q.Key()].order[3].index)
    requires s.forward == e.0.(flowId := s.forward.flowId) && s.backward == e.1.(flowId := s.backward.flowId)
    requires q.sid == sid && q.revision == s.revision
    ensures AnchoredAt(sid, s, q.Key(), paths, slots)
  {
  }

  /** Both entries are in the table, and nothing else has changed there. */
  ghost predicate InHardware(s: SM.Session, flows: SM.Table, flows': SM.Table) {
    flows' == flows[s.forward.key := Flow(s.forward)][s.backward.key := Flow(s.backward)]
  }

  lemma InHardwareFacts(s: SM.Session, flows: SM.Table, flows': SM.Table)
    ensures InHardware(s, flows, flows') <==> flows' == flows[s.forward.key := Flow(s.forward)][s.backward.key := Flow(s.backward)]
  {
  }

  lemma ManagerFacts(m: SM.Manager)
    requires m.Valid()
    ensures SM.Covers(m.sessions, m.device.table, m.device.foreign)
    ensures !m.recoveryRequired ==> SM.Settled(m.sessions, m.journal.rows, m.device.table, m.device.foreign)
  {
  }

  lemma OwnerFacts(o: P.PathOwner)
    requires o.Valid()
    ensures P.Backed(o.paths, o.db.rows, o.device.slots) && P.Commissioned(o.paths, o.device.foreign)
    ensures !o.recoveryRequired ==> P.Disjoint(o.paths)
  {
  }

  lemma AllAnchored(sessions: SM.Records, dependencies: map<SM.SessionId, Request>, keyOf: map<SM.SessionId, P.PathKey>,
                    paths: P.PathRows, pathRows: P.PathRows, slots: P.SlotMap, foreign: P.SlotMap)
    requires Anchors(sessions, dependencies, paths, slots) && forall sid :: sid in sessions ==> sid in dependencies
    requires keyOf.Keys == dependencies.Keys && forall sid :: sid in keyOf ==> keyOf[sid] == dependencies[sid].Key()
    requires P.Backed(paths, pathRows, slots) && P.Commissioned(paths, foreign)
    ensures forall sid :: sid in sessions ==> sid in keyOf && AnchoredAt(sid, sessions[sid], keyOf[sid], pathRows, slots)
  {
    hide P.Backed, P.Commissioned, P.InSlots, P.Disjoint, AnchoredAt;
    forall sid | sid in sessions
      ensures sid in keyOf && AnchoredAt(sid, sessions[sid], keyOf[sid], pathRows, slots)
    {
      AnchoredInRows(sid, sessions[sid], keyOf[sid], paths, pathRows, slots, foreign);
    }
  }

  /** Memory gained at most this one session. */
  ghost predicate Grown(sid: SM.SessionId, s: SM.Session, sessions: SM.Records, sessions': SM.Records) {
    forall other :: other in sessions' ==>
      if other == sid && sid !in sessions then sessions'[other].SameIntent(s) else other in sessions && sessions'[other] == sessions[other]
  }

  lemma GrownKeys(sid: SM.SessionId, s: SM.Session, sessions: SM.Records, sessions': SM.Records)
    requires Grown(sid, s, sessions, sessions')
    ensures forall other :: other in sessions' ==> other == sid || other in sessions
  {
  }

  lemma InstallOutcome(sid: SM.SessionId, s: SM.Session, key: P.PathKey, sessions: SM.Records, rows: SM.Records, flows: SM.Table,
                       sessions': SM.Records, rows': SM.Records, flows': SM.Table, foreign: SM.Table,
                       keyOf: map<SM.SessionId, P.PathKey>, pathRows: P.PathRows, slots: P.SlotMap)
    requires SM.Covers(sessions, flows, foreign) && SM.Settled(sessions, rows, flows, foreign)
    requires SM.InstallEffect(sid, s, sessions, rows, flows, sessions', rows', flows')
    requires forall other :: other in sessions ==> other in keyOf && AnchoredAt(other, sessions[other], keyOf[other], pathRows, slots)
    requires AnchoredAt(sid, s, key, pathRows, slots)
    requires NoDangling(rows, flows, foreign, pathRows, slots)
    ensures NoDangling(rows', flows', foreign, pathRows, slots) && Grown(sid, s, sessions, sessions')
  {
    hide SM.Covers, SM.Settled, AnchoredAt, NoDangling;
    if !(sessions' == sessions && rows' == rows && flows' == flows) {
      InstallNoDangling(sid, s, key, sessions, rows, flows, sessions', rows', flows', foreign, keyOf, pathRows, slots);
    }
  }

  lemma AnchorsInstall(sid: SM.SessionId, s: SM.Session, q: Request, done: bool, sessions: SM.Records, sessions': SM.Records,
                       dependencies: map<SM.SessionId, Request>, dependencies': map<SM.SessionId, Request>, paths: P.PathRows, slots: P.SlotMap)
    requires Anchors(sessions, dependencies, paths, slots) && P.Disjoint(paths) && Grown(sid, s, sessions, sessions')
    requires sid !in sessions ==> sid !in dependencies
    requires done ==> sid !in sessions
    requires AnchoredAt(sid, s, q.Key(), paths, slots)
    requires dependencies' == if done then dependencies[sid := q] else dependencies
    ensures Anchors(sessions', dependencies', paths, slots)
    ensures (forall other :: other in sessions ==> other in dependencies) && (sid in sessions' ==> done || sid in sessions)
            ==> forall other :: other in sessions' ==> other in dependencies'
  {
  }

  lemma IsolatedInstall(sid: SM.SessionId, s: SM.Session, done: bool, sessions: SM.Records, sessions': SM.Records, state: PolicyState,
                        admitted: map<SM.SessionId, Option<string>>, admitted': map<SM.SessionId, Option<string>>)
    requires Isolated(sessions, state.revision, state.digest, admitted) && Grown(sid, s, sessions, sessions') && s.revision == state.revision
    requires done ==> sid !in sessions
    requires admitted' == if done then admitted[sid := state.digest] else admitted
    ensures done || sessions' == sessions ==> Isolated(sessions', state.revision, state.digest, admitted')
  {
  }

  lemma IsolatedShrinks(sessions: SM.Records, fewer: SM.Records, state: PolicyState, admitted: map<SM.SessionId, Option<string>>)
    requires forall sid :: sid in fewer ==> sid in sessions && fewer[sid].SameIntent(sessions[sid])
    ensures Isolated(sessions, state.revision, state.digest, admitted) ==> Isolated(fewer, state.revision, state.digest, admitted)
  {
  }

  lemma AnchorsShrink(sessions: SM.Records, fewer: SM.Records, dependencies: map<SM.SessionId, Request>, paths: P.PathRows, slots: P.SlotMap)
    requires Anchors(sessions, dependencies, paths, slots)
    requires forall sid :: sid in fewer ==> sid in sessions && fewer[sid].SameIntent(sessions[sid])
    ensures Anchors(fewer, dependencies, paths, slots)
  {
  }

  lemma NothingAnchored(sessions: SM.Records, paths: P.PathRows, slots: P.SlotMap, admitted: map<SM.SessionId, Option<string>>)
    requires sessions == map[]
    ensures Anchors(sessions, map[], paths, slots) && forall revision, digest :: Isolated(sessions, revision, digest, admitted)
  {
  }

  /** What holds at the start of a process, whatever the journal recorded. */
  lemma NoDependencies(sessions: SM.Records, fenced: bool, paths: P.PathRows, slots: P.SlotMap, state: PolicyState, admitted: map<SM.SessionId, Option<string>>)
    requires fenced <==> sessions != map[]
    ensures Anchors(sessions, map[], paths, slots) && DrainedUnless(sessions, fenced, state.phase, false)
    ensures !fenced ==> sessions == map[] && Isolated(sessions, state.revision, state.digest, admitted)
  {
  }

  lemma FewerDependencies(sessions: SM.Records, dependencies: map<SM.SessionId, Request>, fewer: map<SM.SessionId, Request>, paths: P.PathRows, slots: P.SlotMap)
    requires Anchors(sessions, dependencies, paths, slots)
    requires fewer.Keys <= dependencies.Keys && forall sid :: sid in fewer ==> fewer[sid] == dependencies[sid]
    ensures Anchors(sessions, fewer, paths, slots)
  {
  }

  // ------------------------------------------------- what an activation adopts

  /** Activation asks nothing about the sessions that are recorded, and adopts them all.  There are any only if the last
      save of the generation was not acknowledged. */
  lemma AdoptsOnlyInDoubt(o: PolicyOwner, revision: int, digest: string)
    requires o.Valid() && o.Activable(revision, digest)
    ensures o.sessions.sessions != map[] ==> () in o.store.doubts
  {
    hide SM.Manager.Valid, P.PathOwner.Valid, Anchors, Isolated, NoDangling;
  }

  lemma NothingLeft(m: SM.Manager)
    requires m.Valid() && m.sessions == map[]
    ensures m.device.table == m.device.foreign
  {
    hide SM.Consistent, SM.Settled;
    ManagerFacts(m);
    assert forall k :: k in m.device.table ==> k in m.device.foreign;
  }

  /** The attachments change under an admitting generation; it is reconciled and then activated again.  The sessions of the
      old attachments are gone, unless the save that announces the drain raised, written or not: then every one of them is
      still in the table, and admission is enabled over them as if they belonged to the new attachments. */
  method Reactivate(o: PolicyOwner, digest: string, announced: Fate) returns (reconciled: Outcome, activated: Outcome)
    requires o.Valid() && o.Reattached(digest) && (announced.Acknowledged? || announced.Ending().Raised?)
    modifies o`state, o`activated, o`dependencies, o`admitted, o.sessions, o.sessions.journal`rows, o.sessions.journal`doubts, o.sessions.device`table,
             o.store`rows, o.store`doubts, o.store`healthy, o.store`omen
    ensures o.Valid() && activated.Done? && o.AdmissionEnabled() && o.state.attachment == Some(o.world.bindings.value)
    ensures reconciled.Done? <==> announced.Acknowledged?
    ensures o.sessions.sessions == if announced.Acknowledged? then map[] else old(o.sessions.sessions)
    ensures o.sessions.device.table == if announced.Acknowledged? then o.sessions.device.foreign else old(o.sessions.device.table)
  {
    hide PolicyOwner.Valid, PolicyOwner.Durable, SM.Manager.Valid, SM.Clear, SM.Shrinks, SM.Session.SameIntent, Sha256, PolicyOwner.Current, NoDangling, Anchors,
      Isolated, PolicyOwner.IdsUsable, P.PathOwner.Valid, DrainedUnless;
    o.Announce(announced);
    reconciled := o.Reconcile();
    o.Announce(Acknowledged);
    activated := o.Activate(o.state.revision, digest);
    o.Open();
    if announced.Acknowledged? {
      NothingLeft(o.sessions);
    }
  }
}
