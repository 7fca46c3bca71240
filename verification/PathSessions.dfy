/** Session lifetime coupled to path resources: a path's slots are reclaimed only after its session is gone. */
module PathSessions {
  import opened Outcomes
  import opened FlowCodec
  import opened Policy
  import SM = SessionManager
  import P = Paths
  import FlowIds

  /** Clearing another record's slots does not touch an anchored path. */
  lemma AnchorSurvivesReclaim(sid: SM.SessionId, s: SM.Session, at: P.PathKey, key: P.PathKey, rec: P.PathRecord,
                              paths: P.PathRows, recs: P.PathRows, slots: P.SlotMap, recs': P.PathRows, slots': P.SlotMap)
    requires AnchoredAt(sid, s, at, paths, slots) && P.Disjoint(paths) && at != key
    requires key in paths && rec == paths[key]
    requires at in recs && recs[at].held == paths[at].held && recs[at].order == paths[at].order
    requires P.AgreeExcept(recs, recs', key)
    requires forall x :: x in slots' ==> x in slots && slots'[x] == slots[x]
    requires forall x :: x in slots && x !in slots' ==> x in rec.held
    ensures AnchoredAt(sid, s, at, recs', slots')
  {
  }

  /** What is left when a path has been drained: every session is anchored elsewhere. */
  ghost predicate AnchoredElsewhere(key: P.PathKey, sessions: SM.Records, dependencies: map<SM.SessionId, Request>, paths: P.PathRows, slots: P.SlotMap) {
    && Anchors(sessions, dependencies, paths, slots)
    && (forall sid :: sid in sessions ==> sid in dependencies)
    && (forall sid :: sid in dependencies ==> dependencies[sid].Key() != key)
  }

  /** A reclaim after a drain keeps every remaining anchor, in memory and in the database, wherever it is cut. */
  lemma ReclaimAfterDrain(key: P.PathKey, rec: P.PathRecord, sessions: SM.Records, rows: SM.Records, flows: SM.Table, foreign: SM.Table,
                          dependencies: map<SM.SessionId, Request>, paths: P.PathRows, pathRows: P.PathRows, slots: P.SlotMap, slotForeign: P.SlotMap,
                          paths': P.PathRows, pathRows': P.PathRows, slots': P.SlotMap)
    requires AnchoredElsewhere(key, sessions, dependencies, paths, slots)
    requires SM.Covers(sessions, flows, foreign) && SM.Settled(sessions, rows, flows, foreign)
    requires P.Backed(paths, pathRows, slots) && P.Commissioned(paths, slotForeign)
    requires P.Reclaiming(key, rec, paths, pathRows, slots, paths', pathRows', slots')
    ensures Anchors(sessions, dependencies, paths', slots')
    ensures NoDangling(rows, flows, foreign, pathRows', slots')
  {
    var keyOf := map sid | sid in dependencies :: dependencies[sid].Key();
    forall sid | sid in sessions
      ensures AnchoredAt(sid, sessions[sid], keyOf[sid], pathRows', slots') && AnchoredAt(sid, sessions[sid], keyOf[sid], paths', slots')
    {
      AnchorKept(sid, sessions[sid], keyOf[sid], key, rec, dependencies, paths, pathRows, slots, slotForeign, paths', pathRows', slots');
      hide P.Backed, P.Commissioned, P.Reclaiming, AnchoredAt;
    }
    DisjointFewer(key, rec, paths, pathRows, slots, paths', pathRows', slots');
    hide P.Backed, P.Commissioned, P.Reclaiming, AnchoredAt, P.Disjoint, SM.Covers;
    SettledIntent(sessions, rows, flows, foreign);
    hide SM.Settled;
    AnchoredSessions(sessions, rows, flows, foreign, keyOf, pathRows', slots');
  }

  lemma SettledIntent(sessions: SM.Records, rows: SM.Records, flows: SM.Table, foreign: SM.Table)
    requires SM.Settled(sessions, rows, flows, foreign)
    ensures forall sid :: sid in sessions ==> sid in rows && rows[sid].SameIntent(sessions[sid])
  {
  }

  lemma AnchorKept(sid: SM.SessionId, s: SM.Session, at: P.PathKey, key: P.PathKey, rec: P.PathRecord,
                   dependencies: map<SM.SessionId, Request>, paths: P.PathRows, pathRows: P.PathRows, slots: P.SlotMap, slotForeign: P.SlotMap,
                   paths': P.PathRows, pathRows': P.PathRows, slots': P.SlotMap)
    requires AnchoredAt(sid, s, at, paths, slots) && P.Disjoint(paths) && at != key
    requires P.Backed(paths, pathRows, slots) && P.Commissioned(paths, slotForeign)
    requires P.Reclaiming(key, rec, paths, pathRows, slots, paths', pathRows', slots')
    ensures AnchoredAt(sid, s, at, pathRows', slots') && AnchoredAt(sid, s, at, paths', slots')
  {
    AnchoredInRows(sid, s, at, paths, pathRows, slots, slotForeign);
    assert pathRows[at].SameSlots(paths[at]);
    hide P.Disjoint, P.InSlots, P.Commissioned, P.HopsSupported, P.Unused, P.Backed;
    AnchorSurvivesReclaim(sid, s, at, key, rec, paths, paths, slots, paths', slots');
    AnchorSurvivesReclaim(sid, s, at, key, rec, paths, pathRows, slots, pathRows', slots');
  }

  lemma DisjointFewer(key: P.PathKey, rec: P.PathRecord, paths: P.PathRows, pathRows: P.PathRows, slots: P.SlotMap,
                      paths': P.PathRows, pathRows': P.PathRows, slots': P.SlotMap)
    requires P.Reclaiming(key, rec, paths, pathRows, slots, paths', pathRows', slots')
    ensures P.Disjoint(paths) ==> P.Disjoint(paths')
  {
  }

  /** An acquisition only adds slots, so every anchor is kept. */
  lemma AcquireKeepsAnchors(key: P.PathKey, rec: P.PathRecord, sessions: SM.Records, rows: SM.Records, flows: SM.Table, foreign: SM.Table,
                            dependencies: map<SM.SessionId, Request>, paths: P.PathRows, pathRows: P.PathRows, slots: P.SlotMap, slotForeign: P.SlotMap,
                            paths': P.PathRows, pathRows': P.PathRows, slots': P.SlotMap)
    requires Anchors(sessions, dependencies, paths, slots) && forall sid :: sid in sessions ==> sid in dependencies
    requires SM.Covers(sessions, flows, foreign) && SM.Settled(sessions, rows, flows, foreign)
    requires P.Backed(paths, pathRows, slots) && P.Commissioned(paths, slotForeign)
    requires key !in paths && P.Acquiring(key, rec, paths, pathRows, slots, paths', pathRows', slots')
    requires P.Disjoint(paths) && forall k :: k in paths ==> P.SlotsApart(paths[k].held, rec.held)
    ensures Anchors(sessions, dependencies, paths', slots')
    ensures NoDangling(rows, flows, foreign, pathRows', slots')
  {
    var keyOf := map sid | sid in dependencies :: dependencies[sid].Key();
    forall sid | sid in sessions
      ensures AnchoredAt(sid, sessions[sid], keyOf[sid], pathRows', slots') && AnchoredAt(sid, sessions[sid], keyOf[sid], paths', slots')
    {
      AnchorGrows(sid, sessions[sid], keyOf[sid], key, rec, paths, pathRows, slots, slotForeign, paths', pathRows', slots');
      hide P.Backed, P.Commissioned, P.Acquiring, AnchoredAt, P.Disjoint, P.SlotsApart;
    }
    DisjointMore(key, rec, paths, pathRows, slots, paths', pathRows', slots');
    hide P.Backed, P.Commissioned, P.Acquiring, AnchoredAt, P.Disjoint, SM.Covers, P.SlotsApart;
    SettledIntent(sessions, rows, flows, foreign);
    hide SM.Settled;
    AnchoredSessions(sessions, rows, flows, foreign, keyOf, pathRows', slots');
  }

  lemma AnchorGrows(sid: SM.SessionId, s: SM.Session, at: P.PathKey, key: P.PathKey, rec: P.PathRecord,
                    paths: P.PathRows, pathRows: P.PathRows, slots: P.SlotMap, slotForeign: P.SlotMap,
                    paths': P.PathRows, pathRows': P.PathRows, slots': P.SlotMap)
    requires AnchoredAt(sid, s, at, paths, slots) && at != key
    requires P.Backed(paths, pathRows, slots) && P.Commissioned(paths, slotForeign)
    requires P.Acquiring(key, rec, paths, pathRows, slots, paths', pathRows', slots')
    ensures AnchoredAt(sid, s, at, pathRows', slots') && AnchoredAt(sid, s, at, paths', slots')
  {
    AnchoredInRows(sid, s, at, paths, pathRows, slots, slotForeign);
    hide P.SlotData.Matches, P.HopsSupported, P.Backed, P.Commissioned;
    forall x | x in paths[at].held
      ensures P.Holds(paths[at].held, x, slots')
    {
      assert P.Holds(paths[at].held, x, slots);
    }
    forall x | x in pathRows[at].held
      ensures P.Holds(pathRows[at].held, x, slots')
    {
      assert P.Holds(pathRows[at].held, x, slots);
    }
  }

  lemma DisjointMore(key: P.PathKey, rec: P.PathRecord, paths: P.PathRows, pathRows: P.PathRows, slots: P.SlotMap,
                     paths': P.PathRows, pathRows': P.PathRows, slots': P.SlotMap)
    requires P.Acquiring(key, rec, paths, pathRows, slots, paths', pathRows', slots') && key !in paths
    requires P.Disjoint(paths) && forall k :: k in paths ==> P.SlotsApart(paths[k].held, rec.held)
    ensures P.Disjoint(paths')
  {
  }

  /** The sessions that depend on the path are gone, with their dependencies, and no other is. */
  ghost predicate Withdrawn(key: P.PathKey, dependencies: map<SM.SessionId, Request>, dependencies': map<SM.SessionId, Request>,
                            sessions: SM.Records, sessions': SM.Records)
  {
    && (forall sid :: sid in dependencies' <==> sid in dependencies && dependencies[sid].Key() != key)
    && (forall sid :: sid in sessions' <==> sid in sessions && !(sid in dependencies && dependencies[sid].Key() == key))
  }

  ghost predicate Loose(key: P.PathKey, dependencies: map<SM.SessionId, Request>) {
    forall sid :: sid in dependencies ==> dependencies[sid].Key() != key
  }

  lemma LooseFacts(key: P.PathKey, dependencies: map<SM.SessionId, Request>)
    ensures Loose(key, dependencies) <==> forall sid :: sid in dependencies ==> dependencies[sid].Key() != key
  {
  }

  /** This session is gone, and nothing is new in the flow table. */
  ghost predicate Gone(sid: int, sessions: SM.Records, sessions': SM.Records, flows: SM.Table, flows': SM.Table) {
    sessions' == sessions - {sid} && forall k :: k in flows' ==> k in flows && flows'[k] == flows[k]
  }

  /** The session and its dependency are gone, and no other. */
  ghost predicate Dropped(sid: int, deps: map<SM.SessionId, Request>, deps': map<SM.SessionId, Request>, sessions: SM.Records, sessions': SM.Records,
                          flows: SM.Table, flows': SM.Table)
  {
    deps' == deps - {sid} && Gone(sid, sessions, sessions', flows, flows')
  }

  /** No other session depends on this one's path. */
  ghost predicate Alone(sid: int, deps: map<SM.SessionId, Request>, sessions: SM.Records) {
    forall other :: other in sessions && other != sid ==> sid in deps && other in deps && deps[other].Key() != deps[sid].Key()
  }

  lemma DroppedNow(sid: int, deps: map<SM.SessionId, Request>, deps': map<SM.SessionId, Request>, sessions: SM.Records, sessions': SM.Records,
                   rows: SM.Records, flows: SM.Table, rows': SM.Records, flows': SM.Table, foreign: SM.Table)
    requires SM.Shrinks(rows, flows, rows', flows', foreign)
    requires forall other :: other in sessions' <==> other != sid && other in sessions
    requires forall other :: other in sessions' ==> sessions'[other] == sessions[other]
    requires forall other :: other in deps' <==> other != sid && other in deps
    requires forall other :: other in deps' ==> deps'[other] == deps[other]
    ensures Dropped(sid, deps, deps', sessions, sessions', flows, flows')
  {
    assert deps' == deps - {sid} && sessions' == sessions - {sid};
  }

  lemma DroppedFacts(sid: int, deps: map<SM.SessionId, Request>, deps': map<SM.SessionId, Request>, sessions: SM.Records, sessions': SM.Records,
                     flows: SM.Table, flows': SM.Table)
    requires Dropped(sid, deps, deps', sessions, sessions', flows, flows')
    ensures sid !in deps' && sid !in sessions'
  {
  }

  lemma GoneNow(sid: int, deps: map<SM.SessionId, Request>, deps': map<SM.SessionId, Request>, sessions: SM.Records, sessions': SM.Records,
                flows: SM.Table, flows': SM.Table)
    requires Dropped(sid, deps, deps', sessions, sessions', flows, flows')
    ensures Gone(sid, sessions, sessions', flows, flows')
  {
  }

  lemma LooseAfter(sid: int, deps: map<SM.SessionId, Request>, deps': map<SM.SessionId, Request>, sessions: SM.Records, sessions': SM.Records,
                   flows: SM.Table, flows': SM.Table)
    requires Dropped(sid, deps, deps', sessions, sessions', flows, flows') && sid in deps && Alone(sid, deps, sessions) && deps.Keys <= sessions.Keys
    ensures Loose(deps[sid].Key(), deps')
  {
  }

  lemma OthersLeft(sid: int, deps: map<SM.SessionId, Request>, deps': map<SM.SessionId, Request>, deps'': map<SM.SessionId, Request>,
                   sessions: SM.Records, sessions': SM.Records, sessions'': SM.Records, flows: SM.Table, flows': SM.Table)
    requires Dropped(sid, deps, deps', sessions, sessions', flows, flows') && sid in deps && Alone(sid, deps, sessions)
    requires Withdrawn(deps[sid].Key(), deps', deps'', sessions', sessions'')
    ensures forall other :: other != sid && other in sessions ==> other in sessions''
  {
  }

  lemma AloneNow(sid: int, deps: map<SM.SessionId, Request>, sessions: SM.Records)
    requires sid in sessions && forall other :: other in sessions ==> other in deps
    requires forall one, other :: one in sessions && other in sessions && one != other ==> deps[one].Key() != deps[other].Key()
    ensures Alone(sid, deps, sessions)
  {
  }

  /** The dependents of the path have been withdrawn, but for those still to be looked at. */
  ghost predicate Partly(key: P.PathKey, todo: set<SM.SessionId>, dependencies: map<SM.SessionId, Request>, dependencies': map<SM.SessionId, Request>,
                         sessions: SM.Records, sessions': SM.Records)
  {
    && (forall sid :: sid in dependencies' <==> sid in dependencies && (sid in todo || dependencies[sid].Key() != key))
    && (forall sid :: sid in dependencies' ==> dependencies'[sid] == dependencies[sid])
    && (forall sid :: sid in sessions' <==> sid in sessions && (sid in todo || !(sid in dependencies && dependencies[sid].Key() == key)))
  }

  lemma PartlyNone(key: P.PathKey, dependencies: map<SM.SessionId, Request>, sessions: SM.Records)
    ensures Partly(key, dependencies.Keys, dependencies, dependencies, sessions, sessions)
  {
  }

  lemma PartlyFacts(key: P.PathKey, todo: set<SM.SessionId>, dependencies: map<SM.SessionId, Request>, dependencies': map<SM.SessionId, Request>,
                    sessions: SM.Records, sessions': SM.Records)
    requires Partly(key, todo, dependencies, dependencies', sessions, sessions')
    ensures forall sid :: sid in dependencies' ==> sid in dependencies && dependencies'[sid] == dependencies[sid]
    ensures forall sid :: sid in sessions' ==> sid in sessions
  {
  }

  lemma PartlyMore(sid: SM.SessionId, key: P.PathKey, todo: set<SM.SessionId>,
                   dependencies: map<SM.SessionId, Request>, dependencies': map<SM.SessionId, Request>, dependencies'': map<SM.SessionId, Request>,
                   sessions: SM.Records, sessions': SM.Records, sessions'': SM.Records)
    requires Partly(key, todo, dependencies, dependencies', sessions, sessions') && sid in dependencies'
    requires dependencies'[sid].Key() != key ==> dependencies'' == dependencies' && sessions'' == sessions'
    requires dependencies'[sid].Key() == key ==>
               && (forall other :: other in sessions'' <==> other != sid && other in sessions')
               && (forall other :: other in dependencies'' <==> other != sid && other in dependencies')
               && (forall other :: other in dependencies'' ==> dependencies''[other] == dependencies'[other])
    ensures Partly(key, todo - {sid}, dependencies, dependencies'', sessions, sessions'')
  {
  }

  lemma PartlyAll(key: P.PathKey, dependencies: map<SM.SessionId, Request>, dependencies': map<SM.SessionId, Request>,
                  sessions: SM.Records, sessions': SM.Records)
    requires Partly(key, {}, dependencies, dependencies', sessions, sessions')
    ensures Withdrawn(key, dependencies, dependencies', sessions, sessions')
    ensures forall sid :: sid in dependencies' ==> sid in dependencies && dependencies'[sid] == dependencies[sid]
    ensures forall sid :: sid in sessions' ==> sid in sessions
  {
  }

  lemma NoneDepends(key: P.PathKey, dependencies: map<SM.SessionId, Request>, dependencies': map<SM.SessionId, Request>,
                    sessions: SM.Records, sessions': SM.Records)
    requires Withdrawn(key, dependencies, dependencies', sessions, sessions')
    ensures forall sid :: sid in dependencies' <==> sid in dependencies && dependencies[sid].Key() != key
    ensures forall sid :: sid in sessions' <==> sid in sessions && !(sid in dependencies && dependencies[sid].Key() == key)
  {
  }

  /** Sessions and dependencies on other paths than these are still there, and none is new. */
  ghost predicate Spared(keys: set<P.PathKey>, dependencies: map<SM.SessionId, Request>, dependencies': map<SM.SessionId, Request>,
                         sessions: SM.Records, sessions': SM.Records)
  {
    && (forall sid :: sid in dependencies' ==> sid in dependencies && dependencies'[sid] == dependencies[sid])
    && (forall sid :: sid in dependencies && dependencies[sid].Key() !in keys ==> sid in dependencies')
    && (forall sid :: sid in sessions' ==> sid in sessions)
    && (forall sid :: sid in sessions && sid in dependencies && dependencies[sid].Key() !in keys ==> sid in sessions')
  }

  lemma SparedRefl(dependencies: map<SM.SessionId, Request>, sessions: SM.Records)
    ensures forall keys :: Spared(keys, dependencies, dependencies, sessions, sessions)
  {
  }

  lemma SparedTogether(keys: set<P.PathKey>, keys': set<P.PathKey>, dependencies: map<SM.SessionId, Request>,
                       dependencies': map<SM.SessionId, Request>, dependencies'': map<SM.SessionId, Request>,
                       sessions: SM.Records, sessions': SM.Records, sessions'': SM.Records)
    requires Spared(keys, dependencies, dependencies', sessions, sessions') && Spared(keys', dependencies', dependencies'', sessions', sessions'')
    ensures Spared(keys + keys', dependencies, dependencies'', sessions, sessions'')
    ensures keys' !! (set sid | sid in dependencies' :: dependencies'[sid].Key()) ==> dependencies'' == dependencies'
  {
  }

  lemma SparedOnes(before: set<P.PathKey>, after: set<P.PathKey>, dependencies: map<SM.SessionId, Request>, dependencies': map<SM.SessionId, Request>,
                   sessions: SM.Records, sessions': SM.Records)
    requires Spared(before - after, dependencies, dependencies', sessions, sessions')
    ensures forall sid :: sid in sessions && sid in dependencies && dependencies[sid].Key() in after ==> sid in sessions'
  {
  }

  lemma SparedMore(keys: set<P.PathKey>, key: P.PathKey, known: bool, dependencies: map<SM.SessionId, Request>,
                   dependencies': map<SM.SessionId, Request>, dependencies'': map<SM.SessionId, Request>,
                   sessions: SM.Records, sessions': SM.Records, sessions'': SM.Records)
    requires Spared(keys, dependencies, dependencies', sessions, sessions')
    requires forall sid :: sid in dependencies'' ==> sid in dependencies' && dependencies''[sid] == dependencies'[sid]
    requires if known then Withdrawn(key, dependencies', dependencies'', sessions', sessions'') else dependencies'' == dependencies' && sessions'' == sessions'
    ensures Spared(keys + {key}, dependencies, dependencies'', sessions, sessions'')
  {
  }

  /** The path is ready, of this boot, and what the resolver gives, as far as that stands still. */
  predicate UpToDate(key: P.PathKey, rec: P.PathRecord, boot: nat, plans: Option<map<P.PathKey, P.Plan>>) {
    && rec.stage.Ready? && rec.boot == boot
    && (plans.Some? ==> key in plans.value && plans.value[key] == rec.plan)
  }

  /** Of the paths before, what is left and not still to be looked at is up to date; and if every call answers, whatever was
      up to date is left. */
  ghost predicate Checked(todo: set<P.PathKey>, before: P.PathRows, paths: P.PathRows, boot: nat, plans: Option<map<P.PathKey, P.Plan>>, answered: bool) {
    && (forall key :: key in paths ==> key in before && paths[key] == before[key] && (key !in todo ==> UpToDate(key, paths[key], boot, plans)))
    && (answered && plans.Some? ==> forall key :: key in before && UpToDate(key, before[key], boot, plans) ==> key in paths)
  }

  lemma CheckedNone(paths: P.PathRows, boot: nat, plans: Option<map<P.PathKey, P.Plan>>, answered: bool)
    ensures Checked(paths.Keys, paths, paths, boot, plans, answered)
  {
  }

  lemma CheckedOne(key: P.PathKey, todo: set<P.PathKey>, before: P.PathRows, paths: P.PathRows, boot: nat, plans: Option<map<P.PathKey, P.Plan>>, answered: bool)
    requires Checked(todo, before, paths, boot, plans, answered) && key in paths
    ensures key in before && paths[key] == before[key]
  {
  }

  lemma CheckedMore(key: P.PathKey, todo: set<P.PathKey>, before: P.PathRows, paths: P.PathRows, paths': P.PathRows,
                    boot: nat, plans: Option<map<P.PathKey, P.Plan>>, answered: bool)
    requires Checked(todo, before, paths, boot, plans, answered) && key in paths
    requires if key in paths' then paths' == paths && UpToDate(key, paths[key], boot, plans) else paths' == paths - {key}
    requires answered && plans.Some? && UpToDate(key, paths[key], boot, plans) ==> key in paths'
    ensures Checked(todo - {key}, before, paths', boot, plans, answered)
  {
  }

  lemma CheckedAll(before: P.PathRows, paths: P.PathRows, boot: nat, plans: Option<map<P.PathKey, P.Plan>>, answered: bool)
    requires Checked({}, before, paths, boot, plans, answered)
    ensures forall key :: key in paths ==> key in before && paths[key] == before[key] && UpToDate(key, paths[key], boot, plans)
    ensures answered && plans.Some? ==> forall key :: key in before && UpToDate(key, before[key], boot, plans) ==> key in paths
  {
  }

  class Coupling {
    const policy: PolicyOwner

    constructor (policy: PolicyOwner)
      requires policy.Valid()
      ensures this.policy == policy && policy.Valid()
    {
      this.policy := policy;
    }

    /** The deletions of a release, when no session depends on the path. */
    method ReclaimDrained(key: P.PathKey) returns (r: Outcome)
      requires policy.Valid() && key in policy.resources.paths && !policy.sessions.recoveryRequired
      requires forall sid :: sid in policy.dependencies ==> policy.dependencies[sid].Key() != key
      modifies policy.resources, policy.resources.db`rows, policy.resources.db`doubts, policy.resources.device`slots
      ensures r.Crashed? ==> policy.Durable()
      ensures !r.Crashed? ==> policy.Valid()
      ensures r.Raised? ==> policy.resources.recoveryRequired
      ensures r.Done? ==> policy.resources.recoveryRequired == old(policy.resources.recoveryRequired)
      ensures r.Done? ==> policy.resources.paths == old(policy.resources.paths) - {key}
      ensures policy.resources.db.healthy && policy.resources.device.healthy && !old(policy.resources.recoveryRequired) ==>
                (old(policy.resources.paths)[key].boot == policy.resources.boot ==> r.Done?)
      // whatever leaves a slot was this path's own, of this boot; and no recorded session forwards there
      ensures forall x :: x in old(policy.resources.device.slots) && x !in policy.resources.device.slots ==>
                && x in old(policy.resources.paths)[key].held && old(policy.resources.paths)[key].boot == policy.resources.boot
                && forall sid :: sid in policy.sessions.sessions ==> !RefersTo(policy.sessions.sessions[sid], x)
    {
      hide *;
      policy.Open();
      ManagerFacts(policy.sessions);
      OwnerFacts(policy.resources);
      ValidIsDurable(policy.sessions, policy.resources);
      var res := policy.resources;
      ghost var paths, pathRows, slots := res.paths, res.db.rows, res.device.slots;
      Elsewhere(key, policy.sessions.sessions, policy.dependencies, paths, slots);
      r := res.Reclaim(key);
      ReclaimAfterDrain(key, paths[key], policy.sessions.sessions, policy.sessions.journal.rows, policy.sessions.device.table, policy.sessions.device.foreign,
                        policy.dependencies, paths, pathRows, slots, res.device.foreign, res.paths, res.db.rows, res.device.slots);
      ReclaimShape(key, paths[key], res.boot, paths, pathRows, slots, res.paths, res.db.rows, res.device.slots);
      Unreferenced(key, policy.sessions.sessions, policy.dependencies, paths, slots, res.device.foreign);
      if r.Crashed? {
        policy.CloseDurable();
      } else {
        policy.Close();
      }
    }

    /** Withdraws every session that may still use the path.  After a restart the lost dependency index cannot
        prove absence, so everything durable is drained first. */
    method Drain(key: P.PathKey) returns (r: Outcome, acknowledged: bool)
      requires policy.Valid()
      modifies policy`state, policy`activated, policy`dependencies, policy`admitted, policy.sessions, policy.sessions.journal`rows,
               policy.sessions.journal`doubts, policy.sessions.device`table, policy.store`rows, policy.store`doubts
      ensures !r.Crashed? ==> forall sid :: sid in policy.sessions.sessions ==> sid in old(policy.sessions.sessions)
      ensures r.Done? && !old(policy.sessions.recoveryRequired) ==>
                policy.activated == old(policy.activated) && policy.state == old(policy.state) && !policy.sessions.recoveryRequired
      ensures r.Crashed? ==> policy.Durable()
      ensures policy.state.revision == old(policy.state.revision) && policy.state.digest == old(policy.state.digest)
      ensures !r.Crashed? ==> policy.Valid()
      ensures r.Done? && acknowledged ==> !policy.sessions.recoveryRequired
      ensures r.Done? && acknowledged ==> forall sid :: sid in policy.dependencies ==> policy.dependencies[sid].Key() != key
      // if nothing was in doubt, no other session is touched
      ensures r.Done? && !old(policy.sessions.recoveryRequired) ==>
                Withdrawn(key, old(policy.dependencies), policy.dependencies, old(policy.sessions.sessions), policy.sessions.sessions)
      ensures policy.dependencies.Keys <= old(policy.dependencies).Keys
      ensures forall sid :: sid in policy.dependencies ==> policy.dependencies[sid] == old(policy.dependencies)[sid]
      ensures !old(policy.activated) ==> !policy.activated
      ensures !old(policy.sessions.recoveryRequired) && Loose(key, old(policy.dependencies)) ==>
                r.Done? && acknowledged && policy.sessions.sessions == old(policy.sessions.sessions) && policy.sessions.device.table == old(policy.sessions.device.table)
    {
      hide *;
      policy.Open();
      acknowledged := false;
      if policy.sessions.recoveryRequired || exists sid :: sid in policy.sessions.sessions && sid !in policy.dependencies {
        policy.Deactivate();
        r := policy.Reconcile();
        if !r.Done? {
          return;
        }
      }
      ghost var deps, sessions := policy.dependencies, policy.sessions.sessions;
      r := RevokeDependents(key);
      if r.Done? {
        NoneDepends(key, deps, policy.dependencies, sessions, policy.sessions.sessions);
      }
      acknowledged := !policy.sessions.recoveryRequired;
    }

    method RevokeDependents(key: P.PathKey) returns (r: Outcome)
      requires policy.Valid()
      modifies policy`dependencies, policy.sessions, policy.sessions.journal`rows, policy.sessions.journal`doubts, policy.sessions.device`table
      ensures !r.Crashed? ==> forall sid :: sid in policy.sessions.sessions ==> sid in old(policy.sessions.sessions)
      ensures r.Done? ==> policy.sessions.recoveryRequired == old(policy.sessions.recoveryRequired)
      ensures r.Crashed? ==> policy.Durable()
      ensures !r.Crashed? ==> policy.Valid()
      ensures r.Done? ==> Withdrawn(key, old(policy.dependencies), policy.dependencies, old(policy.sessions.sessions), policy.sessions.sessions)
      ensures policy.dependencies.Keys <= old(policy.dependencies).Keys
      ensures forall sid :: sid in policy.dependencies ==> policy.dependencies[sid] == old(policy.dependencies)[sid]
      ensures Loose(key, old(policy.dependencies)) ==>
                r.Done? && policy.sessions.sessions == old(policy.sessions.sessions) && policy.sessions.device.table == old(policy.sessions.device.table)
    {
      hide *;
      LooseFacts(key, policy.dependencies);
      ghost var deps, recs, loose := policy.dependencies, policy.sessions.sessions, Loose(key, policy.dependencies);
      var todo := policy.dependencies.Keys;
      PartlyNone(key, deps, recs);
      while todo != {}
        invariant policy.Valid() && policy.sessions.recoveryRequired == old(policy.sessions.recoveryRequired)
        invariant todo <= policy.dependencies.Keys && Partly(key, todo, deps, policy.dependencies, recs, policy.sessions.sessions)
        invariant loose ==> policy.sessions.sessions == old(policy.sessions.sessions) && policy.sessions.device.table == old(policy.sessions.device.table)
        decreases todo
      {
        var sid := Pick(todo);
        ghost var mid, left := policy.dependencies, policy.sessions.sessions;
        PartlyFacts(key, todo, deps, mid, recs, left);
        if policy.dependencies[sid].Key() == key {
          r := policy.Revoke(sid);
          if !r.Done? {
            return;
          }
        }
        PartlyMore(sid, key, todo, deps, mid, policy.dependencies, recs, left, policy.sessions.sessions);
        todo := todo - {sid};
      }
      PartlyAll(key, deps, policy.dependencies, recs, policy.sessions.sessions);
      return Done;
    }

    /** Reclaims a path: drain, then next hops, then source MACs, then the record. */
    method Release(key: P.PathKey) returns (r: Outcome)
      requires policy.Valid()
      modifies policy`state, policy`activated, policy`dependencies, policy`admitted, policy.sessions, policy.sessions.journal`rows,
               policy.sessions.journal`doubts, policy.sessions.device`table, policy.store`rows, policy.store`doubts,
               policy.resources, policy.resources.db`rows, policy.resources.db`doubts, policy.resources.device`slots
      ensures !r.Crashed? ==> forall sid :: sid in policy.sessions.sessions ==> sid in old(policy.sessions.sessions)
      ensures r.Done? && !old(policy.sessions.recoveryRequired) ==>
                policy.activated == old(policy.activated) && policy.state == old(policy.state) && !policy.sessions.recoveryRequired
      ensures r.Crashed? ==> policy.Durable()
      ensures policy.state.revision == old(policy.state.revision) && policy.state.digest == old(policy.state.digest)
      ensures !r.Crashed? ==> policy.Valid()
      ensures r.Done? ==> policy.resources.paths == old(policy.resources.paths) - {key} && policy.resources.recoveryRequired == old(policy.resources.recoveryRequired)
      ensures r.Done? && !old(policy.sessions.recoveryRequired) && key in old(policy.resources.paths) ==>
                Withdrawn(key, old(policy.dependencies), policy.dependencies, old(policy.sessions.sessions), policy.sessions.sessions)
      ensures key !in old(policy.resources.paths) ==> r.Done? && policy.sessions.sessions == old(policy.sessions.sessions) && policy.dependencies == old(policy.dependencies)
      ensures r.Raised? ==> policy.resources.recoveryRequired
      ensures policy.dependencies.Keys <= old(policy.dependencies).Keys
      ensures forall sid :: sid in policy.dependencies ==> policy.dependencies[sid] == old(policy.dependencies)[sid]
      ensures !old(policy.activated) ==> !policy.activated
      // a path that nothing depends on is given back if every call answers
      ensures !old(policy.sessions.recoveryRequired) && !old(policy.resources.recoveryRequired) && Loose(key, old(policy.dependencies)) ==>
                (policy.resources.db.healthy && policy.resources.device.healthy ==>
                   ((key in old(policy.resources.paths) ==> old(policy.resources.paths)[key].boot == policy.resources.boot) ==>
                      && r.Done? && policy.sessions.sessions == old(policy.sessions.sessions)
                      && policy.sessions.device.table == old(policy.sessions.device.table)))
    {
      hide *;
      if key !in policy.resources.paths {
        return Done;
      }
      var acknowledged;
      r, acknowledged := Drain(key);
      if r.Done? && acknowledged {
        r := ReclaimDrained(key);
      } else if !r.Crashed? {
        FenceResources();
        r := Raised;
      }
    }

    method FenceResources()
      requires policy.Valid()
      modifies policy.resources`recoveryRequired
      ensures policy.Valid() && policy.resources.recoveryRequired
    {
      hide *;
      policy.Open();
      policy.resources.Fence();
      policy.Close();
    }

    /** Acquires a path while nothing recorded is in doubt. */
    method AcquirePath(key: P.PathKey, plan: P.Plan) returns (r: Outcome, snapshot: Option<P.PathSnapshot>)
      requires policy.Valid() && !policy.sessions.recoveryRequired
      modifies policy.resources`paths, policy.resources`recoveryRequired, policy.resources.db`rows, policy.resources.db`doubts, policy.resources.device`slots
      ensures r.Crashed? ==> policy.Durable()
      ensures !r.Crashed? ==> policy.Valid()
      ensures r.Done? ==> key !in old(policy.resources.paths) && key in policy.resources.paths && snapshot.Some? && Held(key, plan, snapshot.value)
      ensures r.Done? ==> policy.resources.paths == old(policy.resources.paths)[key := policy.resources.paths[key]]
      ensures old(policy.resources.Acquirable(key, plan)) && policy.resources.db.healthy ==> r.Done? && snapshot == Some(old(policy.resources.Answer(plan)))
    {
      hide *;
      policy.Open();
      ManagerFacts(policy.sessions);
      OwnerFacts(policy.resources);
      ValidIsDurable(policy.sessions, policy.resources);
      var res := policy.resources;
      ghost var paths, pathRows, slots := res.paths, res.db.rows, res.device.slots;
      ghost var rec;
      r, snapshot, rec := res.Acquire(key, plan);
      if r.Done? {
        ProgrammedOrder(plan, res.paths[key].order, res.device.slots);
        HeldNow(key, plan, snapshot.value);
      }
      if !(res.paths == paths && res.db.rows == pathRows && res.device.slots == slots) {
        AcquireKeepsAnchors(key, rec, policy.sessions.sessions, policy.sessions.journal.rows, policy.sessions.device.table, policy.sessions.device.foreign,
                            policy.dependencies, paths, pathRows, slots, res.device.foreign, res.paths, res.db.rows, res.device.slots);
      }
      if r.Crashed? {
        policy.CloseDurable();
      } else {
        policy.Close();
      }
    }

    /** The plan is held and in hardware, ready and of this boot, and the snapshot tells it. */
    ghost predicate Held(key: P.PathKey, plan: P.Plan, snapshot: P.PathSnapshot)
      reads policy.resources, policy.resources.device
    {
      && !policy.resources.recoveryRequired && key in policy.resources.paths
      && var rec := policy.resources.paths[key];
      && rec.plan == plan && rec.stage.Ready? && rec.boot == policy.resources.boot && P.Programmed(plan, rec.order, policy.resources.device.slots)
      && snapshot == P.PathSnapshot(plan.natDigest, plan.forward, plan.backward, rec.order[2].index, rec.order[3].index)
    }

    lemma HeldNow(key: P.PathKey, plan: P.Plan, snapshot: P.PathSnapshot)
      requires !policy.resources.recoveryRequired && key in policy.resources.paths && policy.resources.paths[key].plan == plan
      requires policy.resources.paths[key].stage.Ready? && policy.resources.paths[key].boot == policy.resources.boot
      requires P.Programmed(plan, policy.resources.paths[key].order, policy.resources.device.slots)
      requires |policy.resources.paths[key].order| == 4
      requires snapshot == P.PathSnapshot(plan.natDigest, plan.forward, plan.backward, policy.resources.paths[key].order[2].index, policy.resources.paths[key].order[3].index)
      ensures Held(key, plan, snapshot)
    {
    }

    /** The request is one this owner may act on now; the path digest is not the caller's to choose. */
    predicate Admissible(q: Request)
      reads policy, policy.sessions
    {
      && policy.AdmissionEnabled() && q.sid !in policy.sessions.sessions
      && q.revision == policy.state.revision && policy.state.digest == Some(q.policy)
      && q.allow && !q.inspectionRequired && q.established
    }

    /** Nothing stands in the way of this request on this plan: the slots the path would take are known beforehand. */
    ghost predicate Welcome(q: Request, plan: P.Plan)
      reads policy, policy.sessions, policy.sessions.journal, policy.sessions.device, policy.resources, policy.resources.device, policy.resources.resolver,
            policy.resources.db, policy.idJournal, policy.ids, policy.world
    {
      && policy.Current() && Uint(q.revision, U32 * U32) && Uint(q.sid, 0x8000_0000)
      && policy.resources.Acquirable(q.Key(), plan) && policy.resources.db.healthy
      && var asked := q.(path := policy.resources.Answer(plan));
      && policy.Decided(asked) && Fits(asked.path, asked) && (q.natRequired ==> policy.world.natQualified == Ok(true))
      && policy.Resolvable(asked) && policy.Stocked() && policy.Installable(q.sid, Entries(asked).0, Entries(asked).1)
    }

    /** Acquires the path, then admits the session on it; any failure drains before the path is given back. */
    method Admit(q: Request, plan: P.Plan) returns (r: Outcome)
      requires policy.Valid()
      modifies policy`state, policy`activated, policy`dependencies, policy`admitted, policy.sessions, policy.sessions.journal`rows,
               policy.sessions.journal`doubts, policy.sessions.device`table, policy.store`rows, policy.store`doubts,
               policy.resources, policy.resources.db`rows, policy.resources.db`doubts, policy.resources.device`slots,
               policy.ids, policy.idJournal
      ensures !r.Crashed? ==> forall sid :: sid in policy.sessions.sessions ==> sid == q.sid || sid in old(policy.sessions.sessions)
      ensures r.Crashed? ==> policy.Durable()
      ensures policy.state.revision == old(policy.state.revision) && policy.state.digest == old(policy.state.digest)
      ensures !r.Crashed? ==> policy.Valid()
      ensures r.Done? ==> policy.AdmissionEnabled() && q.sid in policy.sessions.sessions && q.sid in policy.dependencies
      ensures r.Done? ==> policy.dependencies[q.sid].Key() == q.Key() && q.revision == policy.state.revision
      // the session is exactly the request's, on a path that is the plan's
      ensures r.Done? ==> Admitted(q, plan, old(policy.sessions.sessions), old(policy.sessions.device.table), old(policy.idJournal.issued))
      // what was not allowed changes no path and records no session
      ensures !q.allow || q.inspectionRequired || !q.established ==>
                && !r.Done? && policy.resources.paths == old(policy.resources.paths) && policy.resources.device.slots == old(policy.resources.device.slots)
                && (r.Raised? ==> forall sid :: sid in policy.sessions.sessions ==> sid in old(policy.sessions.sessions))
      ensures !old(policy.activated) ==> !policy.activated
      // a failure that came after the path ends admission
      ensures r.Raised? ==> !policy.activated || (policy.resources.paths == old(policy.resources.paths) && policy.resources.device.slots == old(policy.resources.device.slots))
      // and it is admitted if nothing stands in the way
      ensures old(Welcome(q, plan)) ==> r.Done? && (old(Calm()) ==> Calm())
    {
      hide *;
      WelcomeFacts(q, plan);
      if !Uint(q.sid, 0x8000_0000) || !Uint(q.revision, U32 * U32) {
        return Raised;
      }
      r := ReconcileFor(q, plan);
      if r.Done? {
        r := AdmitHere(q, plan);
      }
    }

    /** The reconciliation that goes before an admission: if the request was welcome, it still is. */
    method ReconcileFor(q: Request, plan: P.Plan) returns (r: Outcome)
      requires policy.Valid()
      modifies policy`state, policy`activated, policy`dependencies, policy`admitted, policy.sessions, policy.sessions.journal`rows, policy.sessions.journal`doubts,
               policy.sessions.device`table, policy.store`rows, policy.store`doubts
      ensures !r.Crashed? ==> forall sid :: sid in policy.sessions.sessions ==> sid in old(policy.sessions.sessions)
      ensures r.Crashed? ==> policy.Durable()
      ensures policy.state.revision == old(policy.state.revision) && policy.state.digest == old(policy.state.digest)
      ensures !r.Crashed? ==> policy.Valid()
      ensures !old(policy.activated) || r.Raised? ==> !policy.activated
      ensures r.Done? && policy.activated ==>
                && old(policy.activated) && policy.sessions.sessions == old(policy.sessions.sessions) && policy.sessions.device.table == old(policy.sessions.device.table)
      ensures old(Welcome(q, plan)) ==> r.Done? && Welcome(q, plan) && (old(Calm()) ==> Calm())
    {
      hide policy.Valid, policy.Durable, SM.Shrinks, SM.Session.SameIntent, SM.Clear, policy.Vouched, policy.Outdated, policy.AllStand, policy.Decided, Fits,
        policy.Resolvable, policy.Stocked, P.PathOwner.Acquirable, Entries, Admitted, Calm, Standing, Referenced, UpToDate;
      CalmFacts();
      r := policy.Reconcile();
    }

    /** A session of this request is recorded and in hardware on a path of this plan. */
    ghost predicate Admitted(q: Request, plan: P.Plan, sessions: SM.Records, flows: SM.Table, issued: seq<int>)
      reads policy, policy.sessions, policy.sessions.device, policy.resources, policy.resources.device, policy.idJournal, policy.world
    {
      && q.sid in policy.dependencies && Uint(q.sid, 0x8000_0000)
      && var asked := policy.dependencies[q.sid];
      && asked == q.(path := asked.path) && Held(q.Key(), plan, asked.path) && policy.Carried(asked) && policy.Attached(asked)
      && Placed(asked, q.sid, sessions, policy.sessions.sessions, flows, policy.sessions.device.table, issued, policy.idJournal.issued)
    }

    lemma AdmittedFacts(q: Request, plan: P.Plan, sessions: SM.Records, flows: SM.Table, issued: seq<int>)
      requires Admitted(q, plan, sessions, flows, issued)
      ensures policy.sessions.sessions.Keys == sessions.Keys + {q.sid}
    {
      hide Held, policy.Carried, policy.Attached, Directions;
    }

    lemma AdmissibleFacts(q: Request)
      ensures Admissible(q) ==>
                && policy.AdmissionEnabled() && policy.activated && !policy.sessions.recoveryRequired
                && q.allow && !q.inspectionRequired && q.established && q.sid !in policy.sessions.sessions
    {
    }

    lemma WelcomeFacts(q: Request, plan: P.Plan)
      ensures Welcome(q, plan) ==>
                && Uint(q.sid, 0x8000_0000) && Uint(q.revision, U32 * U32)
                && Admissible(q) && policy.world.steady && (q.natRequired ==> policy.world.natQualified == Ok(true))
                && policy.resources.Acquirable(q.Key(), plan) && policy.resources.db.healthy
    {
      hide policy.AllStand, policy.Outdated, Fits, policy.Resolvable, policy.Stocked, P.PathOwner.Acquirable, Entries, Sha256;
    }

    /** Everything but the path itself that a welcome request needs. */
    ghost predicate Awaited(asked: Request)
      reads policy, policy.sessions, policy.sessions.journal, policy.sessions.device, policy.resources.device`healthy, policy.resources.resolver,
            policy.idJournal, policy.ids, policy.world
    {
      && policy.AdmissionEnabled() && policy.world.steady && !policy.Outdated() && policy.resources.device.healthy && policy.resources.resolver.stable
      && policy.Decided(asked) && Fits(asked.path, asked) && (asked.natRequired ==> policy.world.natQualified == Ok(true))
      && Uint(asked.revision, U32 * U32) && Uint(asked.sid, 0x8000_0000)
      && policy.Resolvable(asked) && policy.Stocked() && policy.Installable(asked.sid, Entries(asked).0, Entries(asked).1)
    }

    /** Every dependency of a recorded session has its path among these. */
    ghost predicate HeldAmong(paths: P.PathRows)
      reads policy, policy.sessions, policy.resources.resolver, policy.world
    {
      forall sid :: sid in policy.dependencies && sid in policy.sessions.sessions ==>
        && HeldFor(policy.dependencies[sid], paths, policy.resources.boot, policy.resources.resolver.plans)
        && (policy.dependencies[sid].natRequired ==> policy.world.steady && policy.world.natQualified == Ok(true))
    }

    lemma Awaiting(q: Request, plan: P.Plan)
      requires Welcome(q, plan)
      ensures Awaited(q.(path := policy.resources.Answer(plan))) && HeldAmong(policy.resources.paths)
      ensures q.Key() !in policy.resources.paths && q.Key() in policy.resources.resolver.plans && policy.resources.resolver.plans[q.Key()] == plan
    {
      hide policy.Outdated, Fits, policy.Resolvable, policy.Stocked, Entries, Sha256, policy.Decided, P.Plan.Valid, P.PathOwner.FreeOf;
    }

    /** The acquisition leaves nothing in the way of the session. */
    lemma StillWelcome(q: Request, plan: P.Plan, asked: Request, before: P.PathRows)
      requires asked == q.(path := asked.path) && Awaited(asked) && Held(q.Key(), plan, asked.path) && HeldAmong(before)
      requires q.Key() !in before && q.Key() in policy.resources.resolver.plans && policy.resources.resolver.plans[q.Key()] == plan
      requires q.Key() in policy.resources.paths && policy.resources.paths == before[q.Key() := policy.resources.paths[q.Key()]]
      ensures policy.Admissible(asked)
    {
      hide policy.Outdated, Fits, policy.Resolvable, policy.Stocked, Entries, Sha256, P.Programmed, policy.Decided;
      SameKey(q, asked);
      ghost var rec := policy.resources.paths[q.Key()];
      ProgrammedOrder(plan, rec.order, policy.resources.device.slots);
      assert rec.Snapshot() == asked.path;
      assert policy.Stands(asked);
    }

    lemma AdmittedNow(q: Request, plan: P.Plan, asked: Request, sessions: SM.Records, flows: SM.Table, issued: seq<int>)
      requires q.sid in policy.dependencies && Uint(q.sid, 0x8000_0000) && policy.dependencies[q.sid] == asked
      requires asked == q.(path := asked.path) && Held(q.Key(), plan, asked.path) && policy.Carried(asked) && policy.Attached(asked)
      requires Placed(asked, q.sid, sessions, policy.sessions.sessions, flows, policy.sessions.device.table, issued, policy.idJournal.issued)
      ensures Admitted(q, plan, sessions, flows, issued)
    {
    }

    /** Acquires the path of a request and asks for the session on it. */
    method AcquireAsked(q: Request, plan: P.Plan) returns (r: Outcome, asked: Request)
      requires policy.Valid() && !policy.sessions.recoveryRequired
      modifies policy.resources`paths, policy.resources`recoveryRequired, policy.resources.db`rows, policy.resources.db`doubts, policy.resources.device`slots
      ensures r.Crashed? ==> policy.Durable()
      ensures !r.Crashed? ==> policy.Valid()
      ensures asked == q.(path := asked.path) && asked.Key() == q.Key()
      ensures r.Done? ==> Held(q.Key(), plan, asked.path)
      ensures old(Welcome(q, plan)) ==> r.Done? && policy.Admissible(asked)
      ensures r.Done? ==> q.Key() in policy.resources.paths && policy.resources.paths == old(policy.resources.paths)[q.Key() := policy.resources.paths[q.Key()]]
    {
      hide *;
      WelcomeFacts(q, plan);
      ghost var welcome, before := Welcome(q, plan), policy.resources.paths;
      if welcome {
        Awaiting(q, plan);
      }
      asked := q;
      var snapshot;
      r, snapshot := AcquirePath(q.Key(), plan);
      if r.Done? {
        asked := q.(path := snapshot.value);
        if welcome {
          StillWelcome(q, plan, asked, before);
        }
      }
      SameKey(q, asked);
    }

    /** The part of an admission that follows the reconciliation. */
    method AdmitHere(q: Request, plan: P.Plan) returns (r: Outcome)
      requires policy.Valid() && Uint(q.sid, 0x8000_0000) && Uint(q.revision, U32 * U32)
      modifies policy`state, policy`activated, policy`dependencies, policy`admitted, policy.sessions, policy.sessions.journal`rows,
               policy.sessions.journal`doubts, policy.sessions.device`table, policy.store`rows, policy.store`doubts,
               policy.resources, policy.resources.db`rows, policy.resources.db`doubts, policy.resources.device`slots,
               policy.ids, policy.idJournal
      ensures !r.Crashed? ==> forall sid :: sid in policy.sessions.sessions ==> sid == q.sid || sid in old(policy.sessions.sessions)
      ensures r.Crashed? ==> policy.Durable()
      ensures policy.state.revision == old(policy.state.revision) && policy.state.digest == old(policy.state.digest)
      ensures !r.Crashed? ==> policy.Valid()
      ensures r.Done? ==> old(policy.activated) && policy.AdmissionEnabled() && q.sid in policy.sessions.sessions && q.sid in policy.dependencies
      ensures r.Done? ==> policy.dependencies[q.sid].Key() == q.Key() && q.revision == policy.state.revision
      ensures r.Done? ==> Admitted(q, plan, old(policy.sessions.sessions), old(policy.sessions.device.table), old(policy.idJournal.issued))
      ensures !q.allow || q.inspectionRequired || !q.established ==>
                && r.Raised? && policy.resources.paths == old(policy.resources.paths) && policy.resources.device.slots == old(policy.resources.device.slots)
                && policy.sessions.sessions == old(policy.sessions.sessions)
      ensures !old(policy.activated) ==> !policy.activated
      ensures r.Raised? ==> !policy.activated || (policy.resources.paths == old(policy.resources.paths) && policy.resources.device.slots == old(policy.resources.device.slots))
      ensures old(Welcome(q, plan)) ==> r.Done? && (old(Calm()) ==> Calm())
    {
      hide *;
      WelcomeFacts(q, plan);
      AdmissibleFacts(q);
      if !Admissible(q) {
        return Raised;
      }
      if q.natRequired {
        var qualified := policy.world.NatQualified();
        if qualified != Ok(true) {
          return Raised;
        }
      }
      r := AdmitOnPath(q, plan);
      if r.Raised? {
        r := GiveBack(q.Key());
      }
    }

    /** Acquires the path, then asks for the session on it. */
    method AdmitOnPath(q: Request, plan: P.Plan) returns (r: Outcome)
      requires policy.Valid() && !policy.sessions.recoveryRequired && Uint(q.sid, 0x8000_0000) && q.sid !in policy.sessions.sessions
      modifies policy`state, policy`activated, policy`dependencies, policy`admitted, policy.sessions, policy.sessions.journal`rows,
               policy.sessions.journal`doubts, policy.sessions.device`table, policy.store`rows, policy.store`doubts,
               policy.resources, policy.resources.db`rows, policy.resources.db`doubts, policy.resources.device`slots,
               policy.ids, policy.idJournal
      ensures !r.Crashed? ==> forall sid :: sid in policy.sessions.sessions ==> sid == q.sid || sid in old(policy.sessions.sessions)
      ensures r.Crashed? ==> policy.Durable()
      ensures policy.state.revision == old(policy.state.revision) && policy.state.digest == old(policy.state.digest)
      ensures !r.Crashed? ==> policy.Valid()
      ensures !old(policy.activated) ==> !policy.activated
      ensures r.Done? ==> policy.AdmissionEnabled() && q.sid in policy.sessions.sessions && q.sid in policy.dependencies
      ensures r.Done? ==> policy.dependencies[q.sid].Key() == q.Key() && q.revision == policy.state.revision
      ensures r.Done? ==> Admitted(q, plan, old(policy.sessions.sessions), old(policy.sessions.device.table), old(policy.idJournal.issued))
      ensures old(Welcome(q, plan)) ==> r.Done? && (old(Calm()) ==> Calm())
    {
      hide *;
      ghost var calm, deps, recs, before := Calm() && Welcome(q, plan), policy.dependencies, policy.sessions.sessions, policy.resources.paths;
      if calm {
        PreparedNow(q, plan);
      }
      var asked;
      r, asked := AcquireAsked(q, plan);
      if r.Done? {
        r := policy.AdmitPair(asked);
        if r.Done? {
          AdmittedNow(q, plan, asked, old(policy.sessions.sessions), old(policy.sessions.device.table), old(policy.idJournal.issued));
          if calm {
            CalmGrows(q, plan, asked, before, recs, deps, old(policy.sessions.device.table), old(policy.idJournal.issued));
          }
        }
      }
    }

    /** What follows a failed admission: never reclaim next hops before the drain. */
    method GiveBack(key: P.PathKey) returns (r: Outcome)
      requires policy.Valid()
      modifies policy`state, policy`activated, policy`dependencies, policy`admitted, policy.sessions, policy.sessions.journal`rows,
               policy.sessions.journal`doubts, policy.sessions.device`table, policy.store`rows, policy.store`doubts,
               policy.resources, policy.resources.db`rows, policy.resources.db`doubts, policy.resources.device`slots
      ensures !r.Done?
      ensures !r.Crashed? ==> forall sid :: sid in policy.sessions.sessions ==> sid in old(policy.sessions.sessions)
      ensures r.Crashed? ==> policy.Durable()
      ensures policy.state.revision == old(policy.state.revision) && policy.state.digest == old(policy.state.digest)
      ensures !r.Crashed? ==> policy.Valid() && !policy.activated
    {
      hide *;
      policy.Deactivate();
      r := policy.Reconcile();
      if !r.Done? {
        return;
      }
      r := Release(key);
      if r.Done? {
        r := Raised;
      }
    }

    /** Withdraws a session and then its path. */
    method Revoke(sid: int) returns (r: Outcome)
      requires policy.Valid()
      modifies policy`state, policy`activated, policy`dependencies, policy`admitted, policy.sessions, policy.sessions.journal`rows,
               policy.sessions.journal`doubts, policy.sessions.device`table, policy.store`rows, policy.store`doubts,
               policy.resources, policy.resources.db`rows, policy.resources.db`doubts, policy.resources.device`slots
      ensures !r.Crashed? ==> forall sid :: sid in policy.sessions.sessions ==> sid in old(policy.sessions.sessions)
      ensures r.Done? && !old(policy.sessions.recoveryRequired) ==>
                policy.activated == old(policy.activated) && policy.state == old(policy.state) && !policy.sessions.recoveryRequired
      ensures r.Crashed? ==> policy.Durable()
      ensures policy.state.revision == old(policy.state.revision) && policy.state.digest == old(policy.state.digest)
      ensures !r.Crashed? ==> policy.Valid()
      ensures r.Done? ==> sid !in policy.dependencies && sid !in policy.sessions.sessions
      ensures r.Done? ==>
                policy.resources.paths == if sid in old(policy.dependencies) then old(policy.resources.paths) - {old(policy.dependencies)[sid].Key()} else old(policy.resources.paths)
      // if nothing was in doubt, no other session is withdrawn
      ensures r.Done? && !old(policy.sessions.recoveryRequired) && sid in old(policy.sessions.sessions) ==>
                forall other :: other != sid && other in old(policy.sessions.sessions) ==> other in policy.sessions.sessions
      // and it succeeds, in good order, if nothing stands in the way
      ensures old(Calm() && Revocable(sid)) ==>
                r.Done? && Calm() && Gone(sid, old(policy.sessions.sessions), policy.sessions.sessions, old(policy.sessions.device.table), policy.sessions.device.table)
      ensures old(Calm() && Revocable(sid)) ==> forall other :: other != sid && old(Revocable(other)) ==> Revocable(other)
      ensures r.Raised? ==> !policy.activated
      ensures !old(policy.activated) ==> !policy.activated
    {
      hide *;
      ghost var ready, recs, flows := Calm() && Revocable(sid), policy.sessions.sessions, policy.sessions.device.table;
      ghost var others := set other: int | other in recs && Revocable(other);
      RevocableOnes(others);
      r := RevokeBoth(sid);
      if ready {
        StillRevocable(sid, others, recs, flows);
      }
      if r.Raised? {
        policy.Deactivate();
      }
    }

    method RevokeBoth(sid: int) returns (r: Outcome)
      requires policy.Valid()
      modifies policy`state, policy`activated, policy`dependencies, policy`admitted, policy.sessions, policy.sessions.journal`rows,
               policy.sessions.journal`doubts, policy.sessions.device`table, policy.store`rows, policy.store`doubts,
               policy.resources, policy.resources.db`rows, policy.resources.db`doubts, policy.resources.device`slots
      ensures !r.Crashed? ==> forall sid :: sid in policy.sessions.sessions ==> sid in old(policy.sessions.sessions)
      ensures r.Done? && !old(policy.sessions.recoveryRequired) ==>
                policy.activated == old(policy.activated) && policy.state == old(policy.state) && !policy.sessions.recoveryRequired
      ensures r.Crashed? ==> policy.Durable()
      ensures policy.state.revision == old(policy.state.revision) && policy.state.digest == old(policy.state.digest)
      ensures !r.Crashed? ==> policy.Valid()
      ensures r.Done? ==> sid !in policy.dependencies && sid !in policy.sessions.sessions
      ensures r.Done? ==>
                policy.resources.paths == if sid in old(policy.dependencies) then old(policy.resources.paths) - {old(policy.dependencies)[sid].Key()} else old(policy.resources.paths)
      ensures r.Done? && !old(policy.sessions.recoveryRequired) && sid in old(policy.sessions.sessions) ==>
                forall other :: other != sid && other in old(policy.sessions.sessions) ==> other in policy.sessions.sessions
      ensures old(Calm() && Revocable(sid)) ==>
                r.Done? && Calm() && Gone(sid, old(policy.sessions.sessions), policy.sessions.sessions, old(policy.sessions.device.table), policy.sessions.device.table)
      ensures !old(policy.activated) ==> !policy.activated
    {
      hide *;
      CalmFacts();
      ghost var deps, recs, flows, paths := policy.dependencies, policy.sessions.sessions, policy.sessions.device.table, policy.resources.paths;
      ghost var ready, sure := Calm() && Revocable(sid), !policy.sessions.recoveryRequired && sid in policy.sessions.sessions;
      if sure {
        OwnKeys(sid);
      }
      if ready {
        RevokeReady(sid);
      }
      var known := sid in policy.dependencies;
      var key := if known then policy.dependencies[sid].Key() else P.PathKey(0, 0, "");
      r := RevokeSession(sid);
      ghost var mid, left, fewer := policy.dependencies, policy.sessions.sessions, policy.sessions.device.table;
      if r.Done? {
        DroppedFacts(sid, deps, mid, recs, left, flows, fewer);
      }
      if r.Done? && known {
        if ready {
          LooseAfter(sid, deps, mid, recs, left, flows, fewer);
        }
        r := Release(key);
        if r.Done? && sure {
          OthersLeft(sid, deps, mid, policy.dependencies, recs, left, policy.sessions.sessions, flows, fewer);
        }
      }
      if ready {
        OrderWithout(sid, deps, mid, recs, left, flows, fewer, paths);
        GoneNow(sid, deps, mid, recs, left, flows, fewer);
      }
    }

    /** Withdraws a session, but not yet its path. */
    method RevokeSession(sid: int) returns (r: Outcome)
      requires policy.Valid()
      modifies policy`dependencies, policy.sessions, policy.sessions.journal`rows, policy.sessions.journal`doubts, policy.sessions.device`table
      ensures !r.Crashed? ==> forall other :: other in policy.sessions.sessions ==> other in old(policy.sessions.sessions)
      ensures r.Crashed? ==> policy.Durable()
      ensures !r.Crashed? ==> policy.Valid()
      ensures r.Done? ==> policy.sessions.recoveryRequired == old(policy.sessions.recoveryRequired)
      ensures r.Done? ==> Dropped(sid, old(policy.dependencies), policy.dependencies, old(policy.sessions.sessions), policy.sessions.sessions,
                                  old(policy.sessions.device.table), policy.sessions.device.table)
      ensures old(Revocable(sid)) ==> r.Done?
    {
      hide *;
      RevocableFacts(sid);
      ghost var deps, recs, rows, flows := policy.dependencies, policy.sessions.sessions, policy.sessions.journal.rows, policy.sessions.device.table;
      r := policy.Revoke(sid);
      if r.Done? {
        DroppedNow(sid, deps, policy.dependencies, recs, policy.sessions.sessions, rows, flows, policy.sessions.journal.rows, policy.sessions.device.table,
                   policy.sessions.device.foreign);
      }
    }

    /** The session's own calls will answer, and nobody else has taken its keys. */
    ghost predicate Revocable(sid: int)
      reads policy.sessions, policy.sessions.journal, policy.sessions.device, policy.resources.db
    {
      && Uint(sid, 0x8000_0000) && sid in policy.sessions.sessions && policy.sessions.sessions[sid].ClearIn(policy.sessions.device.table)
      && policy.sessions.journal.healthy && policy.sessions.device.healthy && policy.resources.db.healthy
    }

    lemma RevocableFacts(sid: int)
      ensures Revocable(sid) ==>
                && Uint(sid, 0x8000_0000) && sid in policy.sessions.sessions && policy.sessions.sessions[sid].ClearIn(policy.sessions.device.table)
                && policy.sessions.journal.healthy && policy.sessions.device.healthy && policy.resources.db.healthy
    {
    }

    lemma RevocableOnes(sids: set<int>)
      requires forall sid :: sid in sids ==> Revocable(sid)
      ensures forall sid :: sid in sids ==>
                Uint(sid, 0x8000_0000) && sid in policy.sessions.sessions && policy.sessions.sessions[sid].ClearIn(policy.sessions.device.table)
      ensures forall sid :: Revocable(sid) ==>
                && sid in policy.sessions.sessions && policy.sessions.journal.healthy && policy.sessions.device.healthy && policy.resources.db.healthy
    {
    }

    /** Withdrawing one session does not stand in the way of others. */
    lemma StillRevocable(sid: int, sids: set<int>, sessions: SM.Records, flows: SM.Table)
      requires Gone(sid, sessions, policy.sessions.sessions, flows, policy.sessions.device.table)
      requires forall other :: other in sids ==> Uint(other, 0x8000_0000) && other in sessions && sessions[other].ClearIn(flows)
      requires policy.sessions.journal.healthy && policy.sessions.device.healthy && policy.resources.db.healthy
      ensures forall other :: other in sids && other != sid ==> Revocable(other)
    {
    }

    /** The path of a recorded session bears its ID. */
    lemma OwnKeys(sid: int)
      requires policy.Valid() && !policy.sessions.recoveryRequired && sid in policy.sessions.sessions
      ensures sid in policy.dependencies && policy.dependencies[sid].Key() in policy.resources.paths
      ensures Alone(sid, policy.dependencies, policy.sessions.sessions)
    {
      hide *;
      policy.Open();
      KeysDiffer(policy.sessions.sessions, policy.dependencies, policy.resources.paths, policy.resources.device.slots);
      AloneNow(sid, policy.dependencies, policy.sessions.sessions);
    }

    /** What a session and its path need to be given up. */
    lemma RevokeReady(sid: int)
      requires policy.Valid() && Calm() && Revocable(sid)
      ensures policy.resources.db.healthy && policy.resources.device.healthy
      ensures !policy.sessions.recoveryRequired && !policy.resources.recoveryRequired && policy.activated
      ensures sid in policy.sessions.sessions && sid in policy.dependencies && policy.dependencies[sid].Key() in policy.resources.paths
      ensures policy.resources.paths[policy.dependencies[sid].Key()].boot == policy.resources.boot
      ensures policy.dependencies.Keys <= policy.sessions.sessions.Keys
      ensures InOrder(policy.resources.paths, policy.dependencies, policy.state)
    {
      hide policy.Valid, SM.Session.ClearIn, Fits, Alone;
      OwnKeys(sid);
    }

    /** The generation stands, every path is up to date and has a dependency, and every dependency has its path. */
    ghost predicate InOrder(paths: P.PathRows, deps: map<SM.SessionId, Request>, state: PolicyState)
      reads policy.world, policy.resources.device`healthy, policy.resources.resolver
    {
      && state.phase.Active? && policy.world.qualified == Ok(true) && policy.world.bindings.Ok? && state.attachment == Some(policy.world.bindings.value)
      && policy.world.steady && policy.resources.device.healthy && policy.resources.resolver.stable
      && (forall key :: key in paths ==> UpToDate(key, paths[key], policy.resources.boot, Plans()) && exists sid :: sid in deps && deps[sid].Key() == key)
      && (forall sid :: sid in deps ==>
            && HeldFor(deps[sid], paths, policy.resources.boot, policy.resources.resolver.plans)
            && (deps[sid].natRequired ==> policy.world.natQualified == Ok(true)))
    }

    /** Giving up a session and its path leaves the rest in order. */
    lemma OrderWithout(sid: int, deps: map<SM.SessionId, Request>, deps': map<SM.SessionId, Request>, sessions: SM.Records, sessions': SM.Records,
                       flows: SM.Table, flows': SM.Table, paths: P.PathRows)
      requires InOrder(paths, deps, policy.state) && sid in deps && deps.Keys <= sessions.Keys && Alone(sid, deps, sessions)
      requires Dropped(sid, deps, deps', sessions, sessions', flows, flows') && policy.sessions.sessions == sessions'
      requires Withdrawn(deps[sid].Key(), deps', policy.dependencies, sessions', policy.sessions.sessions)
      requires forall other :: other in policy.dependencies ==> other in deps' && policy.dependencies[other] == deps'[other]
      requires policy.resources.paths == paths - {deps[sid].Key()} && !policy.resources.recoveryRequired && policy.activated && !policy.sessions.recoveryRequired
      ensures Calm()
    {
      hide InOrder, Calm, UpToDate, HeldFor;
      assert policy.dependencies == deps - {sid};
      OrderFewer(sid, deps, paths, policy.state);
      CalmInOrder();
    }

    lemma OrderFewer(sid: int, deps: map<SM.SessionId, Request>, paths: P.PathRows, state: PolicyState)
      requires InOrder(paths, deps, state) && sid in deps && forall other :: other in deps && other != sid ==> deps[other].Key() != deps[sid].Key()
      ensures InOrder(paths - {deps[sid].Key()}, deps - {sid}, state)
    {
      hide Fits, UpToDate;
      var paths', deps' := paths - {deps[sid].Key()}, deps - {sid};
      forall key | key in paths'
        ensures UpToDate(key, paths'[key], policy.resources.boot, Plans()) && exists other :: other in deps' && deps'[other].Key() == key
      {
        var other :| other in deps && deps[other].Key() == key;
        assert other in deps' && deps'[other].Key() == key;
      }
    }

    lemma CalmInOrder()
      requires InOrder(policy.resources.paths, policy.dependencies, policy.state) && policy.dependencies.Keys <= policy.sessions.sessions.Keys
      requires !policy.resources.recoveryRequired && policy.activated && !policy.sessions.recoveryRequired
      ensures Calm()
    {
      hide HeldFor, UpToDate;
    }

    /** Releases every recorded path. */
    method RecoverResources() returns (r: Outcome)
      requires policy.Valid()
      modifies policy`state, policy`activated, policy`dependencies, policy`admitted, policy.sessions, policy.sessions.journal`rows,
               policy.sessions.journal`doubts, policy.sessions.device`table, policy.store`rows, policy.store`doubts,
               policy.resources, policy.resources.db`rows, policy.resources.db`doubts, policy.resources.device`slots
      ensures !r.Crashed? ==> forall sid :: sid in policy.sessions.sessions ==> sid in old(policy.sessions.sessions)
      ensures r.Crashed? ==> policy.Durable()
      ensures policy.state.revision == old(policy.state.revision) && policy.state.digest == old(policy.state.digest)
      ensures !r.Crashed? ==> policy.Valid()
      ensures r.Done? ==> policy.resources.paths == map[] && !policy.resources.recoveryRequired
      ensures r.Done? && !old(policy.sessions.recoveryRequired) ==>
                && policy.activated == old(policy.activated) && policy.state == old(policy.state) && !policy.sessions.recoveryRequired
                && Spared(old(policy.resources.paths).Keys, old(policy.dependencies), policy.dependencies, old(policy.sessions.sessions), policy.sessions.sessions)
      ensures r.Raised? ==> policy.resources.recoveryRequired
      ensures !old(policy.activated) ==> !policy.activated
    {
      hide *;
      FenceResources();
      r := ReleaseAll(policy.resources.paths.Keys);
      if r.Done? {
        Unfence();
      }
    }

    /** Releases the given paths one by one. */
    method ReleaseAll(keys: set<P.PathKey>) returns (r: Outcome)
      requires policy.Valid()
      modifies policy`state, policy`activated, policy`dependencies, policy`admitted, policy.sessions, policy.sessions.journal`rows,
               policy.sessions.journal`doubts, policy.sessions.device`table, policy.store`rows, policy.store`doubts,
               policy.resources, policy.resources.db`rows, policy.resources.db`doubts, policy.resources.device`slots
      ensures !r.Crashed? ==> forall sid :: sid in policy.sessions.sessions ==> sid in old(policy.sessions.sessions)
      ensures r.Crashed? ==> policy.Durable()
      ensures policy.state.revision == old(policy.state.revision) && policy.state.digest == old(policy.state.digest)
      ensures !r.Crashed? ==> policy.Valid()
      ensures r.Done? ==> policy.resources.paths == old(policy.resources.paths) - keys
      // if nothing was in doubt, only the sessions that depend on these paths are withdrawn
      ensures r.Done? && !old(policy.sessions.recoveryRequired) ==>
                && policy.activated == old(policy.activated) && policy.state == old(policy.state) && !policy.sessions.recoveryRequired
                && Spared(keys, old(policy.dependencies), policy.dependencies, old(policy.sessions.sessions), policy.sessions.sessions)
      ensures keys == {} ==> r.Done? && unchanged(policy, policy.sessions, policy.sessions.journal, policy.sessions.device, policy.store,
                                                  policy.resources, policy.resources.db, policy.resources.device)
      ensures r.Done? ==> policy.resources.recoveryRequired == old(policy.resources.recoveryRequired)
      ensures r.Raised? ==> policy.resources.recoveryRequired
      ensures policy.dependencies.Keys <= old(policy.dependencies).Keys
      ensures forall sid :: sid in policy.dependencies ==> policy.dependencies[sid] == old(policy.dependencies)[sid]
      ensures !old(policy.activated) ==> !policy.activated
    {
      hide *;
      var todo := keys;
      ghost var deps := policy.dependencies;
      SparedRefl(deps, policy.sessions.sessions);
      while todo != {}
        invariant forall sid :: sid in policy.sessions.sessions ==> sid in old(policy.sessions.sessions)
        invariant policy.state.revision == old(policy.state.revision) && policy.state.digest == old(policy.state.digest)
        invariant policy.Valid() && todo <= keys
        invariant policy.resources.paths == old(policy.resources.paths) - (keys - todo)
        invariant !old(policy.sessions.recoveryRequired) ==>
                    && policy.activated == old(policy.activated) && policy.state == old(policy.state) && !policy.sessions.recoveryRequired
                    && Spared(keys - todo, deps, policy.dependencies, old(policy.sessions.sessions), policy.sessions.sessions)
        invariant keys == {} ==> unchanged(policy, policy.sessions, policy.sessions.journal, policy.sessions.device, policy.store, policy.resources,
                                           policy.resources.db, policy.resources.device)
        invariant policy.resources.recoveryRequired == old(policy.resources.recoveryRequired)
        invariant forall sid :: sid in policy.dependencies ==> sid in deps && policy.dependencies[sid] == deps[sid]
        invariant !old(policy.activated) ==> !policy.activated
        decreases todo
      {
        var key := Pick(todo);
        ghost var deps', sessions', known := policy.dependencies, policy.sessions.sessions, key in policy.resources.paths;
        r := Release(key);
        if !r.Done? {
          return;
        }
        if !old(policy.sessions.recoveryRequired) {
          SparedMore(keys - todo, key, known, deps, deps', policy.dependencies, old(policy.sessions.sessions), sessions', policy.sessions.sessions);
        }
        assert keys - (todo - {key}) == (keys - todo) + {key};
        todo := todo - {key};
      }
      assert keys - todo == keys;
      return Done;
    }

    method Unfence()
      requires policy.Valid() && policy.resources.paths.Keys == {}
      modifies policy.resources`recoveryRequired, policy.resources`apart
      ensures policy.Valid() && !policy.resources.recoveryRequired && policy.resources.paths == map[]
    {
      hide *;
      policy.Open();
      policy.resources.Reopen();
      policy.Close();
    }

    /** What the resolver answers, if it stands still. */
    ghost function Plans(): Option<map<P.PathKey, P.Plan>>
      reads policy.resources.resolver
    {
      if policy.resources.resolver.stable then Some(policy.resources.resolver.plans) else None
    }

    method SnapshotStands(key: P.PathKey) returns (current: bool)
      requires policy.Valid()
      ensures current ==> key in policy.resources.paths && UpToDate(key, policy.resources.paths[key], policy.resources.boot, Plans())
      ensures policy.resources.device.healthy && Plans().Some? && !policy.resources.recoveryRequired ==>
                (key in policy.resources.paths && UpToDate(key, policy.resources.paths[key], policy.resources.boot, Plans()) ==> current)
    {
      hide *;
      policy.Open();
      var snapshot := policy.resources.Snapshot(key);
      Looked(key, snapshot);
      current := snapshot.Ok?;
    }

    lemma Looked(key: P.PathKey, snapshot: Result<P.PathSnapshot>)
      requires snapshot.Ok? ==>
                 && key in policy.resources.paths && policy.resources.paths[key].stage.Ready? && policy.resources.paths[key].boot == policy.resources.boot
                 && (policy.resources.resolver.stable ==>
                       key in policy.resources.resolver.plans && policy.resources.resolver.plans[key] == policy.resources.paths[key].plan)
      requires policy.resources.device.healthy && policy.resources.resolver.stable && !policy.resources.recoveryRequired
               && key in policy.resources.paths && policy.resources.paths[key].boot == policy.resources.boot
               && key in policy.resources.resolver.plans && policy.resources.resolver.plans[key] == policy.resources.paths[key].plan
               ==> snapshot.Ok?
      ensures snapshot.Ok? ==> key in policy.resources.paths && UpToDate(key, policy.resources.paths[key], policy.resources.boot, Plans())
      ensures policy.resources.device.healthy && Plans().Some? && !policy.resources.recoveryRequired ==>
                (key in policy.resources.paths && UpToDate(key, policy.resources.paths[key], policy.resources.boot, Plans()) ==> snapshot.Ok?)
    {
    }

    /** Gives a path back unless it is current. */
    method CheckPath(key: P.PathKey) returns (r: Outcome)
      requires policy.Valid() && !policy.resources.recoveryRequired && key in policy.resources.paths
      modifies policy`state, policy`activated, policy`dependencies, policy`admitted, policy.sessions, policy.sessions.journal`rows,
               policy.sessions.journal`doubts, policy.sessions.device`table, policy.store`rows, policy.store`doubts,
               policy.resources, policy.resources.db`rows, policy.resources.db`doubts, policy.resources.device`slots
      ensures !r.Crashed? ==> forall sid :: sid in policy.sessions.sessions ==> sid in old(policy.sessions.sessions)
      ensures r.Crashed? ==> policy.Durable()
      ensures policy.state.revision == old(policy.state.revision) && policy.state.digest == old(policy.state.digest)
      ensures !r.Crashed? ==> policy.Valid()
      ensures !old(policy.activated) ==> !policy.activated
      ensures r.Done? ==> !policy.resources.recoveryRequired
      ensures r.Done? ==>
                if key in policy.resources.paths then
                  policy.resources.paths == old(policy.resources.paths) && UpToDate(key, policy.resources.paths[key], policy.resources.boot, Plans())
                else policy.resources.paths == old(policy.resources.paths) - {key}
      ensures r.Done? && !old(policy.sessions.recoveryRequired) ==>
                && policy.activated == old(policy.activated) && policy.state == old(policy.state) && !policy.sessions.recoveryRequired
                && Spared(old(policy.resources.paths).Keys - policy.resources.paths.Keys, old(policy.dependencies), policy.dependencies,
                          old(policy.sessions.sessions), policy.sessions.sessions)
      ensures policy.resources.device.healthy && Plans().Some? && UpToDate(key, old(policy.resources.paths)[key], policy.resources.boot, Plans()) ==>
                && r.Done?
                && unchanged(policy, policy.sessions, policy.sessions.journal, policy.sessions.device, policy.store, policy.resources,
                             policy.resources.db, policy.resources.device)
    {
      hide *;
      ghost var deps, sessions := policy.dependencies, policy.sessions.sessions;
      SparedRefl(deps, sessions);
      var current := SnapshotStands(key);
      if current {
        return Done;
      }
      r := Release(key);
      if r.Done? && !old(policy.sessions.recoveryRequired) {
        SparedMore({}, key, true, deps, deps, policy.dependencies, sessions, sessions, policy.sessions.sessions);
        assert old(policy.resources.paths).Keys - policy.resources.paths.Keys == {} + {key};
      }
    }

    /** Gives back every path that is no longer current, or all of them if the resource owner is fenced. */
    method ReconcileResources() returns (r: Outcome)
      requires policy.Valid()
      modifies policy`state, policy`activated, policy`dependencies, policy`admitted, policy.sessions, policy.sessions.journal`rows,
               policy.sessions.journal`doubts, policy.sessions.device`table, policy.store`rows, policy.store`doubts,
               policy.resources, policy.resources.db`rows, policy.resources.db`doubts, policy.resources.device`slots
      ensures !r.Crashed? ==> forall sid :: sid in policy.sessions.sessions ==> sid in old(policy.sessions.sessions)
      ensures r.Crashed? ==> policy.Durable()
      ensures policy.state.revision == old(policy.state.revision) && policy.state.digest == old(policy.state.digest)
      ensures !r.Crashed? ==> policy.Valid()
      ensures r.Done? ==> !policy.resources.recoveryRequired
      ensures !old(policy.activated) ==> !policy.activated
      // what is left is up to date, and if every call answers, whatever was up to date is left
      ensures r.Done? ==> forall key :: key in policy.resources.paths ==>
                && key in old(policy.resources.paths) && policy.resources.paths[key] == old(policy.resources.paths)[key]
                && UpToDate(key, policy.resources.paths[key], policy.resources.boot, Plans())
      ensures r.Done? && !old(policy.resources.recoveryRequired) && policy.resources.device.healthy && Plans().Some? ==>
                forall key :: key in old(policy.resources.paths) && UpToDate(key, old(policy.resources.paths)[key], policy.resources.boot, Plans()) ==>
                  key in policy.resources.paths
      ensures r.Done? && !old(policy.sessions.recoveryRequired) ==>
                && policy.activated == old(policy.activated) && policy.state == old(policy.state) && !policy.sessions.recoveryRequired
                && Spared(old(policy.resources.paths).Keys - policy.resources.paths.Keys, old(policy.dependencies), policy.dependencies,
                          old(policy.sessions.sessions), policy.sessions.sessions)
      ensures old(Standing()) ==> r.Done? && unchanged(policy, policy.sessions, policy.sessions.journal, policy.sessions.device, policy.store,
                                                       policy.resources, policy.resources.db, policy.resources.device)
    {
      hide *;
      if policy.resources.recoveryRequired {
        NotStanding();
        r := RecoverResources();
        if r.Done? {
          assert old(policy.resources.paths).Keys - policy.resources.paths.Keys == old(policy.resources.paths).Keys;
        }
        return;
      }
      ghost var standing := Standing();
      StandingFacts();
      ghost var boot, plans := policy.resources.boot, Plans();
      var todo := policy.resources.paths.Keys;
      ghost var keys := todo;
      CheckedNone(policy.resources.paths, boot, plans, policy.resources.device.healthy);
      SparedRefl(policy.dependencies, policy.sessions.sessions);
      assert keys - policy.resources.paths.Keys == {};
      while todo != {}
        invariant forall sid :: sid in policy.sessions.sessions ==> sid in old(policy.sessions.sessions)
        invariant policy.state.revision == old(policy.state.revision) && policy.state.digest == old(policy.state.digest)
        invariant policy.Valid() && !policy.resources.recoveryRequired
        invariant !old(policy.activated) ==> !policy.activated
        invariant todo <= policy.resources.paths.Keys && plans == Plans()
        invariant Checked(todo, old(policy.resources.paths), policy.resources.paths, boot, plans, policy.resources.device.healthy)
        invariant !old(policy.sessions.recoveryRequired) ==>
                    && policy.activated == old(policy.activated) && policy.state == old(policy.state) && !policy.sessions.recoveryRequired
                    && Spared(keys - policy.resources.paths.Keys, old(policy.dependencies), policy.dependencies, old(policy.sessions.sessions), policy.sessions.sessions)
        invariant standing ==> unchanged(policy, policy.sessions, policy.sessions.journal, policy.sessions.device, policy.store, policy.resources,
                                         policy.resources.db, policy.resources.device)
        decreases todo
      {
        var key := Pick(todo);
        ghost var deps, sessions, paths := policy.dependencies, policy.sessions.sessions, policy.resources.paths;
        ghost var before := paths.Keys;
        CheckedOne(key, todo, old(policy.resources.paths), paths, boot, plans, policy.resources.device.healthy);
        r := CheckPath(key);
        if !r.Done? {
          return;
        }
        if !old(policy.sessions.recoveryRequired) {
          SparedTogether(keys - before, before - policy.resources.paths.Keys, old(policy.dependencies), deps, policy.dependencies,
                         old(policy.sessions.sessions), sessions, policy.sessions.sessions);
        }
        assert keys - policy.resources.paths.Keys == (keys - before) + (before - policy.resources.paths.Keys);
        CheckedMore(key, todo, old(policy.resources.paths), paths, policy.resources.paths, boot, plans, policy.resources.device.healthy);
        todo := todo - {key};
      }
      CheckedAll(old(policy.resources.paths), policy.resources.paths, boot, plans, policy.resources.device.healthy);
      return Done;
    }

    /** Every path is up to date and every call that a reconciliation of the paths makes will answer. */
    ghost predicate Standing()
      reads policy.resources, policy.resources.device, policy.resources.resolver
    {
      && !policy.resources.recoveryRequired && policy.resources.device.healthy && policy.resources.resolver.stable
      && forall key :: key in policy.resources.paths ==> UpToDate(key, policy.resources.paths[key], policy.resources.boot, Plans())
    }

    lemma StandingFacts()
      ensures Standing() ==>
                && policy.resources.device.healthy && Plans().Some?
                && forall key :: key in policy.resources.paths ==> UpToDate(key, policy.resources.paths[key], policy.resources.boot, Plans())
    {
    }

    lemma NotStanding()
      requires policy.resources.recoveryRequired
      ensures !Standing()
    {
    }

    /** The periodic pass: sessions, then paths, then paths that no session depends on. */
    method Reconcile() returns (r: Outcome)
      requires policy.Valid()
      modifies policy`state, policy`activated, policy`dependencies, policy`admitted, policy.sessions, policy.sessions.journal`rows,
               policy.sessions.journal`doubts, policy.sessions.device`table, policy.store`rows, policy.store`doubts,
               policy.resources, policy.resources.db`rows, policy.resources.db`doubts, policy.resources.device`slots
      ensures !r.Crashed? ==> forall sid :: sid in policy.sessions.sessions ==> sid in old(policy.sessions.sessions)
      ensures r.Crashed? ==> policy.Durable()
      ensures policy.state.revision == old(policy.state.revision) && policy.state.digest == old(policy.state.digest)
      ensures !r.Crashed? ==> policy.Valid()
      ensures r.Raised? ==> !policy.activated
      ensures r.Done? && !old(policy.activated) ==> policy.sessions.sessions == map[] && policy.state.phase.Blocked?
      ensures old(!policy.activated && Idle()) ==> r.Done? && Idle()
      ensures !old(policy.activated) ==> !policy.activated
      // every path that is left was there, is up to date and has a dependency
      ensures r.Done? ==> !policy.resources.recoveryRequired && !policy.sessions.recoveryRequired
      ensures r.Done? ==> forall key :: key in policy.resources.paths ==>
                && key in old(policy.resources.paths) && policy.resources.paths[key] == old(policy.resources.paths)[key]
                && UpToDate(key, policy.resources.paths[key], policy.resources.boot, Plans())
                && exists sid :: sid in policy.dependencies && policy.dependencies[sid].Key() == key
      // and if admission goes on, every session on such a path is
      ensures r.Done? && policy.activated ==>
                && old(policy.activated) && policy.state == old(policy.state)
                && forall sid :: sid in old(policy.sessions.sessions) && sid in old(policy.dependencies) && old(policy.dependencies)[sid].Key() in policy.resources.paths ==>
                     sid in policy.sessions.sessions
      ensures old(Calm()) ==>
                && r.Done?
                && unchanged(policy, policy.sessions, policy.sessions.journal, policy.sessions.device, policy.store, policy.resources,
                             policy.resources.db, policy.resources.device)
    {
      hide *;
      CalmFacts();
      IdleFacts();
      if policy.resources.recoveryRequired {
        policy.Deactivate();
      }
      r := policy.Reconcile();
      ghost var deps', sessions', paths' := policy.dependencies, policy.sessions.sessions, policy.resources.paths;
      if r.Done? {
        Known();
        IdleFacts();
        r := ReconcilePaths();
        if r.Done? && policy.activated {
          SparedOnes(paths'.Keys, policy.resources.paths.Keys, deps', policy.dependencies, sessions', policy.sessions.sessions);
        }
      }
      if r.Raised? {
        policy.Deactivate();
      }
    }

    /** The part of the pass that follows the sessions. */
    method ReconcilePaths() returns (r: Outcome)
      requires policy.Valid() && !policy.sessions.recoveryRequired
      modifies policy`state, policy`activated, policy`dependencies, policy`admitted, policy.sessions, policy.sessions.journal`rows,
               policy.sessions.journal`doubts, policy.sessions.device`table, policy.store`rows, policy.store`doubts,
               policy.resources, policy.resources.db`rows, policy.resources.db`doubts, policy.resources.device`slots
      ensures !r.Crashed? ==> forall sid :: sid in policy.sessions.sessions ==> sid in old(policy.sessions.sessions)
      ensures r.Crashed? ==> policy.Durable()
      ensures policy.state.revision == old(policy.state.revision) && policy.state.digest == old(policy.state.digest)
      ensures !r.Crashed? ==> policy.Valid()
      ensures !old(policy.activated) ==> !policy.activated
      ensures r.Done? ==> !policy.resources.recoveryRequired && !policy.sessions.recoveryRequired
      ensures r.Done? ==> policy.activated == old(policy.activated) && policy.state == old(policy.state)
      ensures r.Done? ==> forall key :: key in policy.resources.paths ==>
                && key in old(policy.resources.paths) && policy.resources.paths[key] == old(policy.resources.paths)[key]
                && UpToDate(key, policy.resources.paths[key], policy.resources.boot, Plans())
                && exists sid :: sid in policy.dependencies && policy.dependencies[sid].Key() == key
      ensures r.Done? ==> Spared(old(policy.resources.paths).Keys - policy.resources.paths.Keys, old(policy.dependencies), policy.dependencies,
                                 old(policy.sessions.sessions), policy.sessions.sessions)
      ensures old(Standing() && Referenced()) ==> r.Done? && unchanged(policy, policy.sessions, policy.sessions.journal, policy.sessions.device,
                                                                       policy.store, policy.resources, policy.resources.db, policy.resources.device)
    {
      hide *;
      ghost var paths, referenced := policy.resources.paths, Referenced();
      ReferencedFacts();
      r := ReconcileResources();
      if r.Done? {
        ghost var deps, sessions, left := policy.dependencies, policy.sessions.sessions, policy.resources.paths;
        var live := set sid | sid in policy.dependencies :: policy.dependencies[sid].Key();
        var idle := policy.resources.paths.Keys - live;
        r := ReleaseAll(idle);
        if r.Done? {
          SparedTogether(paths.Keys - left.Keys, idle, old(policy.dependencies), deps, policy.dependencies, old(policy.sessions.sessions), sessions, policy.sessions.sessions);
          assert (paths.Keys - left.Keys) + idle == paths.Keys - policy.resources.paths.Keys;
        }
      }
    }

    /** Nothing that a withdrawal could change has changed. */
    twostate predicate Untouched()
      reads policy, policy.sessions, policy.sessions.journal, policy.sessions.device, policy.store, policy.resources, policy.resources.db, policy.resources.device
    {
      unchanged(policy, policy.sessions, policy.sessions.journal, policy.sessions.device, policy.store, policy.resources, policy.resources.db, policy.resources.device)
    }

    /** Nothing has changed under any session or path, and every path has its session. */
    ghost predicate Calm()
      reads policy, policy.sessions, policy.resources, policy.resources.device, policy.resources.resolver, policy.world
    {
      policy.Current() && Standing() && Referenced()
    }

    ghost predicate Referenced()
      reads policy, policy.sessions, policy.resources
    {
      && (forall key :: key in policy.resources.paths ==> exists sid :: sid in policy.sessions.sessions && sid in policy.dependencies && policy.dependencies[sid].Key() == key)
      && (forall sid :: sid in policy.dependencies ==> sid in policy.sessions.sessions)
    }

    lemma CurrentFacts()
      ensures policy.Current() ==> policy.AdmissionEnabled() && policy.activated
    {
    }

    /** What an open owner records has its dependency. */
    lemma Known()
      requires policy.Valid() && !policy.sessions.recoveryRequired
      ensures forall sid :: sid in policy.sessions.sessions ==> sid in policy.dependencies
    {
    }

    /** The resolver gives the plan, and every other path is up to date and has its session. */
    ghost predicate Prepared(q: Request, plan: P.Plan, paths: P.PathRows, sessions: SM.Records, deps: map<SM.SessionId, Request>)
      reads policy.resources.device`healthy, policy.resources.resolver
    {
      && policy.resources.device.healthy && policy.resources.resolver.stable
      && q.Key() in policy.resources.resolver.plans && policy.resources.resolver.plans[q.Key()] == plan
      && (forall key :: key in paths ==> UpToDate(key, paths[key], policy.resources.boot, Plans()))
      && (forall key :: key in paths ==> exists sid :: sid in sessions && sid in deps && deps[sid].Key() == key)
    }

    lemma PreparedNow(q: Request, plan: P.Plan)
      requires Calm() && Welcome(q, plan)
      ensures Prepared(q, plan, policy.resources.paths, policy.sessions.sessions, policy.dependencies)
    {
      hide policy.Current, policy.Decided, Fits, policy.Resolvable, policy.Stocked, Entries, P.PathOwner.FreeOf, P.Plan.Valid;
    }

    /** An admission on a path of its own leaves everything in order. */
    lemma CalmGrows(q: Request, plan: P.Plan, asked: Request, before: P.PathRows, sessions: SM.Records, deps: map<SM.SessionId, Request>,
                    flows: SM.Table, issued: seq<int>)
      requires policy.Current() && policy.Valid() && Admitted(q, plan, sessions, flows, issued) && policy.dependencies[q.sid] == asked
      requires q.Key() in policy.resources.paths && policy.resources.paths == before[q.Key() := policy.resources.paths[q.Key()]]
      requires Prepared(q, plan, before, sessions, deps)
      requires forall sid :: sid in policy.dependencies ==> sid in policy.sessions.sessions
      requires forall sid :: sid in policy.dependencies ==> sid == q.sid || (sid in deps && policy.dependencies[sid] == deps[sid])
      ensures Calm()
    {
      hide policy.Valid, policy.Outdated, policy.AllStand, P.Programmed, Directions, policy.Carried, policy.Attached;
      Known();
      CurrentFacts();
      SameKey(q, asked);
    }

    lemma ReferencedFacts()
      ensures Referenced() ==> forall key :: key in policy.resources.paths ==> exists sid :: sid in policy.dependencies && policy.dependencies[sid].Key() == key
    {
    }

    /** Nothing is recorded, and every call of a drain will answer. */
    ghost predicate Idle()
      reads policy`dependencies, policy.sessions, policy.sessions.journal`healthy, policy.sessions.device`healthy, policy.store`healthy, policy.resources,
            policy.resources.device, policy.resources.resolver
    {
      && Standing() && policy.resources.paths == map[] && policy.sessions.sessions == map[] && policy.dependencies == map[]
      && policy.store.healthy && policy.sessions.journal.healthy && policy.sessions.device.healthy
    }

    lemma IdleFacts()
      ensures Idle() <==>
                && Standing() && policy.resources.paths == map[] && policy.sessions.sessions == map[] && policy.dependencies == map[]
                && policy.store.healthy && policy.sessions.journal.healthy && policy.sessions.device.healthy
      ensures Idle() ==> Referenced() && SM.Clear(policy.sessions.sessions, policy.sessions.device.table)
      ensures policy.resources.paths == map[] && policy.dependencies == map[] ==> Referenced()
    {
    }

    /** An activation of an idle owner leaves everything in order. */
    lemma CalmAtStart()
      requires Idle() && policy.activated && policy.state.phase.Active? && !policy.sessions.recoveryRequired
      requires policy.world.steady && policy.world.qualified == Ok(true) && policy.world.bindings.Ok?
      requires policy.state.attachment == Some(policy.world.bindings.value)
      ensures Calm()
    {
    }

    lemma CalmFacts()
      ensures Calm() <==> policy.Current() && Standing() && Referenced()
      ensures Calm() ==> forall key :: key in policy.resources.paths ==>
                exists sid :: sid in policy.sessions.sessions && sid in policy.dependencies && policy.dependencies[sid].Key() == key
      ensures Calm() ==> policy.AdmissionEnabled() && policy.dependencies.Keys <= policy.sessions.sessions.Keys
      ensures Calm() ==> policy.activated && !policy.sessions.recoveryRequired && !policy.resources.recoveryRequired
    {
    }

    method Recover() returns (r: Outcome)
      requires policy.Valid()
      modifies policy`state, policy`activated, policy`dependencies, policy`admitted, policy.sessions, policy.sessions.journal`rows,
               policy.sessions.journal`doubts, policy.sessions.device`table, policy.store`rows, policy.store`doubts,
               policy.resources, policy.resources.db`rows, policy.resources.db`doubts, policy.resources.device`slots
      ensures !r.Crashed? ==> forall sid :: sid in policy.sessions.sessions ==> sid in old(policy.sessions.sessions)
      ensures r.Crashed? ==> policy.Durable()
      ensures policy.state.revision == old(policy.state.revision) && policy.state.digest == old(policy.state.digest)
      ensures !r.Crashed? ==> policy.Valid() && !policy.activated
      ensures r.Done? ==> policy.resources.paths == map[] && !policy.resources.recoveryRequired
    {
      hide *;
      policy.Deactivate();
      r := policy.Reconcile();
      if r.Done? {
        r := RecoverResources();
      }
    }
  }

  lemma KeysDiffer(sessions: SM.Records, dependencies: map<SM.SessionId, Request>, paths: P.PathRows, slots: P.SlotMap)
    requires Anchors(sessions, dependencies, paths, slots) && forall sid :: sid in sessions ==> sid in dependencies
    ensures forall sid :: sid in sessions ==> dependencies[sid].Key() in paths
    ensures forall sid, other :: sid in sessions && other in sessions && sid != other ==> dependencies[sid].Key() != dependencies[other].Key()
  {
    forall sid | sid in sessions
      ensures dependencies[sid].Key() in paths && dependencies[sid].Key().sid == sid
    {
      assert AnchoredAt(sid, sessions[sid], dependencies[sid].Key(), paths, slots);
    }
  }

  lemma SameKey(q: Request, asked: Request)
    requires asked == q.(path := asked.path)
    ensures asked.Key() == q.Key()
  {
  }

  lemma ProgrammedOrder(plan: P.Plan, order: seq<P.Slot>, slots: P.SlotMap)
    requires P.Programmed(plan, order, slots)
    ensures |order| == 4
  {
  }

  /** A session's entries forward through this next-hop slot. */
  predicate RefersTo(s: SM.Session, x: P.Slot) {
    x.kind.NextHop? && (s.forward.Hop() == Some(x.index) || s.backward.Hop() == Some(x.index))
  }

  lemma Elsewhere(key: P.PathKey, sessions: SM.Records, dependencies: map<SM.SessionId, Request>, paths: P.PathRows, slots: P.SlotMap)
    requires Anchors(sessions, dependencies, paths, slots) && (forall sid :: sid in sessions ==> sid in dependencies)
    requires forall sid :: sid in dependencies ==> dependencies[sid].Key() != key
    ensures AnchoredElsewhere(key, sessions, dependencies, paths, slots)
  {
  }

  lemma ReclaimShape(key: P.PathKey, rec: P.PathRecord, boot: nat, paths: P.PathRows, pathRows: P.PathRows, slots: P.SlotMap,
                     paths': P.PathRows, pathRows': P.PathRows, slots': P.SlotMap)
    requires P.Reclaiming(key, rec, paths, pathRows, slots, paths', pathRows', slots') && P.OnlyOwn(rec, boot, slots, slots')
    ensures key !in paths' ==> paths' == paths - {key}
    ensures forall x :: x in slots && x !in slots' ==> x in rec.held && rec.boot == boot
  {
  }

  /** A session anchored elsewhere names none of this path's next hops. */
  lemma Unreferenced(key: P.PathKey, sessions: SM.Records, dependencies: map<SM.SessionId, Request>, paths: P.PathRows, slots: P.SlotMap, foreign: P.SlotMap)
    requires AnchoredElsewhere(key, sessions, dependencies, paths, slots) && key in paths && P.Commissioned(paths, foreign)
    ensures forall x, sid :: x in paths[key].held && sid in sessions ==> !RefersTo(sessions[sid], x)
  {
  }
}
