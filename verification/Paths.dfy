/** Durable ownership of next-hop and source-MAC slots. */
module Paths {
  import opened Outcomes
  import opened FlowCodec

  datatype Kind = Smac | NextHop
  datatype Slot = Slot(kind: Kind, index: int)

  /** Contents of a slot.  The hardware generates the ECC of a next hop, which refers to a source MAC by index. */
  datatype SlotData =
    | MacData(mac: int)
    | HopData(ecc: int, lif: int, destinationMac: int, mtu: int, vlan: int, smac: int)
  {
    function Payload(): SlotData {
      match this
      case MacData(_) => this
      case HopData(_, _, _, _, _, _) => this.(ecc := 0)
    }
    predicate Matches(actual: SlotData) {
      Payload() == actual.Payload()
    }
  }

  datatype Item = Item(slot: Slot, data: SlotData)

  /** Six bytes, not all zero, and not a group address. */
  predicate UnicastMac(mac: int) {
    0 < mac < 0x1_0000_0000_0000 && mac / 0x100_0000_0000 % 2 == 0
  }

  /** One direction of a path; no VLAN is 0. */
  datatype Direction = Direction(ingress: int, egress: int, destination: Address, zone: int, lif: int, sourceMac: int,
                                 destinationMac: int, vlan: int, mtu: int,
                                 route: string, neighbor: string, attachment: string)
  {
    predicate Valid() {
      && Uint(ingress, U16) && Uint(egress, U16) && Uint(zone, U16) && Uint(lif, U16)
      && ingress != egress && Unicast(destination)
      && UnicastMac(sourceMac) && UnicastMac(destinationMac) && 64 <= mtu <= 9216 && 0 <= vlan <= 4094
    }
  }

  datatype Plan = Plan(natDigest: string, forward: Direction, backward: Direction) {
    predicate Valid() {
      && forward.Valid() && backward.Valid()
      && forward.ingress == backward.egress && forward.egress == backward.ingress
    }
  }

  /** Identity of a path: a digest of these three fields, taken as collision-free. */
  datatype PathKey = PathKey(sid: int, revision: int, policy: string)

  datatype Stage = Installing | Ready | Removing

  /** A journaled allocation: four slots in the order they are written, and what belongs in each. */
  datatype PathRecord = PathRecord(boot: nat, stage: Stage, plan: Plan, order: seq<Slot>, held: map<Slot, SlotData>) {
    /** Both source MACs come before the next hops, which refer to them. */
    ghost predicate WellFormed() {
      && |order| == 4 && (forall s :: s in held <==> s in order)
      && (forall i, j :: 0 <= i < j < 4 ==> order[i] != order[j])
      && order[0].kind.Smac? && order[1].kind.Smac? && order[2].kind.NextHop? && order[3].kind.NextHop?
      && RefersTo(order[2], order[0]) && RefersTo(order[3], order[1])
    }
    ghost predicate RefersTo(hop: Slot, mac: Slot) {
      hop in held && held[hop].HopData? && held[hop].smac == mac.index
    }
    /** The slot holds what the record put there, and a next hop stands beside both of the record's source MACs. */
    ghost predicate Keeps(s: Slot, slots: SlotMap) {
      && s in held && Holds(held, s, slots)
      && (s.kind.NextHop? ==> |order| == 4 && InUse(order[0], slots) && InUse(order[1], slots))
    }
    ghost predicate InUse(s: Slot, slots: SlotMap) {
      s in held && Holds(held, s, slots)
    }
    predicate SameSlots(other: PathRecord) {
      boot == other.boot && plan == other.plan && order == other.order && held == other.held
    }
    function Snapshot(): PathSnapshot
      requires |order| == 4
    {
      PathSnapshot(plan.natDigest, plan.forward, plan.backward, order[2].index, order[3].index)
    }
  }

  function HopFor(d: Direction, smac: int): SlotData {
    HopData(0, d.lif, d.destinationMac, d.mtu, d.vlan, smac)
  }

  /** The record of a fresh allocation. */
  function Allocation(boot: nat, plan: Plan, smacs: (int, int), hops: (int, int)): (rec: PathRecord)
    requires smacs.0 != smacs.1 && hops.0 != hops.1
    ensures rec.WellFormed()
  {
    var m0, m1, h0, h1 := Slot(Smac, smacs.0), Slot(Smac, smacs.1), Slot(NextHop, hops.0), Slot(NextHop, hops.1);
    PathRecord(boot, Installing, plan, [m0, m1, h0, h1],
               map[m0 := MacData(plan.forward.sourceMac), m1 := MacData(plan.backward.sourceMac),
                   h0 := HopFor(plan.forward, smacs.0), h1 := HopFor(plan.backward, smacs.1)])
  }

  datatype PathSnapshot = PathSnapshot(natDigest: string, forward: Direction, backward: Direction, hop0: int, hop1: int)

  type SlotMap = map<Slot, SlotData>
  type PathRows = map<PathKey, PathRecord>

  /** This slot holds what the record says belongs there. */
  predicate Holds(held: SlotMap, s: Slot, slots: SlotMap)
    requires s in held
  {
    s in slots && held[s].Matches(slots[s])
  }

  /** Everything a record names is in its slot. */
  ghost predicate InSlots(held: SlotMap, slots: SlotMap) {
    forall s :: s in held ==> Holds(held, s, slots)
  }

  /** Each direction of the plan has its own frame in the slots: its source MAC, and a next hop that sends its traffic out of
      its own LIF to its own neighbour under that source MAC. */
  predicate Programmed(plan: Plan, order: seq<Slot>, slots: SlotMap) {
    && |order| == 4 && (forall i :: 0 <= i < 4 ==> order[i] in slots)
    && slots[order[0]] == MacData(plan.forward.sourceMac) && slots[order[1]] == MacData(plan.backward.sourceMac)
    && slots[order[2]].HopData? && slots[order[3]].HopData?
    && slots[order[2]].lif == plan.forward.lif && slots[order[3]].lif == plan.backward.lif
    && slots[order[2]].destinationMac == plan.forward.destinationMac && slots[order[3]].destinationMac == plan.backward.destinationMac
    && slots[order[2]].mtu == plan.forward.mtu && slots[order[3]].mtu == plan.backward.mtu
    && slots[order[2]].vlan == plan.forward.vlan && slots[order[3]].vlan == plan.backward.vlan
    && slots[order[2]].smac == order[0].index && slots[order[3]].smac == order[1].index
  }

  lemma AllocationIsProgrammed(boot: nat, plan: Plan, smacs: (int, int), hops: (int, int))
    requires smacs.0 != smacs.1 && hops.0 != hops.1
    ensures var rec := Allocation(boot, plan, smacs, hops); forall slots :: InSlots(rec.held, slots) ==> Programmed(plan, rec.order, slots)
  {
    var rec := Allocation(boot, plan, smacs, hops);
    forall slots | InSlots(rec.held, slots)
      ensures Programmed(plan, rec.order, slots)
    {
      assert forall i :: 0 <= i < 4 ==> Holds(rec.held, rec.order[i], slots);
    }
  }

  /** No next hop of a record is in its slot without both of the record's source MACs in theirs. */
  ghost predicate HopsSupported(held: SlotMap, slots: SlotMap) {
    forall h: Slot, m: Slot :: h in held && m in held && h.kind.NextHop? && m.kind.Smac? && h in slots ==> Holds(held, m, slots)
  }

  ghost predicate SlotsApart(a: SlotMap, b: SlotMap) {
    forall s :: s in a ==> s !in b
  }

  /** No slot belongs to two records. */
  ghost predicate Disjoint(paths: PathRows) {
    forall a, b :: a in paths && b in paths && a != b ==> SlotsApart(paths[a].held, paths[b].held)
  }

  /** Every slot in use that is not foreign belongs to a record, with the record's contents, and every next hop to one
      whose source MACs are in place. */
  ghost predicate SlotsCovered(paths: PathRows, slots: SlotMap, foreign: SlotMap) {
    forall s :: s in slots && s !in foreign ==> exists k :: k in paths && paths[k].Keeps(s, slots)
  }

  /** Two records name no common slot, or the very same four. */
  ghost predicate Lined(a: PathRecord, b: PathRecord) {
    SlotsApart(a.held, b.held) || a.order == b.order
  }

  ghost predicate Aligned(p: PathRows, q: PathRows) {
    forall a, b :: a in p && b in q ==> Lined(p[a], q[b])
  }

  ghost predicate Within(live: PathRows, rows: PathRows) {
    forall k :: k in live ==> k in rows && rows[k] == live[k]
  }

  /** These records account for all that is in use, and no slot belongs to two of them. */
  ghost predicate Upheld(live: PathRows, slots: SlotMap, foreign: SlotMap) {
    SlotsCovered(live, slots, foreign) && Disjoint(live)
  }

  /** A row that memory lacks is one whose last call was not acknowledged. */
  ghost predicate Suspected(paths: PathRows, rows: PathRows, doubts: set<PathKey>) {
    forall k :: k in rows ==> k in paths || k in doubts
  }

  /** Records name four slots that were free when they were written. */
  ghost predicate Commissioned(paths: PathRows, foreign: SlotMap) {
    forall k :: k in paths ==> paths[k].WellFormed() && forall s :: s in paths[k].held ==> s !in foreign
  }

  class SlotTable {
    var slots: SlotMap
    var foreign: SlotMap      // what was there before this owner; no owner reads it
    var healthy: bool

    ghost predicate Valid()
      reads this
    {
      forall s :: s in foreign ==> s in slots && slots[s] == foreign[s]
    }

    constructor (contents: SlotMap)
      ensures Valid() && slots == contents && foreign == contents
    {
      slots, foreign, healthy := contents, contents, true;
    }

    method Fetch(s: Slot) returns (r: Result<Option<SlotData>>)
      ensures r.Ok? ==> r.value == if s in slots then Some(slots[s]) else None
      ensures healthy ==> r.Ok?
    {
      var answered: bool := *;
      if !healthy && !answered {
        return Error;
      }
      return Ok(if s in slots then Some(slots[s]) else None);
    }

    /** Writes an empty slot; the stored ECC is the hardware's own. */
    method Insert(s: Slot, d: SlotData) returns (r: Outcome)
      requires Valid() && s !in slots
      modifies this`slots
      ensures Valid()
      ensures slots == old(slots) || (s in slots && d.Matches(slots[s]) && slots == old(slots)[s := slots[s]])
      ensures healthy ==> r.Done? && s in slots
    {
      var ecc: int := *;
      var effective: bool := *;
      r := *;
      if healthy {
        effective, r := true, Done;
      }
      if effective {
        slots := slots[s := if d.HopData? then d.(ecc := ecc) else d];
      }
    }

    method Delete(s: Slot) returns (r: Outcome)
      requires Valid() && s !in foreign
      modifies this`slots
      ensures Valid()
      ensures slots == old(slots) || slots == old(slots) - {s}
      ensures healthy ==> r.Done? && s !in slots
    {
      var effective: bool := *;
      r := *;
      if healthy {
        effective, r := true, Done;
      }
      if effective {
        slots := slots - {s};
      }
    }
  }

  /** The trusted resolver of current paths.  Unless it is stable its answers may change from call to call. */
  class Resolver {
    var plans: map<PathKey, Plan>
    var stable: bool

    method Current(key: PathKey) returns (p: Option<Plan>)
      ensures stable ==> p == if key in plans then Some(plans[key]) else None
    {
      p := *;
      if stable {
        p := if key in plans then Some(plans[key]) else None;
      }
    }
  }

  // -------------------------------------------------------- invariants of the owner

  ghost predicate AgreeExcept(a: PathRows, b: PathRows, key: PathKey) {
    forall k :: k != key ==> (k in a <==> k in b) && (k in a ==> a[k] == b[k])
  }

  ghost predicate Unused(held: SlotMap, slots: SlotMap) {
    forall s :: s in held ==> s !in slots
  }

  /** A path the database has lost holds no slot. */
  ghost predicate Backed(paths: PathRows, rows: PathRows, slots: SlotMap) {
    forall k :: k in paths ==> if k in rows then rows[k].SameSlots(paths[k]) else Unused(paths[k].held, slots)
  }

  /** What survives process death, whatever became of database writes: everything in use belongs to rows that share no
      slot, every next hop beside its source MACs, and rows that do share a slot share all four. */
  ghost predicate Sound(rows: PathRows, slots: SlotMap, foreign: SlotMap) {
    && Commissioned(rows, foreign) && Aligned(rows, rows)
    && exists live: PathRows :: Within(live, rows) && Upheld(live, slots, foreign)
  }

  /** What memory adds to the durable state, settled or not. */
  ghost predicate Tracked(paths: PathRows, rows: PathRows, slots: SlotMap, foreign: SlotMap, doubts: set<PathKey>) {
    && Commissioned(paths, foreign) && Commissioned(rows, foreign) && Backed(paths, rows, slots) && Suspected(paths, rows, doubts)
    && Aligned(paths, paths) && Aligned(paths, rows) && Aligned(rows, rows)
    && exists live: PathRows :: Within(live, paths) && Upheld(live, slots, foreign)
  }

  ghost predicate Settled(paths: PathRows, rows: PathRows, slots: SlotMap) {
    && Disjoint(paths)
    && forall k :: k in paths ==> k in rows && rows[k] == paths[k] && paths[k].stage.Ready? && InSlots(paths[k].held, slots)
  }

  /** Where an acquisition stands: only its own record has changed, and every slot it wrote is that record's. */
  ghost predicate Acquiring(key: PathKey, rec: PathRecord, paths: PathRows, rows: PathRows, slots: SlotMap,
                            paths': PathRows, rows': PathRows, slots': SlotMap)
  {
    && AgreeExcept(paths, paths', key) && AgreeExcept(rows, rows', key)
    && (key in paths' ==> paths'[key].SameSlots(rec) && key in rows')
    && (key in rows' ==> rows'[key].SameSlots(rec) || (key in rows && rows'[key] == rows[key]))
    && (key in paths' ==> rows'[key].SameSlots(rec))
    && (forall s :: s in slots ==> s in slots' && slots'[s] == slots[s])
    && (forall s :: s in slots' && s !in slots ==> s in rec.held && Holds(rec.held, s, slots') && key in paths')
    && HopsSupported(rec.held, slots')
  }

  /** Where a reclaim stands: one record may have changed stage, or be gone once its slots are free. */
  ghost predicate Reclaiming(key: PathKey, rec: PathRecord, paths: PathRows, rows: PathRows, slots: SlotMap,
                             paths': PathRows, rows': PathRows, slots': SlotMap)
  {
    && key in paths && rec == paths[key]
    && AgreeExcept(paths, paths', key) && AgreeExcept(rows, rows', key)
    && (if key in paths' then paths'[key].SameSlots(rec) else Unused(rec.held, slots'))
    && (if key in rows' then rows'[key].SameSlots(rec) else Unused(rec.held, slots'))
    && (forall s :: s in slots' ==> s in slots && slots'[s] == slots[s])
    && (forall s :: s in slots && s !in slots' ==> s in rec.held)
    && MacsLast(rec, slots, slots')
  }

  /** The record is in memory and in the database, and nothing else has changed there. */
  ghost predicate Entered(key: PathKey, rec: PathRecord, paths: PathRows, rows: PathRows, doubts: set<PathKey>,
                          paths': PathRows, rows': PathRows, doubts': set<PathKey>)
  {
    rows' == rows[key := rec] && paths' == paths[key := rec] && doubts' == doubts - {key}
  }

  /** One call of the database about the record was not acknowledged, and nothing else has happened. */
  ghost predicate LeftOpen(key: PathKey, rec: PathRecord, written: bool, paths: PathRows, rows: PathRows, slots: SlotMap, doubts: set<PathKey>,
                           paths': PathRows, rows': PathRows, slots': SlotMap, doubts': set<PathKey>)
  {
    && paths' == paths && slots' == slots && doubts' == doubts + {key}
    && rows' == if written then rows[key := rec] else rows
  }

  /** Every slot of the record is empty, or as the record left it in this boot. */
  ghost predicate Clearable(rec: PathRecord, boot: nat, slots: SlotMap) {
    forall s :: s in rec.held && s in slots ==> rec.boot == boot && Holds(rec.held, s, slots)
  }

  /** Only what the record put into its own slots, in this boot, is gone. */
  ghost predicate OnlyOwn(rec: PathRecord, boot: nat, slots: SlotMap, slots': SlotMap) {
    forall s :: s in slots && s !in slots' ==> s in rec.held && Holds(rec.held, s, slots) && rec.boot == boot
  }

  /** A source MAC is cleared only once both next hops are gone. */
  ghost predicate MacsLast(rec: PathRecord, slots: SlotMap, slots': SlotMap) {
    forall m :: m in slots && m !in slots' && m.kind.Smac? ==> |rec.order| == 4 && rec.order[2] !in slots' && rec.order[3] !in slots'
  }

  lemma ReclaimCommissioned(key: PathKey, rec: PathRecord, recs: PathRows, recs': PathRows, foreign: SlotMap)
    requires Commissioned(recs, foreign) && AgreeExcept(recs, recs', key)
    requires rec.WellFormed() && forall s :: s in rec.held ==> s !in foreign
    requires key in recs' ==> recs'[key].SameSlots(rec)
    ensures Commissioned(recs', foreign)
  {
  }

  lemma TrackedIsSound(paths: PathRows, rows: PathRows, slots: SlotMap, foreign: SlotMap, doubts: set<PathKey>)
    requires Tracked(paths, rows, slots, foreign, doubts)
    ensures Sound(rows, slots, foreign)
  {
    hide Commissioned, Aligned, Suspected, SlotsCovered, Disjoint, Within, Backed;
    var live: PathRows :| Within(live, paths) && Upheld(live, slots, foreign);
    var kept := map k | k in live && k in rows :: rows[k];
    JournaledKeepers(live, paths, rows, slots, foreign);
    assert Upheld(kept, slots, foreign);
  }

  /** The records that keep the slots in use are in the database too. */
  lemma JournaledKeepers(live: PathRows, paths: PathRows, rows: PathRows, slots: SlotMap, foreign: SlotMap)
    requires Within(live, paths) && Upheld(live, slots, foreign) && Backed(paths, rows, slots)
    ensures var kept := map k | k in live && k in rows :: rows[k]; Within(kept, rows) && SlotsCovered(kept, slots, foreign) && Disjoint(kept)
  {
    hide SlotData.Matches;
    var kept := map k | k in live && k in rows :: rows[k];
    forall s | s in slots && s !in foreign
      ensures exists k :: k in kept && kept[k].Keeps(s, slots)
    {
      var k :| k in live && live[k].Keeps(s, slots);
      assert k in rows && rows[k].SameSlots(live[k]);
      assert kept[k].Keeps(s, slots);
    }
    forall a, b | a in kept && b in kept && a != b
      ensures SlotsApart(kept[a].held, kept[b].held)
    {
      assert SlotsApart(live[a].held, live[b].held);
    }
  }

  lemma ReclaimTracked(key: PathKey, rec: PathRecord, paths: PathRows, rows: PathRows, slots: SlotMap, doubts: set<PathKey>,
                       paths': PathRows, rows': PathRows, slots': SlotMap, foreign: SlotMap, doubts': set<PathKey>)
    requires Reclaiming(key, rec, paths, rows, slots, paths', rows', slots')
    requires Tracked(paths, rows, slots, foreign, doubts)
    requires (key in rows' ==> key in paths' || key in doubts') && forall k :: k != key ==> (k in doubts <==> k in doubts')
    ensures Tracked(paths', rows', slots', foreign, doubts')
  {
    hide SlotsCovered, Disjoint, Unused, PathRecord.WellFormed, Holds, Backed, Within, Lined, MacsLast, Upheld, Commissioned;
    ReclaimBacked(key, rec, paths, rows, slots, paths', rows', slots');
    CommissionedRecord(key, paths, foreign);
    ReclaimCommissioned(key, rec, paths, paths', foreign);
    ReclaimCommissioned(key, rec, rows, rows', foreign);
    ReclaimAligned(key, rec, paths, rows, paths', rows');
    ReclaimUpheld(key, rec, paths, rows, slots, paths', rows', slots', foreign);
  }

  lemma CommissionedRecord(key: PathKey, paths: PathRows, foreign: SlotMap)
    requires Commissioned(paths, foreign) && key in paths
    ensures paths[key].WellFormed() && forall s :: s in paths[key].held ==> s !in foreign
  {
  }

  lemma ReclaimAligned(key: PathKey, rec: PathRecord, paths: PathRows, rows: PathRows, paths': PathRows, rows': PathRows)
    requires key in paths && rec == paths[key] && Aligned(paths, paths) && Aligned(paths, rows) && Aligned(rows, rows)
    requires AgreeExcept(paths, paths', key) && AgreeExcept(rows, rows', key)
    requires (key in paths' ==> paths'[key].SameSlots(rec)) && (key in rows' ==> rows'[key].SameSlots(rec))
    ensures Aligned(paths', paths') && Aligned(paths', rows') && Aligned(rows', rows')
  {
    LinedFacts();
    hide Lined;
    forall a, b | a in rows' && b in rows'
      ensures Lined(rows'[a], rows'[b])
    {
      LinedLike(rows'[a], if a == key then rec else rows[a]);
      LinedLike(rows'[b], if b == key then rec else rows[b]);
    }
    forall a, b | a in paths' && b in rows'
      ensures Lined(paths'[a], rows'[b])
    {
      LinedLike(paths'[a], paths[a]);
      LinedLike(rows'[b], if b == key then rec else rows[b]);
    }
    forall a, b | a in paths' && b in paths'
      ensures Lined(paths'[a], paths'[b])
    {
      LinedLike(paths'[a], paths[a]);
      LinedLike(paths'[b], paths[b]);
    }
  }

  lemma LinedFacts()
    ensures forall a: PathRecord, b: PathRecord :: Lined(a, b) ==> Lined(b, a)
    ensures forall a: PathRecord :: Lined(a, a)
  {
  }

  lemma LinedLike(a: PathRecord, b: PathRecord)
    requires a.SameSlots(b)
    ensures forall c: PathRecord :: (Lined(a, c) <==> Lined(b, c)) && (Lined(c, a) <==> Lined(c, b))
  {
  }

  /** Wherever a reclaim is cut, every slot still in use belongs to one of a set of records that share none. */
  lemma ReclaimUpheld(key: PathKey, rec: PathRecord, paths: PathRows, rows: PathRows, slots: SlotMap,
                      paths': PathRows, rows': PathRows, slots': SlotMap, foreign: SlotMap)
    requires Reclaiming(key, rec, paths, rows, slots, paths', rows', slots') && Aligned(paths, paths) && Commissioned(paths, foreign)
    requires exists live: PathRows :: Within(live, paths) && Upheld(live, slots, foreign)
    ensures exists live: PathRows :: Within(live, paths') && Upheld(live, slots', foreign)
  {
    hide Commissioned, Aligned, Holds, PathRecord.Keeps, PathRecord.SameSlots, MacsLast, Unused, Disjoint, SlotsCovered;
    var live: PathRows :| Within(live, paths) && Upheld(live, slots, foreign);
    var live' := map k | k in live && k in paths' :: paths'[k];
    StillCovered(key, rec, paths, slots, paths', slots', live, live', foreign);
    StillDisjoint(key, rec, paths, paths', live, live');
    assert Within(live', paths') && Upheld(live', slots', foreign);
  }

  lemma StillDisjoint(key: PathKey, rec: PathRecord, paths: PathRows, paths': PathRows, live: PathRows, live': PathRows)
    requires key in paths && rec == paths[key] && AgreeExcept(paths, paths', key) && (key in paths' ==> paths'[key].SameSlots(rec))
    requires Within(live, paths) && Disjoint(live) && live' == map k | k in live && k in paths' :: paths'[k]
    ensures Disjoint(live')
  {
    forall a, b | a in live' && b in live' && a != b
      ensures SlotsApart(live'[a].held, live'[b].held)
    {
      assert SlotsApart(live[a].held, live[b].held);
    }
  }

  lemma StillCovered(key: PathKey, rec: PathRecord, paths: PathRows, slots: SlotMap, paths': PathRows, slots': SlotMap,
                     live: PathRows, live': PathRows, foreign: SlotMap)
    requires key in paths && rec == paths[key] && AgreeExcept(paths, paths', key) && Aligned(paths, paths) && Commissioned(paths, foreign)
    requires if key in paths' then paths'[key].SameSlots(rec) else Unused(rec.held, slots')
    requires (forall s :: s in slots' ==> s in slots && slots'[s] == slots[s]) && (forall s :: s in slots && s !in slots' ==> s in rec.held)
    requires MacsLast(rec, slots, slots') && Within(live, paths) && SlotsCovered(live, slots, foreign)
    requires live' == map k | k in live && k in paths' :: paths'[k]
    ensures SlotsCovered(live', slots', foreign)
  {
    hide SlotsCovered, Holds, Aligned, Commissioned;
    forall s | s in slots' && s !in foreign
      ensures exists k :: k in live' && live'[k].Keeps(s, slots')
    {
      var k := KeeperOf(live, slots, foreign, s);
      CommissionedRecord(k, paths, foreign);
      CommissionedRecord(key, paths, foreign);
      LinedPair(paths, k, key);
      StillKept(paths[k], rec, slots, slots', s);
      assert k in paths' && paths'[k].SameSlots(paths[k]);
      KeepsLike(paths'[k], paths[k], s, slots');
      assert live'[k].Keeps(s, slots');
    }
    CoveredBy(live', slots', foreign);
  }

  lemma LinedPair(paths: PathRows, a: PathKey, b: PathKey)
    requires Aligned(paths, paths) && a in paths && b in paths
    ensures Lined(paths[a], paths[b])
  {
  }

  lemma CoveredBy(live: PathRows, slots: SlotMap, foreign: SlotMap)
    requires forall s :: s in slots && s !in foreign ==> exists k :: k in live && live[k].Keeps(s, slots)
    ensures SlotsCovered(live, slots, foreign)
  {
  }

  lemma KeeperOf(live: PathRows, slots: SlotMap, foreign: SlotMap, s: Slot) returns (k: PathKey)
    requires SlotsCovered(live, slots, foreign) && s in slots && s !in foreign
    ensures k in live && live[k].Keeps(s, slots) && s in live[k].held
  {
    k :| k in live && live[k].Keeps(s, slots);
  }

  lemma KeepsLike(a: PathRecord, b: PathRecord, s: Slot, slots: SlotMap)
    requires a.SameSlots(b)
    ensures a.Keeps(s, slots) <==> b.Keeps(s, slots)
  {
  }

  /** A record goes on keeping a slot while another one that shares no slot, or all four, is cleared in order. */
  lemma StillKept(keeper: PathRecord, rec: PathRecord, slots: SlotMap, slots': SlotMap, s: Slot)
    requires keeper.WellFormed() && rec.WellFormed() && Lined(keeper, rec) && keeper.Keeps(s, slots) && s in slots'
    requires (forall x :: x in slots' ==> x in slots && slots'[x] == slots[x]) && (forall x :: x in slots && x !in slots' ==> x in rec.held)
    requires MacsLast(rec, slots, slots')
    ensures keeper.Keeps(s, slots')
  {
    hide SlotData.Matches;
    if s.kind.NextHop? {
      assert s == keeper.order[2] || s == keeper.order[3];
      assert keeper.order[0] in slots && keeper.order[1] in slots;
    }
  }

  lemma ReclaimBacked(key: PathKey, rec: PathRecord, paths: PathRows, rows: PathRows, slots: SlotMap,
                      paths': PathRows, rows': PathRows, slots': SlotMap)
    requires Reclaiming(key, rec, paths, rows, slots, paths', rows', slots') && Backed(paths, rows, slots)
    ensures Backed(paths', rows', slots')
  {
  }

  lemma ReclaimSettled(key: PathKey, rec: PathRecord, paths: PathRows, rows: PathRows, slots: SlotMap,
                       paths': PathRows, rows': PathRows, slots': SlotMap)
    requires Reclaiming(key, rec, paths, rows, slots, paths', rows', slots') && Settled(paths, rows, slots)
    requires key !in paths' && key !in rows'
    ensures Settled(paths', rows', slots')
  {
  }

  /** Wherever an acquisition is cut, memory stays tracked. */
  lemma AcquireTracked(key: PathKey, rec: PathRecord, paths: PathRows, rows: PathRows, slots: SlotMap, doubts: set<PathKey>,
                       paths': PathRows, rows': PathRows, slots': SlotMap, foreign: SlotMap, doubts': set<PathKey>)
    requires Tracked(paths, rows, slots, foreign, doubts) && Settled(paths, rows, slots)
    requires key !in paths && rec.WellFormed() && (forall s :: s in rec.held ==> s !in foreign)
    requires forall k :: k in paths ==> SlotsApart(paths[k].held, rec.held)
    requires (forall k :: k in paths ==> Lined(paths[k], rec)) && (forall k :: k in rows ==> Lined(rows[k], rec))
    requires Acquiring(key, rec, paths, rows, slots, paths', rows', slots')
    requires (key in rows' ==> key in paths' || key in doubts') && forall k :: k != key ==> (k in doubts <==> k in doubts')
    ensures Tracked(paths', rows', slots', foreign, doubts')
  {
    hide SlotsCovered, HopsSupported, SlotsApart, Unused, PathRecord.WellFormed, Holds, InSlots, Commissioned, Disjoint, Backed, Aligned, Lined, Within, Upheld;
    AcquireCommissioned(key, rec, rows, rows', foreign);
    AcquireCommissioned(key, rec, paths, paths', foreign);
    AcquireAligned(key, rec, paths, rows, slots, paths', rows', slots');
    AcquireBacked(key, rec, paths, rows, slots, paths', rows', slots');
    AcquireUpheld(key, rec, paths, rows, slots, paths', rows', slots', foreign);
    hide Settled;
    AcquireSuspected(key, paths, rows, doubts, paths', rows', doubts');
  }

  lemma AcquireSuspected(key: PathKey, paths: PathRows, rows: PathRows, doubts: set<PathKey>, paths': PathRows, rows': PathRows, doubts': set<PathKey>)
    requires Suspected(paths, rows, doubts) && AgreeExcept(paths, paths', key) && AgreeExcept(rows, rows', key)
    requires (key in rows' ==> key in paths' || key in doubts') && forall k :: k != key ==> (k in doubts <==> k in doubts')
    ensures Suspected(paths', rows', doubts')
  {
  }

  lemma AcquireBacked(key: PathKey, rec: PathRecord, paths: PathRows, rows: PathRows, slots: SlotMap,
                      paths': PathRows, rows': PathRows, slots': SlotMap)
    requires Settled(paths, rows, slots) && key !in paths && Acquiring(key, rec, paths, rows, slots, paths', rows', slots')
    ensures Backed(paths', rows', slots')
  {
    hide HopsSupported, Disjoint, InSlots, SlotData.Matches, Unused;
  }

  lemma AcquireAligned(key: PathKey, rec: PathRecord, paths: PathRows, rows: PathRows, slots: SlotMap,
                       paths': PathRows, rows': PathRows, slots': SlotMap)
    requires Aligned(paths, paths) && Aligned(paths, rows) && Aligned(rows, rows) && Acquiring(key, rec, paths, rows, slots, paths', rows', slots')
    requires key !in paths && (forall k :: k in paths ==> Lined(paths[k], rec)) && (forall k :: k in rows ==> Lined(rows[k], rec))
    ensures Aligned(paths', paths') && Aligned(paths', rows') && Aligned(rows', rows')
  {
    LinedFacts();
    hide Lined, HopsSupported, Holds;
    if key in rows' && rows'[key].SameSlots(rec) {
      LinedLike(rows'[key], rec);
    }
    if key in paths' {
      LinedLike(paths'[key], rec);
    }
  }

  lemma AcquireUpheld(key: PathKey, rec: PathRecord, paths: PathRows, rows: PathRows, slots: SlotMap,
                      paths': PathRows, rows': PathRows, slots': SlotMap, foreign: SlotMap)
    requires Settled(paths, rows, slots) && key !in paths && rec.WellFormed() && forall k :: k in paths ==> SlotsApart(paths[k].held, rec.held)
    requires Acquiring(key, rec, paths, rows, slots, paths', rows', slots')
    requires exists live: PathRows :: Within(live, paths) && Upheld(live, slots, foreign)
    ensures exists live: PathRows :: Within(live, paths') && Upheld(live, slots', foreign)
  {
    hide Holds, InSlots, HopsSupported, PathRecord.Keeps, PathRecord.WellFormed, SlotsCovered, Disjoint, Within;
    var live: PathRows :| Within(live, paths) && Upheld(live, slots, foreign);
    AcquireDisjoint(key, rec, paths, paths');
    AcquireCovers(key, rec, paths, rows, slots, paths', rows', slots', live, foreign);
    WithinItself(paths');
    assert Upheld(paths', slots', foreign);
  }

  lemma WithinItself(paths: PathRows)
    ensures Within(paths, paths)
  {
  }

  lemma AcquireDisjoint(key: PathKey, rec: PathRecord, paths: PathRows, paths': PathRows)
    requires Disjoint(paths) && AgreeExcept(paths, paths', key) && key !in paths && (key in paths' ==> paths'[key].SameSlots(rec))
    requires forall k :: k in paths ==> SlotsApart(paths[k].held, rec.held)
    ensures Disjoint(paths')
  {
  }

  lemma AcquireCovers(key: PathKey, rec: PathRecord, paths: PathRows, rows: PathRows, slots: SlotMap,
                      paths': PathRows, rows': PathRows, slots': SlotMap, live: PathRows, foreign: SlotMap)
    requires key !in paths && rec.WellFormed() && Acquiring(key, rec, paths, rows, slots, paths', rows', slots')
    requires Within(live, paths) && SlotsCovered(live, slots, foreign)
    ensures SlotsCovered(paths', slots', foreign)
  {
    forall s | s in slots' && s !in foreign
      ensures exists k :: k in paths' && paths'[k].Keeps(s, slots')
    {
      if s in slots {
        var k := KeeperOf(live, slots, foreign, s);
        assert paths'[k] == live[k] && paths'[k].Keeps(s, slots');
      } else {
        NewlyKept(rec, slots', s);
        KeepsLike(paths'[key], rec, s, slots');
      }
    }
  }

  lemma NewlyKept(rec: PathRecord, slots: SlotMap, s: Slot)
    requires rec.WellFormed() && HopsSupported(rec.held, slots) && s in rec.held && Holds(rec.held, s, slots)
    ensures rec.Keeps(s, slots)
  {
  }

  lemma EmptySupported(held: SlotMap, slots: SlotMap)
    requires Unused(held, slots)
    ensures HopsSupported(held, slots)
  {
  }

  /** The intent is written, or the call that writes it has failed. */
  lemma IntentAcquiring(key: PathKey, rec: PathRecord, paths: PathRows, rows: PathRows, slots: SlotMap, rows': PathRows)
    requires key !in paths && AgreeExcept(rows, rows', key) && (rows' == rows || (key in rows' && rows'[key] == rec))
    requires Unused(rec.held, slots)
    ensures Acquiring(key, rec, paths, rows, slots, paths, rows', slots)
  {
    EmptySupported(rec.held, slots);
    hide HopsSupported;
  }

  lemma FilledAcquiring(key: PathKey, rec: PathRecord, paths: PathRows, rows: PathRows, slots: SlotMap, paths1: PathRows, rows1: PathRows,
                        paths': PathRows, rows': PathRows, slots': SlotMap)
    requires AgreeExcept(paths, paths1, key) && AgreeExcept(rows, rows1, key) && AgreeExcept(paths1, paths', key) && AgreeExcept(rows1, rows', key)
    requires key in paths' && paths'[key].SameSlots(rec) && key in rows' && rows'[key].SameSlots(rec)
    requires forall s :: s in slots ==> s in slots' && slots'[s] == slots[s]
    requires forall s :: s in slots' && s !in slots ==> s in rec.held && Holds(rec.held, s, slots')
    requires HopsSupported(rec.held, slots')
    ensures Acquiring(key, rec, paths, rows, slots, paths', rows', slots')
  {
    hide HopsSupported, Holds, PathRecord.SameSlots;
  }

  lemma OnlyChanged(key: PathKey, recs: PathRows, recs1: PathRows, recs': PathRows)
    requires AgreeExcept(recs, recs1, key) && AgreeExcept(recs1, recs', key) && key in recs'
    ensures recs' == recs[key := recs'[key]]
  {
  }

  /** Slots that are empty and that no record names make an allocation apart from all others. */
  lemma AllocationIsFree(rec: PathRecord, smacs: (int, int), hops: (int, int), boot: nat, plan: Plan,
                         paths: PathRows, slots: SlotMap, foreign: SlotMap)
    requires smacs.0 != smacs.1 && hops.0 != hops.1 && rec == Allocation(boot, plan, smacs, hops)
    requires Slot(Smac, smacs.0) !in slots && Slot(Smac, smacs.1) !in slots
    requires Slot(NextHop, hops.0) !in slots && Slot(NextHop, hops.1) !in slots
    requires forall k :: k in paths ==> Slot(Smac, smacs.0) !in paths[k].held && Slot(Smac, smacs.1) !in paths[k].held
    requires forall k :: k in paths ==> Slot(NextHop, hops.0) !in paths[k].held && Slot(NextHop, hops.1) !in paths[k].held
    requires forall s :: s in foreign ==> s in slots
    ensures Unused(rec.held, slots) && (forall s :: s in rec.held ==> s !in foreign)
    ensures forall k :: k in paths ==> SlotsApart(paths[k].held, rec.held)
  {
  }

  lemma AcquireCommissioned(key: PathKey, rec: PathRecord, recs: PathRows, recs': PathRows, foreign: SlotMap)
    requires Commissioned(recs, foreign) && AgreeExcept(recs, recs', key)
    requires rec.WellFormed() && forall s :: s in rec.held ==> s !in foreign
    requires key in recs' ==> recs'[key].SameSlots(rec) || (key in recs && recs'[key] == recs[key])
    ensures Commissioned(recs', foreign)
  {
  }

  lemma AcquireSettled(key: PathKey, rec: PathRecord, paths: PathRows, rows: PathRows, slots: SlotMap,
                       paths': PathRows, rows': PathRows, slots': SlotMap)
    requires Settled(paths, rows, slots) && key !in paths
    requires forall k :: k in paths ==> SlotsApart(paths[k].held, rec.held)
    requires Acquiring(key, rec, paths, rows, slots, paths', rows', slots')
    requires key in paths' && paths'[key].stage.Ready? && rows'[key] == paths'[key] && InSlots(rec.held, slots')
    ensures Settled(paths', rows', slots')
  {
  }

  /** Clearing from the last slot on takes next hops before source MACs. */
  lemma ClearedInOrder(rec: PathRecord, slots: SlotMap, slots': SlotMap, i: nat)
    requires rec.WellFormed() && i < 4 && forall j :: i < j < 4 ==> rec.order[j] !in slots'
    requires forall j :: 0 <= j < i && rec.order[j] in slots ==> rec.order[j] in slots'
    requires forall s :: s in slots && s !in slots' ==> s in rec.held
    ensures MacsLast(rec, slots, slots')
  {
    forall m | m in slots && m !in slots' && m.kind.Smac?
      ensures rec.order[2] !in slots' && rec.order[3] !in slots'
    {
      assert m == rec.order[0] || m == rec.order[1];
    }
  }

  // ------------------------------------------------------------ the allocator

  /** The elements of a list that are in a set, in order. */
  ghost function Select(ids: seq<int>, keep: set<int>): seq<int> {
    if ids == [] then [] else (if ids[0] in keep then [ids[0]] else []) + Select(ids[1..], keep)
  }

  lemma {:induction false} SelectAppend(ids: seq<int>, x: int, keep: set<int>)
    ensures Select(ids + [x], keep) == Select(ids, keep) + if x in keep then [x] else []
  {
    var all := ids + [x];
    if ids == [] {
      assert all[1..] == [];
    } else {
      assert all[0] == ids[0] && all[1..] == ids[1..] + [x];
      SelectAppend(ids[1..], x, keep);
      var head, last := if ids[0] in keep then [ids[0]] else [], if x in keep then [x] else [];
      var rest := Select(ids[1..], keep);
      hide Select;
      assert head + (rest + last) == (head + rest) + last;
    }
  }

  lemma {:induction false} SelectPrefix(ids: seq<int>, n: nat, keep: set<int>)
    requires n <= |ids|
    ensures Select(ids[..n], keep) <= Select(ids, keep)
  {
    if n == 0 {
      assert ids[..n] == [];
    } else {
      assert ids[..n][1..] == ids[1..][..n - 1];
      SelectPrefix(ids[1..], n - 1, keep);
    }
  }

  lemma {:induction false} SelectWithin(ids: seq<int>, all: set<int>, some: set<int>)
    requires some <= all
    ensures Select(Select(ids, all), some) == Select(ids, some)
  {
    if ids == [] {
    } else {
      SelectWithin(ids[1..], all, some);
      if ids[0] in all {
        var rest := Select(ids[1..], all);
        var chosen := [ids[0]] + rest;
        assert chosen[0] == ids[0] && chosen[1..] == rest && Select(ids, all) == chosen;
      } else {
        assert Select(ids, all) == Select(ids[1..], all) && Select(ids, some) == Select(ids[1..], some);
      }
    }
  }

  lemma {:induction false} SelectLength(ids: seq<int>, keep: set<int>)
    ensures |Select(ids, keep)| <= |ids|
  {
    if ids == [] {
    } else {
      SelectLength(ids[1..], keep);
    }
  }

  lemma {:induction false} SelectFacts(ids: seq<int>, keep: set<int>)
    requires Distinct(ids)
    ensures var f := Select(ids, keep); (forall x :: x in f <==> x in ids && x in keep) && Distinct(f)
  {
    if ids == [] {
    } else {
      SelectFacts(ids[1..], keep);
      assert ids == [ids[0]] + ids[1..];
    }
  }

  /** Where a list is chosen from by pairs, the first two chosen are the first such pair. */
  lemma {:induction false} FirstPair(ids: seq<int>, keep: set<int>) returns (j: nat)
    requires forall i: nat :: 2 * i + 1 < |ids| ==> (ids[2 * i] in keep <==> ids[2 * i + 1] in keep)
    requires |Select(ids, keep)| >= 2
    ensures 2 * j + 1 < |ids| && ids[2 * j] in keep && forall i: nat :: i < j ==> ids[2 * i] !in keep
    ensures Select(ids, keep)[0] == ids[2 * j] && Select(ids, keep)[1] == ids[2 * j + 1]
    decreases |ids|
  {
    SelectLength(ids, keep);
    if |ids| >= 2 {
      var rest := ids[2..];
      assert ids[1..][1..] == rest && ids[1..][0] == ids[1];
      assert ids[2 * 0] in keep <==> ids[2 * 0 + 1] in keep;
      if ids[0] in keep {
        return 0;
      }
      forall i: nat | 2 * i + 1 < |rest|
        ensures rest[2 * i] in keep <==> rest[2 * i + 1] in keep
      {
        assert rest[2 * i] == ids[2 * (i + 1)] && rest[2 * i + 1] == ids[2 * (i + 1) + 1];
      }
      var n := FirstPair(rest, keep);
      j := n + 1;
      forall i: nat | i < j
        ensures ids[2 * i] !in keep
      {
        if i > 0 {
          assert rest[2 * (i - 1)] == ids[2 * i];
        }
      }
    }
  }

  ghost function NativeSet(kind: Kind, pool: seq<int>, foreign: SlotMap): set<int> {
    set x | x in pool && Slot(kind, x) !in foreign
  }

  /** The slots of a pool that no record names and that are empty. */
  ghost function FreeSet(kind: Kind, pool: seq<int>, paths: PathRows, slots: SlotMap): set<int> {
    set x | x in pool && Slot(kind, x) !in slots && forall k :: k in paths ==> Slot(kind, x) !in paths[k].held
  }

  /** The record takes the `j`-th pair of either list. */
  predicate Block(order: seq<Slot>, macs: seq<int>, hops: seq<int>, j: nat) {
    && 2 * j + 1 < |macs| && 2 * j + 1 < |hops|
    && order == [Slot(Smac, macs[2 * j]), Slot(Smac, macs[2 * j + 1]), Slot(NextHop, hops[2 * j]), Slot(NextHop, hops[2 * j + 1])]
  }

  ghost predicate InBlock(rec: PathRecord, macs: seq<int>, hops: seq<int>) {
    exists j: nat :: Block(rec.order, macs, hops, j)
  }

  ghost predicate AllInBlocks(paths: PathRows, macs: seq<int>, hops: seq<int>) {
    forall k :: k in paths ==> InBlock(paths[k], macs, hops)
  }

  /** A row that memory lacks was allocated by this process. */
  ghost predicate OwnRows(paths: PathRows, rows: PathRows, macs: seq<int>, hops: seq<int>) {
    forall k :: k in rows ==> k in paths || InBlock(rows[k], macs, hops)
  }

  predicate Distinct(ids: seq<int>) {
    forall i, j :: 0 <= i < j < |ids| ==> ids[i] != ids[j]
  }

  ghost predicate Unclaimed(paths: PathRows, macs: seq<int>, hops: seq<int>, j: nat) {
    forall k :: k in paths ==> !Block(paths[k].order, macs, hops, j)
  }

  lemma BlocksLined(a: PathRecord, b: PathRecord, macs: seq<int>, hops: seq<int>)
    requires a.WellFormed() && b.WellFormed() && InBlock(a, macs, hops) && InBlock(b, macs, hops) && Distinct(macs) && Distinct(hops)
    ensures Lined(a, b)
  {
    var i: nat :| Block(a.order, macs, hops, i);
    var j: nat :| Block(b.order, macs, hops, j);
    if i != j {
      forall s | s in a.held
        ensures s !in b.held
      {
        assert s in a.order;
      }
    }
  }

  /** A pair of a list is free exactly when no record has its block. */
  lemma PairFree(kind: Kind, pool: seq<int>, paths: PathRows, slots: SlotMap, foreign: SlotMap, macs: seq<int>, hops: seq<int>, j: nat, x: int)
    requires AllInBlocks(paths, macs, hops) && Commissioned(paths, foreign) && Distinct(macs) && Distinct(hops)
    requires exists live: PathRows :: Within(live, paths) && SlotsCovered(live, slots, foreign)
    requires var ids := if kind.Smac? then macs else hops; 2 * j + 1 < |ids| && (x == ids[2 * j] || x == ids[2 * j + 1])
    requires x in pool && Slot(kind, x) !in foreign
    ensures x in FreeSet(kind, pool, paths, slots) <==> Unclaimed(paths, macs, hops, j)
  {
    var s := Slot(kind, x);
    hide SlotsCovered;
    if k :| k in paths && Block(paths[k].order, macs, hops, j) {
      assert paths[k].WellFormed() && s in paths[k].held;
    } else if s in slots {
      var live: PathRows :| Within(live, paths) && SlotsCovered(live, slots, foreign);
      var k := KeeperOf(live, slots, foreign, s);
      NamedInBlock(kind, paths, foreign, macs, hops, j, x, k);
    } else if k :| k in paths && s in paths[k].held {
      NamedInBlock(kind, paths, foreign, macs, hops, j, x, k);
    }
  }

  lemma NamedInBlock(kind: Kind, paths: PathRows, foreign: SlotMap, macs: seq<int>, hops: seq<int>, j: nat, x: int, k: PathKey)
    requires AllInBlocks(paths, macs, hops) && Commissioned(paths, foreign) && Distinct(macs) && Distinct(hops)
    requires var ids := if kind.Smac? then macs else hops; 2 * j + 1 < |ids| && (x == ids[2 * j] || x == ids[2 * j + 1])
    requires k in paths && Slot(kind, x) in paths[k].held
    ensures Block(paths[k].order, macs, hops, j)
  {
    hide Commissioned, PathRecord.WellFormed, Distinct, Block;
    NamedInOrder(paths, foreign, k, Slot(kind, x));
    assert InBlock(paths[k], macs, hops);
    var i: nat :| Block(paths[k].order, macs, hops, i);
    BlockOf(paths[k].order, macs, hops, i, j, kind, x);
  }

  lemma NamedInOrder(paths: PathRows, foreign: SlotMap, k: PathKey, s: Slot)
    requires Commissioned(paths, foreign) && k in paths && s in paths[k].held
    ensures s in paths[k].order
  {
  }

  lemma BlockOf(order: seq<Slot>, macs: seq<int>, hops: seq<int>, i: nat, j: nat, kind: Kind, x: int)
    requires Block(order, macs, hops, i) && Distinct(macs) && Distinct(hops) && Slot(kind, x) in order
    requires var ids := if kind.Smac? then macs else hops; 2 * j + 1 < |ids| && (x == ids[2 * j] || x == ids[2 * j + 1])
    ensures i == j
  {
    if kind.Smac? {
      assert x == macs[2 * i] || x == macs[2 * i + 1];
      assert 2 * i == 2 * j || 2 * i + 1 == 2 * j || 2 * i == 2 * j + 1 || 2 * i + 1 == 2 * j + 1;
    } else {
      assert x == hops[2 * i] || x == hops[2 * i + 1];
      assert 2 * i == 2 * j || 2 * i + 1 == 2 * j || 2 * i == 2 * j + 1 || 2 * i + 1 == 2 * j + 1;
    }
  }

  /** First free slots are taken in lockstep: an allocation is a block. */
  lemma AllocationIsBlock(paths: PathRows, slots: SlotMap, foreign: SlotMap, smacPool: seq<int>, hopPool: seq<int>, macs: seq<int>, hops: seq<int>)
      returns (j: nat)
    requires macs == Select(smacPool, NativeSet(Smac, smacPool, foreign)) && hops == Select(hopPool, NativeSet(NextHop, hopPool, foreign))
    requires Distinct(smacPool) && Distinct(hopPool) && AllInBlocks(paths, macs, hops) && Commissioned(paths, foreign)
    requires exists live: PathRows :: Within(live, paths) && SlotsCovered(live, slots, foreign)
    requires forall s :: s in foreign ==> s in slots
    requires |Select(smacPool, FreeSet(Smac, smacPool, paths, slots))| >= 2 && |Select(hopPool, FreeSet(NextHop, hopPool, paths, slots))| >= 2
    ensures var m, h := Select(smacPool, FreeSet(Smac, smacPool, paths, slots)), Select(hopPool, FreeSet(NextHop, hopPool, paths, slots));
      Block([Slot(Smac, m[0]), Slot(Smac, m[1]), Slot(NextHop, h[0]), Slot(NextHop, h[1])], macs, hops, j)
  {
    hide Select, AllInBlocks, Commissioned, SlotsCovered, FreeSet, NativeSet, Distinct, Unclaimed, Within;
    SelectFacts(smacPool, NativeSet(Smac, smacPool, foreign));
    SelectFacts(hopPool, NativeSet(NextHop, hopPool, foreign));
    var i := FirstFreePair(Smac, smacPool, paths, slots, foreign, macs, hops);
    j := FirstFreePair(NextHop, hopPool, paths, slots, foreign, macs, hops);
    assert i == j;
  }

  lemma NativeFacts(kind: Kind, pool: seq<int>, foreign: SlotMap, x: int)
    requires x in NativeSet(kind, pool, foreign)
    ensures x in pool && Slot(kind, x) !in foreign
  {
  }

  lemma FreeIsNative(kind: Kind, pool: seq<int>, paths: PathRows, slots: SlotMap, foreign: SlotMap)
    requires forall s :: s in foreign ==> s in slots
    ensures FreeSet(kind, pool, paths, slots) <= NativeSet(kind, pool, foreign)
  {
  }

  /** The first two free slots of a pool are the first pair whose block nobody has. */
  lemma FirstFreePair(kind: Kind, pool: seq<int>, paths: PathRows, slots: SlotMap, foreign: SlotMap, macs: seq<int>, hops: seq<int>) returns (j: nat)
    requires var ids := if kind.Smac? then macs else hops; ids == Select(pool, NativeSet(kind, pool, foreign)) && Distinct(pool)
    requires Distinct(macs) && Distinct(hops) && AllInBlocks(paths, macs, hops) && Commissioned(paths, foreign)
    requires exists live: PathRows :: Within(live, paths) && SlotsCovered(live, slots, foreign)
    requires forall s :: s in foreign ==> s in slots
    requires |Select(pool, FreeSet(kind, pool, paths, slots))| >= 2
    ensures var ids, f := if kind.Smac? then macs else hops, Select(pool, FreeSet(kind, pool, paths, slots));
      2 * j + 1 < |ids| && f[0] == ids[2 * j] && f[1] == ids[2 * j + 1]
    ensures Unclaimed(paths, macs, hops, j) && forall i: nat :: i < j ==> !Unclaimed(paths, macs, hops, i)
  {
    var ids, free := if kind.Smac? then macs else hops, FreeSet(kind, pool, paths, slots);
    FreeIsNative(kind, pool, paths, slots, foreign);
    PairsFree(kind, pool, paths, slots, foreign, macs, hops);
    hide *;
    SelectWithin(pool, NativeSet(kind, pool, foreign), free);
    j := FirstUnclaimed(ids, free, paths, macs, hops);
  }

  lemma FirstUnclaimed(ids: seq<int>, free: set<int>, paths: PathRows, macs: seq<int>, hops: seq<int>) returns (j: nat)
    requires |Select(ids, free)| >= 2
    requires forall i: nat :: 2 * i + 1 < |ids| ==>
               (ids[2 * i] in free <==> Unclaimed(paths, macs, hops, i)) && (ids[2 * i + 1] in free <==> Unclaimed(paths, macs, hops, i))
    ensures 2 * j + 1 < |ids| && Select(ids, free)[0] == ids[2 * j] && Select(ids, free)[1] == ids[2 * j + 1]
    ensures Unclaimed(paths, macs, hops, j) && forall i: nat :: i < j ==> !Unclaimed(paths, macs, hops, i)
  {
    hide *;
    j := FirstPair(ids, free);
    forall i: nat | i < j
      ensures !Unclaimed(paths, macs, hops, i)
    {
      assert ids[2 * i] !in free;
    }
  }

  lemma PairsFree(kind: Kind, pool: seq<int>, paths: PathRows, slots: SlotMap, foreign: SlotMap, macs: seq<int>, hops: seq<int>)
    requires var ids := if kind.Smac? then macs else hops; ids == Select(pool, NativeSet(kind, pool, foreign)) && Distinct(pool)
    requires Distinct(macs) && Distinct(hops) && AllInBlocks(paths, macs, hops) && Commissioned(paths, foreign)
    requires exists live: PathRows :: Within(live, paths) && SlotsCovered(live, slots, foreign)
    ensures var ids, free := if kind.Smac? then macs else hops, FreeSet(kind, pool, paths, slots);
      forall i: nat :: 2 * i + 1 < |ids| ==>
        (ids[2 * i] in free <==> Unclaimed(paths, macs, hops, i)) && (ids[2 * i + 1] in free <==> Unclaimed(paths, macs, hops, i))
  {
    hide Select, AllInBlocks, Commissioned, SlotsCovered, Unclaimed, FreeSet, NativeSet, Distinct;
    var ids, free := if kind.Smac? then macs else hops, FreeSet(kind, pool, paths, slots);
    SelectFacts(pool, NativeSet(kind, pool, foreign));
    forall i: nat | 2 * i + 1 < |ids|
      ensures (ids[2 * i] in free <==> Unclaimed(paths, macs, hops, i)) && (ids[2 * i + 1] in free <==> Unclaimed(paths, macs, hops, i))
    {
      assert ids[2 * i] in ids && ids[2 * i + 1] in ids;
      NativeFacts(kind, pool, foreign, ids[2 * i]);
      NativeFacts(kind, pool, foreign, ids[2 * i + 1]);
      PairFree(kind, pool, paths, slots, foreign, macs, hops, i, ids[2 * i]);
      PairFree(kind, pool, paths, slots, foreign, macs, hops, i, ids[2 * i + 1]);
    }
  }

  // ------------------------------------------------------------ one call of the owner

  lemma SoundIsTracked(rows: PathRows, slots: SlotMap, foreign: SlotMap)
    requires Sound(rows, slots, foreign)
    ensures Tracked(rows, rows, slots, foreign, {})
  {
    hide Commissioned, Aligned, SlotsCovered, Disjoint;
  }

  lemma MacsLastNone(rec: PathRecord, slots: SlotMap)
    ensures MacsLast(rec, slots, slots)
  {
  }

  lemma InBlockLike(a: PathRecord, b: PathRecord, macs: seq<int>, hops: seq<int>)
    requires a.SameSlots(b)
    ensures InBlock(a, macs, hops) <==> InBlock(b, macs, hops)
  {
  }

  lemma ReclaimOwn(key: PathKey, rec: PathRecord, paths: PathRows, rows: PathRows, slots: SlotMap,
                   paths': PathRows, rows': PathRows, slots': SlotMap, macs: seq<int>, hops: seq<int>)
    requires Reclaiming(key, rec, paths, rows, slots, paths', rows', slots') && (key in rows' ==> key in paths')
    requires OwnRows(paths, rows, macs, hops)
    ensures OwnRows(paths', rows', macs, hops)
    ensures Disjoint(paths) ==> Disjoint(paths')
    ensures AllInBlocks(paths, macs, hops) ==> AllInBlocks(paths', macs, hops)
  {
    hide InBlock, MacsLast, Unused;
    if key in paths' {
      InBlockLike(paths'[key], rec, macs, hops);
    }
    if Disjoint(paths) {
      forall a, b | a in paths' && b in paths' && a != b
        ensures SlotsApart(paths'[a].held, paths'[b].held)
      {
        assert SlotsApart(paths[a].held, paths[b].held);
      }
    }
  }

  /** A block shares no slot with any record or row, or all four. */
  lemma LinedWithAll(paths: PathRows, rows: PathRows, slots: SlotMap, rec: PathRecord, foreign: SlotMap, macs: seq<int>, hops: seq<int>)
    requires Commissioned(paths, foreign) && Commissioned(rows, foreign) && Settled(paths, rows, slots) && OwnRows(paths, rows, macs, hops)
    requires rec.WellFormed() && InBlock(rec, macs, hops) && AllInBlocks(paths, macs, hops) && Distinct(macs) && Distinct(hops)
    ensures (forall k :: k in paths ==> Lined(paths[k], rec)) && (forall k :: k in rows ==> Lined(rows[k], rec))
  {
    hide InBlock, Lined, InSlots, Disjoint, Distinct;
    forall k | k in paths
      ensures Lined(paths[k], rec)
    {
      CommissionedRecord(k, paths, foreign);
      BlocksLined(paths[k], rec, macs, hops);
    }
    forall k | k in rows
      ensures Lined(rows[k], rec)
    {
      if k !in paths {
        CommissionedRecord(k, rows, foreign);
        BlocksLined(rows[k], rec, macs, hops);
      } else {
        assert rows[k] == paths[k];
      }
    }
  }

  lemma AcquireOwn(key: PathKey, rec: PathRecord, paths: PathRows, rows: PathRows, slots: SlotMap,
                   paths': PathRows, rows': PathRows, slots': SlotMap, macs: seq<int>, hops: seq<int>)
    requires Acquiring(key, rec, paths, rows, slots, paths', rows', slots') && key !in paths && Disjoint(paths)
    requires forall k :: k in paths ==> SlotsApart(paths[k].held, rec.held)
    requires OwnRows(paths, rows, macs, hops) && AllInBlocks(paths, macs, hops) && InBlock(rec, macs, hops)
    ensures OwnRows(paths', rows', macs, hops) && AllInBlocks(paths', macs, hops) && Disjoint(paths')
  {
    AcquireDisjoint(key, rec, paths, paths');
    hide InBlock, HopsSupported, Holds, Disjoint, SlotsApart;
    if key in paths' {
      InBlockLike(paths'[key], rec, macs, hops);
    }
    if key in rows' && rows'[key].SameSlots(rec) {
      InBlockLike(rows'[key], rec, macs, hops);
    }
  }

  /** What an owner keeps: its records are tracked; they share no slot if the ones it loaded did not; and unless it is
      fenced they are settled, each on a block of its own. */
  ghost predicate Kept(paths: PathRows, rows: PathRows, slots: SlotMap, foreign: SlotMap, doubts: set<PathKey>,
                       macs: seq<int>, hops: seq<int>, apart: bool, fenced: bool)
  {
    && Tracked(paths, rows, slots, foreign, doubts) && OwnRows(paths, rows, macs, hops)
    && (apart ==> Disjoint(paths))
    && (!fenced ==> apart && Settled(paths, rows, slots) && AllInBlocks(paths, macs, hops))
  }

  /** Wherever a reclaim is cut, what is durable stays sound, and what the owner keeps is kept unless the process died. */
  lemma ReclaimKept(key: PathKey, rec: PathRecord, paths: PathRows, rows: PathRows, slots: SlotMap, doubts: set<PathKey>, fenced: bool,
                    paths': PathRows, rows': PathRows, slots': SlotMap, doubts': set<PathKey>, fenced': bool,
                    foreign: SlotMap, macs: seq<int>, hops: seq<int>, apart: bool)
    requires Reclaiming(key, rec, paths, rows, slots, paths', rows', slots') && Kept(paths, rows, slots, foreign, doubts, macs, hops, apart, fenced)
    requires (key in rows' ==> key in paths' || key in doubts') && forall k :: k != key ==> (k in doubts <==> k in doubts')
    ensures Sound(rows', slots', foreign)
    ensures (key in rows' ==> key in paths') && (!fenced' ==> !fenced && key !in paths' && key !in rows') ==>
              Kept(paths', rows', slots', foreign, doubts', macs, hops, apart, fenced')
  {
    hide Tracked, Sound, OwnRows, Disjoint, Settled, AllInBlocks, Unused, MacsLast, Reclaiming;
    ReclaimTracked(key, rec, paths, rows, slots, doubts, paths', rows', slots', foreign, doubts');
    TrackedIsSound(paths', rows', slots', foreign, doubts');
    if key in rows' ==> key in paths' {
      ReclaimOwn(key, rec, paths, rows, slots, paths', rows', slots', macs, hops);
      if !fenced && key !in paths' {
        ReclaimSettled(key, rec, paths, rows, slots, paths', rows', slots');
      }
    }
  }

  /** Wherever an acquisition is cut, what is durable stays sound and what the owner keeps is kept. */
  lemma AcquireKept(key: PathKey, rec: PathRecord, paths: PathRows, rows: PathRows, slots: SlotMap, doubts: set<PathKey>,
                    paths': PathRows, rows': PathRows, slots': SlotMap, doubts': set<PathKey>, fenced': bool,
                    foreign: SlotMap, macs: seq<int>, hops: seq<int>, apart: bool)
    requires Acquiring(key, rec, paths, rows, slots, paths', rows', slots') && Kept(paths, rows, slots, foreign, doubts, macs, hops, apart, false)
    requires key !in paths && rec.WellFormed() && InBlock(rec, macs, hops) && Distinct(macs) && Distinct(hops)
    requires (forall s :: s in rec.held ==> s !in foreign) && forall k :: k in paths ==> SlotsApart(paths[k].held, rec.held)
    requires (key in rows' ==> key in paths' || key in doubts') && forall k :: k != key ==> (k in doubts <==> k in doubts')
    ensures Sound(rows', slots', foreign)
    ensures (!fenced' ==> key in paths' && paths'[key].stage.Ready? && key in rows' && rows'[key] == paths'[key] && InSlots(rec.held, slots')) ==>
              Kept(paths', rows', slots', foreign, doubts', macs, hops, apart, fenced')
  {
    hide Backed, Suspected, Aligned, Sound, OwnRows, Disjoint, Commissioned, AllInBlocks, Unused, Acquiring, InBlock, Distinct, InSlots, SlotsApart,
      PathRecord.WellFormed, Upheld, Within, Lined;
    LinedWithAll(paths, rows, slots, rec, foreign, macs, hops);
    AcquireTracked(key, rec, paths, rows, slots, doubts, paths', rows', slots', foreign, doubts');
    hide Tracked;
    TrackedIsSound(paths', rows', slots', foreign, doubts');
    AcquireOwn(key, rec, paths, rows, slots, paths', rows', slots', macs, hops);
    if key in paths' && paths'[key].stage.Ready? && key in rows' && rows'[key] == paths'[key] && InSlots(rec.held, slots') {
      AcquireSettled(key, rec, paths, rows, slots, paths', rows', slots');
    }
  }

  /** What a kept record is. */
  lemma KeptRecord(key: PathKey, paths: PathRows, rows: PathRows, slots: SlotMap, foreign: SlotMap, doubts: set<PathKey>,
                   macs: seq<int>, hops: seq<int>, apart: bool, fenced: bool)
    requires Kept(paths, rows, slots, foreign, doubts, macs, hops, apart, fenced) && key in paths
    ensures paths[key].WellFormed() && forall s :: s in paths[key].held ==> s !in foreign
    ensures if key in rows then rows[key].SameSlots(paths[key]) else Unused(paths[key].held, slots)
    ensures !fenced ==> paths[key].stage.Ready? && InSlots(paths[key].held, slots) && Clearable(paths[key], paths[key].boot, slots)
  {
    hide Suspected, Aligned, OwnRows, Disjoint, AllInBlocks, PathRecord.WellFormed, Unused;
  }

  /** An owner that holds nothing may be reopened. */
  lemma NothingKept(paths: PathRows, rows: PathRows, slots: SlotMap, foreign: SlotMap, doubts: set<PathKey>, macs: seq<int>, hops: seq<int>,
                    apart: bool, fenced: bool)
    requires Kept(paths, rows, slots, foreign, doubts, macs, hops, apart, fenced) && paths.Keys == {}
    requires forall s :: s in foreign ==> s in slots && slots[s] == foreign[s]
    ensures paths == map[] && slots == foreign && Kept(paths, rows, slots, foreign, doubts, macs, hops, true, false)
  {
    hide Aligned, OwnRows, Commissioned, Backed, Suspected;
    assert paths == map[];
  }

  class PathOwner {
    const db: Store<PathKey, PathRecord>
    const device: SlotTable
    const resolver: Resolver
    const boot: nat
    const smacPool: seq<int>
    const hopPool: seq<int>
    var paths: PathRows
    var recoveryRequired: bool
    ghost var apart: bool      // the loaded records shared no slot, or have been recovered since

    ghost predicate Durable()
      reads db, device
    {
      device.Valid() && Sound(db.rows, device.slots, device.foreign)
    }

    ghost predicate Valid()
      reads this, db, device
    {
      && Durable() && Distinct(smacPool) && Distinct(hopPool)
      && Kept(paths, db.rows, device.slots, device.foreign, db.doubts, Macs(), Hops(), apart, recoveryRequired)
    }

    /** The commissioned slots that nobody else occupies. */
    ghost function Macs(): seq<int>
      reads device
    {
      Select(smacPool, NativeSet(Smac, smacPool, device.foreign))
    }

    ghost function Hops(): seq<int>
      reads device
    {
      Select(hopPool, NativeSet(NextHop, hopPool, device.foreign))
    }

    lemma NativeDistinct()
      requires Distinct(smacPool) && Distinct(hopPool)
      ensures Distinct(Macs()) && Distinct(Hops())
    {
      SelectFacts(smacPool, NativeSet(Smac, smacPool, device.foreign));
      SelectFacts(hopPool, NativeSet(NextHop, hopPool, device.foreign));
    }

    constructor (db: Store<PathKey, PathRecord>, device: SlotTable, resolver: Resolver, boot: nat, smacPool: seq<int>, hopPool: seq<int>)
      requires device.Valid() && Sound(db.rows, device.slots, device.foreign)
      requires Distinct(smacPool) && Distinct(hopPool)
      modifies db`doubts
      ensures Valid() && this.db == db && this.device == device && this.resolver == resolver && this.boot == boot
      ensures this.smacPool == smacPool && this.hopPool == hopPool
      ensures paths == db.rows && (recoveryRequired <==> paths != map[]) && (apart <==> Disjoint(paths)) && db.doubts == {}
    {
      SoundIsTracked(db.rows, device.slots, device.foreign);
      hide Sound, Tracked;
      var rows := db.Load();
      this.db, this.device, this.resolver, this.boot := db, device, resolver, boot;
      this.smacPool, this.hopPool := smacPool, hopPool;
      paths, recoveryRequired, apart := rows, rows != map[], Disjoint(rows);
    }

    method Save(key: PathKey, rec: PathRecord) returns (r: Outcome)
      modifies this`paths, this`recoveryRequired, db`rows, db`doubts
      ensures AgreeExcept(old(db.rows), db.rows, key) && AgreeExcept(old(paths), paths, key)
      ensures db.rows == old(db.rows) || (key in db.rows && db.rows[key] == rec)
      ensures r.Done? ==> key in db.rows && db.rows[key] == rec && key in paths && paths[key] == rec
      ensures r.Done? ==> recoveryRequired == old(recoveryRequired)
      ensures !r.Done? ==> paths == old(paths)
      ensures r.Raised? ==> recoveryRequired
      ensures db.doubts == if r.Done? then old(db.doubts) - {key} else old(db.doubts) + {key}
      ensures !db.healthy && db.omen.Some? ==>
                r == db.omen.value.Ending() && db.rows == if db.omen.value.TakesEffect() then old(db.rows)[key := rec] else old(db.rows)
      ensures db.healthy ==> r.Done?
    {
      r := db.Put(key, rec);
      if r.Raised? {
        recoveryRequired := true;
      }
      :- r;
      paths := paths[key := rec];
      return Done;
    }

    ghost function FreeOf(kind: Kind, pool: seq<int>): seq<int>
      reads this, device
    {
      Select(pool, FreeSet(kind, pool, paths, device.slots))
    }

    /** The first two slots of a pool that no record names and that read back empty. */
    method Allocate(kind: Kind, pool: seq<int>) returns (r: Result<(int, int)>)
      requires Distinct(pool)
      ensures r.Ok? ==> |FreeOf(kind, pool)| >= 2 && r.value == FirstFree(kind, pool)
      ensures device.healthy ==> (r.Ok? <==> |FreeOf(kind, pool)| >= 2)
      ensures r.Ok? ==>
                && r.value.0 in pool && r.value.1 in pool && r.value.0 != r.value.1
                && Slot(kind, r.value.0) !in device.slots && Slot(kind, r.value.1) !in device.slots
                && forall k :: k in paths ==> Slot(kind, r.value.0) !in paths[k].held && Slot(kind, r.value.1) !in paths[k].held
    {
      ghost var free := FreeSet(kind, pool, paths, device.slots);
      SelectFacts(pool, free);
      r := Search(kind, pool);
      hide Select;
    }

    /** The loop over a pool. */
    method Search(kind: Kind, pool: seq<int>) returns (r: Result<(int, int)>)
      ensures r.Ok? ==> |FreeOf(kind, pool)| >= 2 && r.value == FirstFree(kind, pool)
      ensures device.healthy ==> (r.Ok? <==> |FreeOf(kind, pool)| >= 2)
    {
      ghost var free := FreeSet(kind, pool, paths, device.slots);
      var found: seq<int> := [];
      assert pool[..0] == [] && Select([], free) == [];
      hide Select;
      for i := 0 to |pool|
        invariant |found| < 2 && found == Select(pool[..i], free)
      {
        assert pool[..i] + [pool[i]] == pool[..i + 1];
        SelectAppend(pool[..i], pool[i], free);
        SelectPrefix(pool, i + 1, free);
        var s := Slot(kind, pool[i]);
        if forall k :: k in paths ==> s !in paths[k].held {
          var content := device.Fetch(s);
          if content.Error? {
            return Error;
          }
          if content.value.None? {
            found := found + [pool[i]];
            if |found| == 2 {
              return Ok((found[0], found[1]));
            }
          }
        }
      }
      assert pool[..|pool|] == pool;
      return Error;
    }

    method Snapshot(key: PathKey) returns (r: Result<PathSnapshot>)
      requires Valid()
      ensures r.Ok? ==>
                && !recoveryRequired && key in paths && paths[key].stage.Ready? && paths[key].boot == boot
                && paths[key].WellFormed() && InSlots(paths[key].held, device.slots) && r.value == paths[key].Snapshot()
                && (resolver.stable ==> key in resolver.plans && resolver.plans[key] == paths[key].plan)
      ensures device.healthy && resolver.stable && !recoveryRequired && key in paths && paths[key].boot == boot
              && key in resolver.plans && resolver.plans[key] == paths[key].plan
              ==> r.Ok?
    {
      hide Kept, Sound, SlotData.Matches, Select, NativeSet, Distinct;
      if recoveryRequired || key !in paths {
        return Error;
      }
      var rec := paths[key];
      KeptRecord(key, paths, db.rows, device.slots, device.foreign, db.doubts, Macs(), Hops(), apart, recoveryRequired);

      var current := resolver.Current(key);
      if !rec.stage.Ready? || rec.boot != boot || current != Some(rec.plan) {
        return Error;
      }
      for i := 0 to 4
        invariant forall j :: 0 <= j < i ==> Holds(rec.held, rec.order[j], device.slots)
      {
        assert rec.order[i] in rec.held;
        assert Holds(rec.held, rec.order[i], device.slots);
        var content := device.Fetch(rec.order[i]);
        if content.Error? || content.value.None? || !rec.held[rec.order[i]].Matches(content.value.value) {
          return Error;
        }
      }
      return Ok(rec.Snapshot());
    }

    /** Writes the four slots in order, each preceded by a check of the resolver and followed by a readback. */
    method Fill(key: PathKey, rec: PathRecord) returns (r: Outcome)
      requires device.Valid() && rec.WellFormed() && Unused(rec.held, device.slots)
      modifies device`slots
      ensures device.Valid()
      ensures forall s :: s in old(device.slots) ==> s in device.slots && device.slots[s] == old(device.slots)[s]
      ensures forall s :: s in device.slots && s !in old(device.slots) ==> s in rec.held && Holds(rec.held, s, device.slots)
      ensures HopsSupported(rec.held, device.slots)
      ensures r.Done? ==> InSlots(rec.held, device.slots)
      ensures device.healthy && resolver.stable && key in resolver.plans && resolver.plans[key] == rec.plan ==> r.Done?
    {
      hide SlotData.Matches, SlotData.Payload;
      for i := 0 to 4
        invariant device.Valid()
        invariant forall s :: s in old(device.slots) ==> s in device.slots && device.slots[s] == old(device.slots)[s]
        invariant forall s :: s in device.slots && s !in old(device.slots) ==> s in rec.held && Holds(rec.held, s, device.slots)
        invariant forall j :: 0 <= j < i ==> Holds(rec.held, rec.order[j], device.slots)
        invariant forall j :: i <= j < 4 ==> rec.order[j] !in device.slots
      {
        var s := rec.order[i];
        var current := resolver.Current(key);
        if current != Some(rec.plan) {
          return Raised;
        }
        var before := device.Fetch(s);
        if before.Error? || before.value.Some? {
          return Raised;
        }
        r := device.Insert(s, rec.held[s]);
        if r.IsFailure() {
          return;
        }
        var after := device.Fetch(s);
        if after.Error? || after.value.None? || !rec.held[s].Matches(after.value.value) {
          return Raised;
        }
      }
      var current := resolver.Current(key);
      return if current == Some(rec.plan) then Done else Raised;
    }

    /** Removes one slot's contents if they are recognisably the record's, and confirms that the slot is empty. */
    method ClearSlot(rec: PathRecord, s: Slot) returns (r: Outcome)
      requires device.Valid() && s in rec.held && s !in device.foreign
      modifies device`slots
      ensures device.Valid()
      ensures device.slots == old(device.slots)
              || (device.slots == old(device.slots) - {s} && Holds(rec.held, s, old(device.slots)) && rec.boot == boot)
      ensures r.Done? ==> s !in device.slots
      ensures device.healthy ==> (r.Done? <==> (s in old(device.slots) ==> rec.boot == boot && Holds(rec.held, s, old(device.slots))))
    {
      hide SlotData.Matches, SlotData.Payload;
      var before := device.Fetch(s);
      if before.Error? {
        return Raised;
      }
      if before.value.Some? {
        if rec.boot != boot || !rec.held[s].Matches(before.value.value) {
          return Raised;
        }
        :- device.Delete(s);
      }
      var after := device.Fetch(s);
      return if after.Error? || after.value.Some? then Raised else Done;
    }

    /** Clears a record's slots in reverse: next hops before the source MACs they refer to. */
    method Clear(rec: PathRecord) returns (r: Outcome)
      requires device.Valid() && rec.WellFormed() && forall s :: s in rec.held ==> s !in device.foreign
      modifies device`slots
      ensures device.Valid()
      ensures forall s :: s in device.slots ==> s in old(device.slots) && device.slots[s] == old(device.slots)[s]
      ensures OnlyOwn(rec, boot, old(device.slots), device.slots)
      ensures MacsLast(rec, old(device.slots), device.slots)
      ensures r.Done? ==> Unused(rec.held, device.slots)
      ensures device.healthy ==> (r.Done? <==> Clearable(rec, boot, old(device.slots)))
    {
      hide SlotData.Matches, HopsSupported;
      ghost var before := device.slots;
      var i := 4;
      while i > 0
        invariant 0 <= i <= 4 && device.Valid()
        invariant forall s :: s in device.slots ==> s in before && device.slots[s] == before[s]
        invariant forall s :: s in before && s !in device.slots ==> s in rec.held && Holds(rec.held, s, before) && rec.boot == boot
        invariant forall j :: i <= j < 4 ==> rec.order[j] !in device.slots
        invariant forall j :: 0 <= j < i && rec.order[j] in before ==> rec.order[j] in device.slots
      {
        i := i - 1;
        r := ClearSlot(rec, rec.order[i]);
        if r.IsFailure() {
          ClearedInOrder(rec, before, device.slots, i);
          return;
        }
      }
      ClearedInOrder(rec, before, device.slots, 0);
      return Done;
    }

    method ReclaimRecorded(key: PathKey) returns (r: Outcome)
      requires device.Valid() && key in paths && paths[key].WellFormed()
      requires forall s :: s in paths[key].held ==> s !in device.foreign
      requires if key in db.rows then db.rows[key].SameSlots(paths[key]) else Unused(paths[key].held, device.slots)
      modifies this`paths, this`recoveryRequired, db`rows, db`doubts, device`slots
      ensures device.Valid()
      ensures Reclaiming(key, old(paths)[key], old(paths), old(db.rows), old(device.slots), paths, db.rows, device.slots)
      ensures OnlyOwn(old(paths)[key], boot, old(device.slots), device.slots)
      ensures r.Done? ==> key !in paths && key !in db.rows && recoveryRequired == old(recoveryRequired)
      ensures r.Raised? ==> recoveryRequired && key in paths
      ensures (key in db.rows ==> key in paths || key in db.doubts) && forall k :: k != key ==> (k in db.doubts <==> k in old(db.doubts))
      ensures db.healthy && device.healthy ==> (r.Done? <==> Clearable(old(paths)[key], boot, old(device.slots)))
    {
      hide HopsSupported, MacsLast, Holds, PathRecord.WellFormed, Clearable, SlotData.Matches;
      var rec := paths[key];
      MacsLastNone(rec, device.slots);
      r := Save(key, rec.(stage := Removing));
      if r.Done? {
        r := Clear(rec);
      }
      if r.Done? {
        r := Strike(key);
      }
      if r.Raised? {
        recoveryRequired := true;
      }
    }

    /** Removes a record from the database first and from memory last. */
    method Strike(key: PathKey) returns (r: Outcome)
      modifies this`paths, db`rows, db`doubts
      ensures AgreeExcept(old(db.rows), db.rows, key) && (key in db.rows ==> key in old(db.rows) && db.rows[key] == old(db.rows)[key])
      ensures AgreeExcept(old(paths), paths, key) && if r.Done? then key !in paths && key !in db.rows else paths == old(paths)
      ensures db.doubts == if r.Done? then old(db.doubts) - {key} else old(db.doubts) + {key}
      ensures db.healthy ==> r.Done?
    {
      r := db.Delete(key);
      if r.Done? {
        paths := paths - {key};
      }
    }

    /** The part of a release that follows an acknowledged drain: removes a path's slots and then its record. */
    method Reclaim(key: PathKey) returns (r: Outcome)
      requires Valid() && key in paths
      modifies this`paths, this`recoveryRequired, db`rows, db`doubts, device`slots
      ensures r.Crashed? ==> Durable()
      ensures !r.Crashed? ==> Valid()
      ensures Reclaiming(key, old(paths)[key], old(paths), old(db.rows), old(device.slots), paths, db.rows, device.slots)
      // nothing foreign and nothing of another boot is deleted
      ensures OnlyOwn(old(paths)[key], boot, old(device.slots), device.slots)
      ensures r.Done? ==> key !in paths && key !in db.rows && recoveryRequired == old(recoveryRequired)
      ensures r.Raised? ==> recoveryRequired
      ensures db.healthy && device.healthy ==> (r.Done? <==> Clearable(old(paths)[key], boot, old(device.slots)))
      ensures !old(recoveryRequired) && old(paths)[key].boot == boot ==> Clearable(old(paths)[key], boot, old(device.slots))
    {
      hide Kept, Tracked, Commissioned, Aligned, Suspected, Backed, SlotsCovered, SlotsApart, Sound, Distinct, Reclaiming, OnlyOwn, Clearable, InSlots, Select,
        NativeSet, PathRecord.WellFormed, PathRecord.Keeps, Unused;
      ghost var recs, rows, slots, doubts, fenced := paths, db.rows, device.slots, db.doubts, recoveryRequired;
      KeptRecord(key, paths, db.rows, device.slots, device.foreign, db.doubts, Macs(), Hops(), apart, recoveryRequired);
      r := ReclaimRecorded(key);
      ReclaimKept(key, recs[key], recs, rows, slots, doubts, fenced, paths, db.rows, device.slots, db.doubts, recoveryRequired,
                  device.foreign, Macs(), Hops(), apart);
    }

    /** The part of an acquisition after allocation: write intent, fill the slots, mark ready. */
    method AcquirePrepared(key: PathKey, rec: PathRecord) returns (r: Outcome)
      requires device.Valid() && key !in paths && !recoveryRequired
      requires rec.WellFormed() && rec.stage.Installing? && Unused(rec.held, device.slots)
      modifies this`paths, this`recoveryRequired, db`rows, db`doubts, device`slots
      ensures device.Valid()
      ensures Acquiring(key, rec, old(paths), old(db.rows), old(device.slots), paths, db.rows, device.slots)
      ensures r.Done? ==> !recoveryRequired && key in paths && paths[key] == rec.(stage := Ready) && key in db.rows && db.rows[key] == paths[key]
      ensures r.Done? ==> InSlots(rec.held, device.slots)
      ensures r.Raised? ==> recoveryRequired
      ensures (key in db.rows ==> key in paths || key in db.doubts) && forall k :: k != key ==> (k in db.doubts <==> k in old(db.doubts))
      ensures !db.healthy && (db.omen == Some(LostBefore) || db.omen == Some(LostAfter)) ==>
                && r.Raised?
                && LeftOpen(key, rec, db.omen == Some(LostAfter), old(paths), old(db.rows), old(device.slots), old(db.doubts),
                            paths, db.rows, device.slots, db.doubts)
      ensures r.Done? ==> Entered(key, rec.(stage := Ready), old(paths), old(db.rows), old(db.doubts), paths, db.rows, db.doubts)
      ensures db.healthy && device.healthy && resolver.stable && key in resolver.plans && resolver.plans[key] == rec.plan ==> r.Done?
    {
      hide HopsSupported, Holds, PathRecord.WellFormed, PathRecord.SameSlots, InSlots, Acquiring, AgreeExcept, SlotTable.Valid;
      ghost var recs, rows, slots := paths, db.rows, device.slots;
      r := Save(key, rec);
      IntentAcquiring(key, rec, recs, rows, slots, db.rows);
      if r.Done? {
        ghost var recs1, rows1 := paths, db.rows;
        r := FillRecorded(key, rec);
        FilledAcquiring(key, rec, recs, rows, slots, recs1, rows1, paths, db.rows, device.slots);
        OnlyChanged(key, recs, recs1, paths);
        OnlyChanged(key, rows, rows1, db.rows);
      }
    }

    /** Fills the slots of a path whose intent is recorded, and marks it ready. */
    method FillRecorded(key: PathKey, rec: PathRecord) returns (r: Outcome)
      requires device.Valid() && key in paths && paths[key] == rec && key in db.rows && db.rows[key] == rec
      requires rec.WellFormed() && Unused(rec.held, device.slots)
      modifies this`paths, this`recoveryRequired, db`rows, db`doubts, device`slots
      ensures device.Valid()
      ensures AgreeExcept(old(paths), paths, key) && AgreeExcept(old(db.rows), db.rows, key)
      ensures key in paths && paths[key].SameSlots(rec) && key in db.rows && db.rows[key].SameSlots(rec)
      ensures forall s :: s in old(device.slots) ==> s in device.slots && device.slots[s] == old(device.slots)[s]
      ensures forall s :: s in device.slots && s !in old(device.slots) ==> s in rec.held && Holds(rec.held, s, device.slots)
      ensures HopsSupported(rec.held, device.slots)
      ensures r.Done? ==> recoveryRequired == old(recoveryRequired) && paths[key] == rec.(stage := Ready) && db.rows[key] == paths[key]
      ensures r.Done? ==> InSlots(rec.held, device.slots)
      ensures r.Raised? ==> recoveryRequired
      ensures db.doubts == old(db.doubts) || db.doubts == if r.Done? then old(db.doubts) - {key} else old(db.doubts) + {key}
      ensures db.healthy && device.healthy && resolver.stable && key in resolver.plans && resolver.plans[key] == rec.plan ==> r.Done?
    {
      hide HopsSupported, Holds, PathRecord.WellFormed, InSlots, Unused, SlotTable.Valid;
      r := Fill(key, rec);
      if r.Done? {
        r := Save(key, rec.(stage := Ready));
      }
      if r.Raised? {
        recoveryRequired := true;
      }
    }

    method AcquirePlanned(key: PathKey, rec: PathRecord) returns (r: Outcome)
      requires Valid() && key !in paths && !recoveryRequired
      requires rec.WellFormed() && rec.stage.Installing? && Unused(rec.held, device.slots)
      requires forall s :: s in rec.held ==> s !in device.foreign
      requires (forall k :: k in paths ==> SlotsApart(paths[k].held, rec.held)) && InBlock(rec, Macs(), Hops())
      modifies this`paths, this`recoveryRequired, db`rows, db`doubts, device`slots
      ensures r.Crashed? ==> Durable()
      ensures !r.Crashed? ==> Valid()
      ensures Acquiring(key, rec, old(paths), old(db.rows), old(device.slots), paths, db.rows, device.slots)
      ensures r.Done? ==> !recoveryRequired && key in paths && paths[key] == rec.(stage := Ready)
      ensures r.Raised? ==> recoveryRequired
      ensures db.healthy && device.healthy && resolver.stable && key in resolver.plans && resolver.plans[key] == rec.plan ==> r.Done?
      ensures !db.healthy && (db.omen == Some(LostBefore) || db.omen == Some(LostAfter)) ==>
                && r.Raised?
                && LeftOpen(key, rec, db.omen == Some(LostAfter), old(paths), old(db.rows), old(device.slots), old(db.doubts),
                            paths, db.rows, device.slots, db.doubts)
      ensures r.Done? ==> Entered(key, rec.(stage := Ready), old(paths), old(db.rows), old(db.doubts), paths, db.rows, db.doubts)
    {
      hide Kept, Sound, Distinct, Acquiring, Select, NativeSet, PathRecord.WellFormed, Unused, InBlock, InSlots, SlotsApart, Entered, LeftOpen;
      ghost var recs, rows, slots, doubts := paths, db.rows, device.slots, db.doubts;
      NativeDistinct();
      r := AcquirePrepared(key, rec);
      AcquireKept(key, rec, recs, rows, slots, doubts, paths, db.rows, device.slots, db.doubts, recoveryRequired,
                  device.foreign, Macs(), Hops(), apart);
    }

    /** Allocates and fills two source-MAC and two next-hop slots for a path the resolver confirms. */
    method Acquire(key: PathKey, plan: Plan) returns (r: Outcome, snapshot: Option<PathSnapshot>, ghost rec: PathRecord)
      requires Valid()
      modifies this`paths, this`recoveryRequired, db`rows, db`doubts, device`slots
      ensures r.Crashed? ==> Durable()
      ensures !r.Crashed? ==> Valid()
      ensures (paths == old(paths) && db.rows == old(db.rows) && device.slots == old(device.slots) && recoveryRequired == old(recoveryRequired))
              || (&& !old(recoveryRequired) && key !in old(paths)
                  && (forall k :: k in old(paths) ==> SlotsApart(old(paths)[k].held, rec.held))
                  && Acquiring(key, rec, old(paths), old(db.rows), old(device.slots), paths, db.rows, device.slots))
      ensures r.Done? ==> !recoveryRequired && key !in old(paths) && key in paths && paths[key].plan == plan && paths[key].WellFormed()
      ensures r.Done? ==> paths[key].stage.Ready? && paths[key].boot == boot && key in db.rows && db.rows[key] == paths[key]
      ensures r.Done? ==> paths == old(paths)[key := paths[key]]
      // the two directions reverse each other between the same two ports
      ensures r.Done? ==> plan.forward.ingress == plan.backward.egress != plan.forward.egress == plan.backward.ingress
      // each direction has its own frame in the hardware, and the answer names its next hop
      ensures r.Done? ==> Programmed(plan, paths[key].order, device.slots)
      ensures r.Done? ==> snapshot == Some(PathSnapshot(plan.natDigest, plan.forward, plan.backward, paths[key].order[2].index, paths[key].order[3].index))
      ensures !plan.Valid() || old(recoveryRequired) || key in old(paths) ==> r.Raised? && paths == old(paths)
      ensures old(Acquirable(key, plan)) && db.healthy ==>
                && r.Done?
                && Entered(key, old(Drafted(plan)).(stage := Ready), old(paths), old(db.rows), old(db.doubts), paths, db.rows, db.doubts)
                && snapshot == Some(old(Answer(plan)))
      // a database that raises leaves the owner fenced and in doubt about this row alone, written or not
      ensures old(Acquirable(key, plan)) && !db.healthy && (db.omen == Some(LostBefore) || db.omen == Some(LostAfter)) ==>
                && r.Raised? && recoveryRequired
                && LeftOpen(key, old(Drafted(plan)), db.omen == Some(LostAfter), old(paths), old(db.rows), old(device.slots), old(db.doubts),
                            paths, db.rows, device.slots, db.doubts)
    {
      hide Valid, Durable, Acquiring, SlotsApart, LeftOpen, PathRecord.WellFormed, Unused, UnicastMac, InBlock, Drafted, FreeOf, Programmed, InSlots;
      rec := PathRecord(0, Installing, plan, [], map[]);
      snapshot := None;
      if !plan.Valid() || recoveryRequired || key in paths {
        return Raised, None, rec;
      }
      var drafted := Draft(key, plan);
      if drafted.Error? {
        return Raised, None, rec;
      }
      rec := drafted.value;
      r := AcquirePlanned(key, drafted.value);
      if r.Done? {
        var confirmed := Snapshot(key);
        if confirmed.Error? {
          Fence();
          return Raised, None, rec;
        }
        snapshot := Some(confirmed.value);
      }
    }

    /** Nothing but a failing call stands in the way of this path. */
    ghost predicate Acquirable(key: PathKey, plan: Plan)
      reads this, device, resolver
    {
      && plan.Valid() && !recoveryRequired && key !in paths && device.healthy && resolver.stable && key in resolver.plans && resolver.plans[key] == plan
      && |FreeOf(Smac, smacPool)| >= 2 && |FreeOf(NextHop, hopPool)| >= 2 && Distinct(smacPool) && Distinct(hopPool)
    }

    /** The two slots an allocation takes. */
    ghost function FirstFree(kind: Kind, pool: seq<int>): (int, int)
      requires |FreeOf(kind, pool)| >= 2
      reads this, device
    {
      (FreeOf(kind, pool)[0], FreeOf(kind, pool)[1])
    }

    /** What an acquisition answers: the plan, over the first two free next hops. */
    ghost function Answer(plan: Plan): PathSnapshot
      requires |FreeOf(NextHop, hopPool)| >= 2
      reads this, device
    {
      PathSnapshot(plan.natDigest, plan.forward, plan.backward, FreeOf(NextHop, hopPool)[0], FreeOf(NextHop, hopPool)[1])
    }

    /** The record of a plan over the first free slots. */
    ghost function Drafted(plan: Plan): (rec: PathRecord)
      requires |FreeOf(Smac, smacPool)| >= 2 && |FreeOf(NextHop, hopPool)| >= 2 && Distinct(smacPool) && Distinct(hopPool)
      reads this, device
      ensures rec.boot == boot && rec.plan == plan
    {
      SelectFacts(smacPool, FreeSet(Smac, smacPool, paths, device.slots));
      SelectFacts(hopPool, FreeSet(NextHop, hopPool, paths, device.slots));
      Allocation(boot, plan, FirstFree(Smac, smacPool), FirstFree(NextHop, hopPool))
    }

    /** The record of a path over free slots, once the resolver confirms the plan. */
    method Draft(key: PathKey, plan: Plan) returns (rec: Result<PathRecord>)
      requires Valid() && !recoveryRequired
      ensures rec.Ok? ==>
                && |FreeOf(Smac, smacPool)| >= 2 && |FreeOf(NextHop, hopPool)| >= 2 && Distinct(smacPool) && Distinct(hopPool) && rec.value == Drafted(plan)
                && rec.value.plan == plan && rec.value.stage.Installing? && rec.value.WellFormed() && Unused(rec.value.held, device.slots)
                && (forall s :: s in rec.value.held ==> s !in device.foreign) && InBlock(rec.value, Macs(), Hops())
                && (forall k :: k in paths ==> SlotsApart(paths[k].held, rec.value.held))
                && (forall slots :: InSlots(rec.value.held, slots) ==> Programmed(plan, rec.value.order, slots))
                && |rec.value.order| == 4 && rec.value.order[2].index == FreeOf(NextHop, hopPool)[0] && rec.value.order[3].index == FreeOf(NextHop, hopPool)[1]
      ensures Acquirable(key, plan) ==> rec.Ok?
    {
      hide Sound, Settled, Select, Disjoint, Backed, Suspected, Aligned, OwnRows;
      var current := resolver.Current(key);
      if current != Some(plan) {
        return Error;
      }
      var smacs := Allocate(Smac, smacPool);
      if smacs.Error? {
        return Error;
      }
      var hops := Allocate(NextHop, hopPool);
      if hops.Error? {
        return Error;
      }
      var planned := Allocation(boot, plan, smacs.value, hops.value);
      DraftIsBlock(plan, smacs.value, hops.value);
      AllocationIsProgrammed(boot, plan, smacs.value, hops.value);
      hide Tracked;
      AllocationIsFree(planned, smacs.value, hops.value, boot, plan, paths, device.slots, device.foreign);
      return Ok(planned);
    }

    lemma DraftIsBlock(plan: Plan, smacs: (int, int), hops: (int, int))
      requires Valid() && !recoveryRequired && |FreeOf(Smac, smacPool)| >= 2 && |FreeOf(NextHop, hopPool)| >= 2
      requires smacs == FirstFree(Smac, smacPool) && hops == FirstFree(NextHop, hopPool)
      requires smacs.0 != smacs.1 && hops.0 != hops.1
      ensures InBlock(Allocation(boot, plan, smacs, hops), Macs(), Hops())
    {
      hide Select, Disjoint, Backed, Suspected, Aligned, OwnRows, Settled, Sound, SlotsCovered, FreeSet, NativeSet, Commissioned;
      var live: PathRows :| Within(live, paths) && Upheld(live, device.slots, device.foreign);
      var j := AllocationIsBlock(paths, device.slots, device.foreign, smacPool, hopPool, Macs(), Hops());
    }

    method Fence()
      requires Valid()
      modifies this`recoveryRequired
      ensures Valid() && recoveryRequired
    {
      hide Sound, Tracked, Settled, OwnRows, AllInBlocks, Select, Disjoint, Distinct;
      recoveryRequired := true;
    }

    /** Reopens an owner that holds nothing. */
    method Reopen()
      requires Valid() && paths.Keys == {}
      modifies this`recoveryRequired, this`apart
      ensures Valid() && !recoveryRequired && apart && paths == map[] && device.slots == device.foreign
    {
      hide Kept, Sound, Tracked, Select, NativeSet, Distinct;
      NothingKept(paths, db.rows, device.slots, device.foreign, db.doubts, Macs(), Hops(), apart, recoveryRequired);
      recoveryRequired, apart := false, true;
    }
  }

  // ------------------------------------------------------------ memory, database and hardware

  /** While the records of a process share no slot, each next hop in use stands beside its own record's source MACs. */
  lemma HopsStand(o: PathOwner)
    requires o.Valid() && o.apart
    ensures Disjoint(o.paths) && forall k :: k in o.paths ==> HopsSupported(o.paths[k].held, o.device.slots)
  {
    hide Aligned, Backed, Suspected, Sound, OwnRows, AllInBlocks, Select, Settled, SlotsCovered, Disjoint, Commissioned, Distinct, HopsSupported;
    var live: PathRows :| Within(live, o.paths) && Upheld(live, o.device.slots, o.device.foreign);
    forall k | k in o.paths
      ensures HopsSupported(o.paths[k].held, o.device.slots)
    {
      CommissionedRecord(k, o.paths, o.device.foreign);
      KeeperSupports(k, o.paths, live, o.device.slots, o.device.foreign);
    }
  }

  lemma KeeperSupports(k: PathKey, paths: PathRows, live: PathRows, slots: SlotMap, foreign: SlotMap)
    requires k in paths && Within(live, paths) && SlotsCovered(live, slots, foreign) && Disjoint(paths)
    requires paths[k].WellFormed() && forall s :: s in paths[k].held ==> s !in foreign
    ensures HopsSupported(paths[k].held, slots)
  {
    hide Holds, SlotsCovered;
    forall h: Slot, m: Slot | h in paths[k].held && m in paths[k].held && h.kind.NextHop? && m.kind.Smac? && h in slots
      ensures Holds(paths[k].held, m, slots)
    {
      var keeper := KeeperOf(live, slots, foreign, h);
      assert keeper == k by {
        hide PathRecord.WellFormed, PathRecord.Keeps;
        assert !SlotsApart(paths[keeper].held, paths[k].held);
      }
      assert m == paths[k].order[0] || m == paths[k].order[1];
    }
  }

  /** In the hardware, whatever has become of processes and database writes, every next hop an owner wrote refers to a
      source MAC that is in its slot. */
  lemma NoHopWithoutMac(rows: PathRows, slots: SlotMap, foreign: SlotMap)
    requires Sound(rows, slots, foreign)
    ensures forall h :: h in slots && h !in foreign && h.kind.NextHop? ==>
              && slots[h].HopData? && Slot(Smac, slots[h].smac) in slots && Slot(Smac, slots[h].smac) !in foreign
  {
    hide Aligned, SlotsCovered, Commissioned, PathRecord.WellFormed, PathRecord.Keeps, Disjoint;
    var live: PathRows :| Within(live, rows) && Upheld(live, slots, foreign);
    forall h | h in slots && h !in foreign && h.kind.NextHop?
      ensures slots[h].HopData? && Slot(Smac, slots[h].smac) in slots && Slot(Smac, slots[h].smac) !in foreign
    {
      var k := KeeperOf(live, slots, foreign, h);
      CommissionedRecord(k, rows, foreign);
      KeptHop(rows[k], h, slots);
    }
  }

  /** A next hop that a record keeps refers to one of the record's source MACs, which is in its slot. */
  lemma KeptHop(rec: PathRecord, h: Slot, slots: SlotMap)
    requires rec.WellFormed() && rec.Keeps(h, slots) && h.kind.NextHop?
    ensures slots[h].HopData? && Slot(Smac, slots[h].smac) in slots && Slot(Smac, slots[h].smac) in rec.held
  {
    var m := if h == rec.order[2] then rec.order[0] else rec.order[1];
    assert h == rec.order[2] || h == rec.order[3];
    assert rec.InUse(m, slots) && rec.RefersTo(h, m) && m == Slot(Smac, m.index);
  }

  /** At rest no slot belongs to two paths in memory.  The same is true of the database exactly when no row that is left of
      a call in doubt names a slot of another row: a caller can look those rows up. */
  lemma RowsApartIff(o: PathOwner)
    requires o.Valid() && !o.recoveryRequired
    ensures Disjoint(o.paths)
    ensures Disjoint(o.db.rows)
            <==> forall k, m :: k in o.db.doubts && k in o.db.rows && k !in o.paths && m in o.db.rows && m != k
                   ==> SlotsApart(o.db.rows[k].held, o.db.rows[m].held)
    ensures o.db.doubts == {} ==> Disjoint(o.db.rows)
  {
    hide Aligned, Backed, Sound, OwnRows, AllInBlocks, Select, Commissioned, Distinct, InSlots, Upheld, SlotTable.Valid;
    var rows := o.db.rows;
    if forall k, m :: k in o.db.doubts && k in rows && k !in o.paths && m in rows && m != k ==> SlotsApart(rows[k].held, rows[m].held) {
      forall a, b | a in rows && b in rows && a != b
        ensures SlotsApart(rows[a].held, rows[b].held)
      {
        if a in o.paths && b in o.paths {
          assert SlotsApart(o.paths[a].held, o.paths[b].held);
        } else if a in o.paths {
          assert SlotsApart(rows[b].held, rows[a].held);
        }
      }
    }
  }

  /** Both directions of two plans write the same frames: the slots of one cannot be told from those of the other. */
  predicate SameFrames(a: Plan, b: Plan) {
    SameFrame(a.forward, b.forward) && SameFrame(a.backward, b.backward)
  }

  predicate SameFrame(a: Direction, b: Direction) {
    && a.sourceMac == b.sourceMac && a.lif == b.lif && a.destinationMac == b.destinationMac && a.mtu == b.mtu && a.vlan == b.vlan
  }

  /** Two allocations of the same four slots, one of which is in place: the other can be cleared only if it would have
      written the same. */
  lemma ClearableIff(boot: nat, plan: Plan, plan1: Plan, smacs: (int, int), hops: (int, int), slots: SlotMap)
    requires smacs.0 != smacs.1 && hops.0 != hops.1
    requires InSlots(Allocation(boot, plan1, smacs, hops).held, slots)
    ensures Clearable(Allocation(boot, plan, smacs, hops), boot, slots) <==> SameFrames(plan, plan1)
    ensures !SlotsApart(Allocation(boot, plan, smacs, hops).held, Allocation(boot, plan1, smacs, hops).held)
  {
    var a, b := Allocation(boot, plan, smacs, hops), Allocation(boot, plan1, smacs, hops);
    var m0, m1, h0, h1 := Slot(Smac, smacs.0), Slot(Smac, smacs.1), Slot(NextHop, hops.0), Slot(NextHop, hops.1);
    assert a.held.Keys == {m0, m1, h0, h1} == b.held.Keys;
    assert Holds(b.held, m0, slots) && Holds(b.held, m1, slots) && Holds(b.held, h0, slots) && Holds(b.held, h1, slots);
    assert (a.held[m0].Matches(slots[m0]) && a.held[h0].Matches(slots[h0])) <==> SameFrame(plan.forward, plan1.forward);
    assert (a.held[m1].Matches(slots[m1]) && a.held[h1].Matches(slots[h1])) <==> SameFrame(plan.backward, plan1.backward);
  }

  /** An acquisition whose first database call raises, and the recovery of an owner that holds nothing: the process has
      seen the same and remembers the same whether or not the row was written. */
  method AcquireInDoubt(o: PathOwner, key: PathKey, plan: Plan, written: bool) returns (r: Outcome)
    requires o.Valid() && o.Acquirable(key, plan) && o.paths == o.db.rows == map[]
    modifies o, o.db, o.device`slots
    ensures o.Valid() && r.Raised? && !o.recoveryRequired && o.paths == map[] && o.device.slots == o.device.foreign && o.db.healthy && o.device.healthy
    ensures o.Acquirable(key, plan) && o.Drafted(plan) == old(o.Drafted(plan))
    ensures o.db.rows == if written then map[key := o.Drafted(plan)] else map[]
  {
    hide Kept, Sound, Select, Distinct, Plan.Valid, FreeSet;
    o.db.healthy, o.db.omen := false, Some(if written then LostAfter else LostBefore);
    var snapshot;
    ghost var rec;
    r, snapshot, rec := o.Acquire(key, plan);
    o.db.healthy := true;
    o.Reopen();
  }

  lemma SameRoom(o: PathOwner, first: PathKey, plan: Plan, second: PathKey, plan1: Plan)
    requires o.Acquirable(first, plan) && o.paths == map[]
    requires plan1.Valid() && second in o.resolver.plans && o.resolver.plans[second] == plan1
    ensures o.Acquirable(second, plan1)
    ensures var m, h := o.FirstFree(Smac, o.smacPool), o.FirstFree(NextHop, o.hopPool); m.0 != m.1 && h.0 != h.1
  {
    SelectFacts(o.smacPool, FreeSet(Smac, o.smacPool, o.paths, o.device.slots));
    SelectFacts(o.hopPool, FreeSet(NextHop, o.hopPool, o.paths, o.device.slots));
  }

  lemma SettledRecord(o: PathOwner, key: PathKey)
    requires o.Valid() && !o.recoveryRequired && key in o.paths
    ensures InSlots(o.paths[key].held, o.device.slots) && o.Durable() && Distinct(o.smacPool) && Distinct(o.hopPool)
  {
    KeptRecord(key, o.paths, o.db.rows, o.device.slots, o.device.foreign, o.db.doubts, o.Macs(), o.Hops(), o.apart, o.recoveryRequired);
  }

  lemma TwoRows(x: PathKey, a: PathRecord, y: PathKey, b: PathRecord)
    requires x != y
    ensures Disjoint(map[x := a, y := b]) <==> SlotsApart(a.held, b.held)
    ensures Disjoint(map[y := b])
  {
    var rows: PathRows := map[x := a, y := b];
    assert x in rows && y in rows;
  }

  /** Two paths in turn, the first in doubt: the second gets the very same four slots.  A restart finds two rows on them
      exactly when the first one's row was written, and then the first can be reclaimed exactly when both plans write the
      same frames. */
  method SlotsTwice(o: PathOwner, first: PathKey, plan: Plan, second: PathKey, plan1: Plan, written: bool)
      returns (restarted: PathOwner, reclaimed: Outcome)
    requires o.Valid() && o.Acquirable(first, plan) && o.paths == o.db.rows == map[] && o.device.slots == o.device.foreign
    requires first != second && plan1.Valid() && second in o.resolver.plans && o.resolver.plans[second] == plan1
    modifies o, o.db, o.device`slots
    ensures restarted.db == o.db && restarted.device == o.device && second in o.paths
    ensures restarted.apart <==> !written
    ensures reclaimed.Done? <==> !written || SameFrames(plan, plan1)
  {
    hide Kept, Sound, Select, Distinct, Plan.Valid, FreeSet, SameFrames, Clearable, PathOwner.Valid, PathOwner.FreeOf, Allocation, Disjoint, SlotsApart, InSlots;
    var r := AcquireInDoubt(o, first, plan, written);
    SameRoom(o, first, plan, second, plan1);
    ghost var smacs, hops := o.FirstFree(Smac, o.smacPool), o.FirstFree(NextHop, o.hopPool);
    ghost var stale, live := o.Drafted(plan), o.Drafted(plan1).(stage := Ready);
    restarted := SucceedAndRestart(o, second, plan1);
    ClearableIff(o.boot, plan, plan1, smacs, hops, o.device.slots);
    TwoRows(first, stale, second, live);
    reclaimed := Done;
    if first in restarted.paths {
      reclaimed := restarted.Reclaim(first);
    }
  }

  /** An acquisition that nothing stands in the way of, and a restart. */
  method SucceedAndRestart(o: PathOwner, key: PathKey, plan: Plan) returns (restarted: PathOwner)
    requires o.Valid() && o.Acquirable(key, plan) && o.db.healthy
    modifies o, o.db, o.device`slots
    ensures o.db.rows == old(o.db.rows)[key := old(o.Drafted(plan)).(stage := Ready)] && key in o.paths
    ensures InSlots(old(o.Drafted(plan)).held, o.device.slots) && o.db.healthy && o.device.healthy
    ensures fresh(restarted) && restarted.Valid() && restarted.db == o.db && restarted.device == o.device && restarted.boot == o.boot
    ensures restarted.paths == o.db.rows && (restarted.apart <==> Disjoint(o.db.rows))
  {
    hide Kept, Sound, Select, Distinct, Plan.Valid, PathOwner.FreeOf, Allocation, InSlots, Disjoint, PathOwner.Valid, SlotsApart;
    var r, snapshot;
    ghost var rec;
    r, snapshot, rec := o.Acquire(key, plan);
    SettledRecord(o, key);
    restarted := new PathOwner(o.db, o.device, o.resolver, o.boot, o.smacPool, o.hopPool);
  }
}
