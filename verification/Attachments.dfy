/** Durable ownership of ingress port/VLAN selectors and of the LIF and LEF slots behind them. */
module Attachments {
  import opened Outcomes

  datatype Kind = Lef | Lif
  datatype Slot = Slot(kind: Kind, index: int)

  datatype Plan = Plan(interface: string, revision: string, zone: int, vlan: int, ports: seq<int>, missNextHop: int) {
    predicate Valid() {
      && 0 <= zone < 65536 && 0 <= vlan < 4095 && 0 <= missNextHop < 65536
      && 1 <= |ports| <= 8 && (forall i :: 0 <= i < |ports| ==> 1 <= ports[i] <= 63)
      && forall i, j :: 0 <= i < j < |ports| ==> ports[i] < ports[j]
    }
    /** Some traffic would be claimed by both plans. */
    predicate Clashes(other: Plan) {
      vlan == other.vlan && exists p :: p in ports && p in other.ports
    }
  }

  datatype Item = Item(slot: Slot, data: int)
  datatype Stage = Installing | Ready | Removing

  /** A journaled attachment: its egress slots, then its ingress slots, one of each per port. */
  datatype Record = Record(boot: nat, stage: Stage, plan: Plan, items: seq<Item>) {
    predicate WellFormed() {
      && |items| == 2 * |plan.ports|
      && (forall i :: 0 <= i < |items| ==> items[i].slot.kind == if i < |plan.ports| then Lef else Lif)
      && forall i, j :: 0 <= i < j < |items| ==> items[i].slot != items[j].slot
    }
    ghost predicate Fills(s: Slot, d: int) {
      exists i :: 0 <= i < |items| && items[i].slot == s && items[i].data == d
    }
    predicate SameClaim(other: Record) {
      boot == other.boot && plan == other.plan && items == other.items
    }
    /** The slot holds what the record put there, and every slot the record writes before it is in use. */
    ghost predicate Keeps(s: Slot, slots: Slots) {
      && s in slots
      && exists i :: 0 <= i < |items| && items[i].slot == s && items[i].data == slots[s] && forall j :: 0 <= j < i ==> items[j].slot in slots
    }
    ghost predicate Active(slots: Slots) {
      !Unused(slots)
    }
    ghost predicate Unused(slots: Slots) {
      forall i :: 0 <= i < |items| ==> items[i].slot !in slots
    }
    /** The slots in use are the first ones, so an ingress slot is in use only while every egress slot is. */
    ghost predicate Ordered(slots: Slots) {
      forall i, j :: 0 <= i < j < |items| && items[j].slot in slots ==> items[i].slot in slots
    }
    predicate Apart(other: Record) {
      forall i, j :: 0 <= i < |items| && 0 <= j < |other.items| ==> items[i].slot != other.items[j].slot
    }
  }

  type Slots = map<Slot, int>
  type Rows = map<string, Record>

  ghost predicate Proper(recs: Rows, foreign: Slots) {
    forall k :: k in recs ==> recs[k].WellFormed() && recs[k].Unused(foreign)
  }

  /** Every slot in use belongs to a record, together with all the slots that the record writes before it: an ingress
      slot in use has all the egress slots of its attachment. */
  ghost predicate Covered(recs: Rows, slots: Slots, foreign: Slots) {
    forall s :: s in slots && s !in foreign ==> exists k :: k in recs && recs[k].Keeps(s, slots)
  }

  /** No slot belongs to two records. */
  predicate Exclusive(recs: Rows) {
    forall a, b :: a in recs && b in recs && a != b ==> recs[a].Apart(recs[b])
  }

  /** No port/VLAN selector belongs to two records. */
  ghost predicate Selective(recs: Rows) {
    forall a, b :: a in recs && b in recs && a != b ==> !recs[a].plan.Clashes(recs[b].plan)
  }

  ghost predicate AllOrdered(recs: Rows, slots: Slots) {
    forall k :: k in recs ==> recs[k].Ordered(slots)
  }

  ghost predicate Backed(held: Rows, rows: Rows, slots: Slots) {
    forall k :: k in held ==> if k in rows then rows[k].SameClaim(held[k]) else held[k].Unused(slots)
  }

  /** Attachments in use claim no selector twice. */
  ghost predicate ActiveApart(recs: Rows, slots: Slots) {
    forall a, b :: a in recs && b in recs && a != b && recs[a].Active(slots) && recs[b].Active(slots) ==> !recs[a].plan.Clashes(recs[b].plan)
  }

  /** A row that memory lacks is one whose last journal call was not acknowledged. */
  ghost predicate Suspected(held: Rows, rows: Rows, doubts: set<string>) {
    forall k :: k in rows ==> k in held || k in doubts
  }

  ghost predicate Within(live: Rows, rows: Rows) {
    forall k :: k in live ==> k in rows && rows[k] == live[k]
  }

  /** These records account for all that is in use, and no slot and no selector belongs to two of them. */
  ghost predicate Upheld(live: Rows, slots: Slots, foreign: Slots) {
    Covered(live, slots, foreign) && Exclusive(live) && Selective(live)
  }

  /** What survives process death, whatever became of journal writes: everything in use belongs to rows that share neither
      slots nor selectors. */
  ghost predicate Sound(rows: Rows, slots: Slots, foreign: Slots) {
    Proper(rows, foreign) && exists live: Rows :: Within(live, rows) && Upheld(live, slots, foreign)
  }

  /** Memory beside the journal and the hardware. */
  ghost predicate Sane(held: Rows, rows: Rows, slots: Slots, foreign: Slots, doubts: set<string>) {
    && Proper(rows, foreign) && Proper(held, foreign) && Covered(held, slots, foreign) && Backed(held, rows, slots)
    && Exclusive(held) && AllOrdered(held, slots) && ActiveApart(held, slots) && Suspected(held, rows, doubts)
  }

  /** The records of memory that are in use, as journaled. */
  ghost function Live(held: Rows, rows: Rows, slots: Slots): Rows {
    map k | k in held && k in rows && held[k].Active(slots) :: rows[k]
  }

  lemma SaneIsSound(held: Rows, rows: Rows, slots: Slots, foreign: Slots, doubts: set<string>)
    requires Sane(held, rows, slots, foreign, doubts)
    ensures Sound(rows, slots, foreign)
  {
    hide Proper, Covered, Exclusive, Selective, Backed, ActiveApart, AllOrdered, Suspected, Live, Within;
    LiveCovered(held, rows, slots, foreign);
    LiveApart(held, rows, slots);
    LiveWithin(held, rows, slots);
    assert Upheld(Live(held, rows, slots), slots, foreign);
  }

  lemma LiveWithin(held: Rows, rows: Rows, slots: Slots)
    ensures Within(Live(held, rows, slots), rows)
  {
  }

  lemma LiveCovered(held: Rows, rows: Rows, slots: Slots, foreign: Slots)
    requires Covered(held, slots, foreign) && Backed(held, rows, slots)
    ensures Covered(Live(held, rows, slots), slots, foreign)
  {
    var live := Live(held, rows, slots);
    forall s | s in slots && s !in foreign
      ensures exists k :: k in live && live[k].Keeps(s, slots)
    {
      var k :| k in held && held[k].Keeps(s, slots);
      assert k in live && live[k].Keeps(s, slots);
    }
  }

  lemma LiveApart(held: Rows, rows: Rows, slots: Slots)
    requires Exclusive(held) && ActiveApart(held, slots) && Backed(held, rows, slots)
    ensures Exclusive(Live(held, rows, slots)) && Selective(Live(held, rows, slots))
  {
    hide Plan.Clashes;
    var live := Live(held, rows, slots);
    forall a, b | a in live && b in live && a != b
      ensures live[a].Apart(live[b]) && !live[a].plan.Clashes(live[b].plan)
    {
      assert held[a].Apart(held[b]);
    }
  }

  /** A journal whose rows share no slot can be taken over as it is. */
  lemma SoundIsSane(rows: Rows, slots: Slots, foreign: Slots)
    requires Sound(rows, slots, foreign) && Exclusive(rows)
    ensures Sane(rows, rows, slots, foreign, {})
  {
    hide Proper, Covered, Exclusive, Selective, AllOrdered, ActiveApart, Within;
    var live: Rows :| Within(live, rows) && Upheld(live, slots, foreign);
    WithinCovers(live, rows, slots, foreign);
    WithinApart(live, rows, slots, foreign);
    BackedByItself(rows, slots);
  }

  lemma BackedByItself(rows: Rows, slots: Slots)
    ensures Backed(rows, rows, slots) && Suspected(rows, rows, {})
  {
  }

  lemma WithinCovers(live: Rows, rows: Rows, slots: Slots, foreign: Slots)
    requires Within(live, rows) && Covered(live, slots, foreign)
    ensures Covered(rows, slots, foreign)
  {
    hide Record.Keeps;
    forall s | s in slots && s !in foreign
      ensures exists k :: k in rows && rows[k].Keeps(s, slots)
    {
      var k :| k in live && live[k].Keeps(s, slots);
    }
  }

  lemma WithinApart(live: Rows, rows: Rows, slots: Slots, foreign: Slots)
    requires Proper(rows, foreign) && Exclusive(rows) && Within(live, rows) && Covered(live, slots, foreign) && Selective(live)
    ensures AllOrdered(rows, slots) && ActiveApart(rows, slots)
  {
    forall k | k in rows
      ensures rows[k].Ordered(slots) && (rows[k].Active(slots) ==> k in live)
    {
      KeptByItself(rows, live, slots, foreign, k);
    }
    hide Plan.Clashes, Record.WellFormed, Record.Active, Record.Ordered, Record.Keeps, Record.Unused, Record.Apart;
  }

  lemma KeptByItself(rows: Rows, live: Rows, slots: Slots, foreign: Slots, k: string)
    requires Proper(rows, foreign) && Exclusive(rows) && Within(live, rows) && Covered(live, slots, foreign) && k in rows
    ensures rows[k].Ordered(slots) && (rows[k].Active(slots) ==> k in live)
  {
    var rec := rows[k];
    assert rec.WellFormed() && rec.Unused(foreign);
    forall j | 0 <= j < |rec.items| && rec.items[j].slot in slots
      ensures k in live && forall i :: 0 <= i < j ==> rec.items[i].slot in slots
    {
      var s := rec.items[j].slot;
      var m :| m in live && live[m].Keeps(s, slots);
    }
  }

  // One record set to a new value.

  lemma SetProper(recs: Rows, foreign: Slots, name: string, rec: Record)
    requires Proper(recs, foreign) && rec.WellFormed() && rec.Unused(foreign)
    ensures Proper(recs[name := rec], foreign)
  {
  }

  lemma SetCovered(recs: Rows, slots: Slots, foreign: Slots, name: string, rec: Record)
    requires Covered(recs, slots, foreign) && (name in recs ==> rec.items == recs[name].items)
    ensures Covered(recs[name := rec], slots, foreign)
  {
    var recs' := recs[name := rec];
    forall s | s in slots && s !in foreign
      ensures exists k :: k in recs' && recs'[k].Keeps(s, slots)
    {
      var k :| k in recs && recs[k].Keeps(s, slots);
      assert recs'[k].Keeps(s, slots);
    }
  }

  lemma SetExclusive(recs: Rows, name: string, rec: Record)
    requires Exclusive(recs) && forall k :: k in recs && k != name ==> rec.Apart(recs[k]) && recs[k].Apart(rec)
    ensures Exclusive(recs[name := rec])
  {
  }

  lemma SetSelective(recs: Rows, name: string, rec: Record)
    requires Selective(recs) && forall k :: k in recs && k != name ==> !rec.plan.Clashes(recs[k].plan) && !recs[k].plan.Clashes(rec.plan)
    ensures Selective(recs[name := rec])
  {
  }

  lemma SetOrdered(recs: Rows, slots: Slots, name: string, rec: Record)
    requires AllOrdered(recs, slots) && rec.Ordered(slots)
    ensures AllOrdered(recs[name := rec], slots)
  {
  }

  lemma SetBacked(held: Rows, rows: Rows, slots: Slots, name: string, rec: Record)
    requires Backed(held, rows, slots)
    ensures Backed(held[name := rec], rows[name := rec], slots)
    ensures name !in held || rec.SameClaim(held[name]) ==> Backed(held, rows[name := rec], slots)
  {
  }

  lemma SetActive(recs: Rows, slots: Slots, name: string, rec: Record)
    requires ActiveApart(recs, slots) && (rec.Unused(slots) || (name in recs && rec.SameClaim(recs[name])))
    ensures ActiveApart(recs[name := rec], slots)
  {
    hide Plan.Clashes;
  }

  lemma SetSuspected(held: Rows, rows: Rows, doubts: set<string>, name: string, rec: Record)
    requires Suspected(held, rows, doubts)
    ensures Suspected(held[name := rec], rows[name := rec], doubts - {name}) && Suspected(held, rows[name := rec], doubts + {name})
  {
  }

  /** A new record over free slots, apart from every record in memory. */
  lemma AddSane(held: Rows, rows: Rows, slots: Slots, foreign: Slots, doubts: set<string>, name: string, rec: Record)
    requires Sane(held, rows, slots, foreign, doubts) && name !in held && rec.WellFormed() && rec.Unused(foreign) && rec.Unused(slots)
    requires forall k :: k in held ==> rec.Apart(held[k]) && held[k].Apart(rec)
    ensures Sane(held[name := rec], rows[name := rec], slots, foreign, doubts - {name})
    ensures Sane(held, rows[name := rec], slots, foreign, doubts + {name})
  {
    assert rec.Ordered(slots);
    hide Record.WellFormed, Plan.Clashes, Record.Apart, Record.Unused, Record.Ordered;
    hide Proper, Covered, Exclusive, AllOrdered, Backed, ActiveApart, Suspected;
    SetProper(held, foreign, name, rec);
    SetProper(rows, foreign, name, rec);
    SetCovered(held, slots, foreign, name, rec);
    SetExclusive(held, name, rec);
    SetOrdered(held, slots, name, rec);
    SetBacked(held, rows, slots, name, rec);
    SetActive(held, slots, name, rec);
    SetSuspected(held, rows, doubts, name, rec);
  }

  /** A record moving to another stage. */
  lemma RestageSane(held: Rows, rows: Rows, slots: Slots, foreign: Slots, doubts: set<string>, name: string, rec: Record)
    requires Sane(held, rows, slots, foreign, doubts) && name in held && rec.SameClaim(held[name])
    ensures Sane(held[name := rec], rows[name := rec], slots, foreign, doubts - {name})
    ensures Sane(held, rows[name := rec], slots, foreign, doubts + {name})
  {
    Reclaimed(held[name], rec, slots, foreign);
    assert rec.WellFormed() && rec.Unused(foreign) && rec.Ordered(slots);
    assert forall k :: k in held && k != name ==> rec.Apart(held[k]) && held[k].Apart(rec) by {
      hide Record.Apart;
      assert forall k :: k in held && k != name ==> held[name].Apart(held[k]) && held[k].Apart(held[name]);
    }
    hide Record.WellFormed, Plan.Clashes, Record.Apart, Record.Unused, Record.Ordered;
    hide Proper, Covered, Exclusive, AllOrdered, Backed, ActiveApart, Suspected;
    SetProper(held, foreign, name, rec);
    SetProper(rows, foreign, name, rec);
    SetCovered(held, slots, foreign, name, rec);
    SetExclusive(held, name, rec);
    SetOrdered(held, slots, name, rec);
    SetBacked(held, rows, slots, name, rec);
    SetActive(held, slots, name, rec);
    SetSuspected(held, rows, doubts, name, rec);
  }

  lemma SetSelectiveAgain(recs: Rows, name: string, rec: Record)
    requires name in recs && rec.plan == recs[name].plan
    ensures Selective(recs) ==> Selective(recs[name := rec])
  {
  }

  /** Everything about a record but its stage is in its claim. */
  lemma Reclaimed(a: Record, b: Record, slots: Slots, foreign: Slots)
    requires b.SameClaim(a)
    ensures (a.WellFormed() <==> b.WellFormed()) && (a.Unused(foreign) <==> b.Unused(foreign))
    ensures (a.Unused(slots) <==> b.Unused(slots)) && (a.Ordered(slots) <==> b.Ordered(slots))
    ensures forall c: Record :: (c.Apart(a) <==> c.Apart(b)) && (a.Apart(c) <==> b.Apart(c))
  {
  }

  /** Writing the next slot of a record, whose selectors are nobody else's. */
  lemma InsertSane(held: Rows, rows: Rows, slots: Slots, foreign: Slots, doubts: set<string>, name: string, i: nat)
    requires Sane(held, rows, slots, foreign, doubts) && Selective(held) && name in held && name in rows && i < |held[name].items|
    requires forall j :: 0 <= j < |held[name].items| ==> (held[name].items[j].slot in slots <==> j < i)
    ensures Sane(held, rows, slots[held[name].items[i].slot := held[name].items[i].data], foreign, doubts)
  {
    var item := held[name].items[i];
    var slots' := slots[item.slot := item.data];
    InsertCovered(held, slots, foreign, name, i);
    forall k | k in held
      ensures k !in rows ==> held[k].Unused(slots')
      ensures held[k].Ordered(slots')
    {
      assert held[k].Ordered(slots);
      if k != name {
        assert held[name].Apart(held[k]);
      }
    }
    hide Plan.Clashes, Record.Active, Covered, Record.WellFormed, Record.Unused, Record.Ordered, Record.Apart;
  }

  lemma InsertCovered(held: Rows, slots: Slots, foreign: Slots, name: string, i: nat)
    requires Covered(held, slots, foreign) && name in held && i < |held[name].items|
    requires forall j :: 0 <= j < |held[name].items| ==> (held[name].items[j].slot in slots <==> j < i)
    ensures Covered(held, slots[held[name].items[i].slot := held[name].items[i].data], foreign)
  {
    var item := held[name].items[i];
    var slots' := slots[item.slot := item.data];
    forall s | s in slots' && s !in foreign
      ensures exists k :: k in held && held[k].Keeps(s, slots')
    {
      if s == item.slot {
        assert held[name].Keeps(s, slots');
      } else {
        var k :| k in held && held[k].Keeps(s, slots);
        assert held[k].Keeps(s, slots');
      }
    }
  }

  /** Clearing the last slot of a record that is still in use. */
  lemma DeleteSane(held: Rows, rows: Rows, slots: Slots, foreign: Slots, doubts: set<string>, name: string, i: nat)
    requires Sane(held, rows, slots, foreign, doubts) && name in held && i < |held[name].items|
    requires forall j :: i < j < |held[name].items| ==> held[name].items[j].slot !in slots
    ensures Sane(held, rows, slots - {held[name].items[i].slot}, foreign, doubts)
  {
    var slots' := slots - {held[name].items[i].slot};
    DeleteOrdered(held, slots, foreign, name, i);
    DeleteCovered(held, slots, foreign, name, i);
    hide Proper, Exclusive, AllOrdered, Covered, Plan.Clashes;
  }

  lemma DeleteOrdered(held: Rows, slots: Slots, foreign: Slots, name: string, i: nat)
    requires name in held && i < |held[name].items| && AllOrdered(held, slots) && Exclusive(held) && Proper(held, foreign)
    requires forall j :: i < j < |held[name].items| ==> held[name].items[j].slot !in slots
    ensures AllOrdered(held, slots - {held[name].items[i].slot})
  {
  }

  lemma DeleteCovered(held: Rows, slots: Slots, foreign: Slots, name: string, i: nat)
    requires name in held && i < |held[name].items| && Covered(held, slots, foreign) && Exclusive(held) && Proper(held, foreign)
    requires forall j :: i < j < |held[name].items| ==> held[name].items[j].slot !in slots
    ensures Covered(held, slots - {held[name].items[i].slot}, foreign)
  {
    hide Record.Keeps, Record.Apart, Record.WellFormed, Record.Unused;
    var slots' := slots - {held[name].items[i].slot};
    forall s | s in slots' && s !in foreign
      ensures exists k :: k in held && held[k].Keeps(s, slots')
    {
      var k :| k in held && held[k].Keeps(s, slots);
      if k != name {
        OthersKeep(held[name], held[k], slots, i, s);
      } else {
        FirstOnesKept(held[k], slots, i, s);
      }
    }
  }

  lemma OthersKeep(rec: Record, other: Record, slots: Slots, i: nat, s: Slot)
    requires i < |rec.items| && rec.Apart(other) && other.Keeps(s, slots)
    ensures other.Keeps(s, slots - {rec.items[i].slot})
  {
  }

  lemma FirstOnesKept(rec: Record, slots: Slots, i: nat, s: Slot)
    requires i < |rec.items| && rec.WellFormed() && rec.Keeps(s, slots) && s != rec.items[i].slot
    requires forall j :: i < j < |rec.items| ==> rec.items[j].slot !in slots
    ensures rec.Keeps(s, slots - {rec.items[i].slot})
  {
  }

  /** Dropping a record none of whose slots is in use. */
  lemma DropSane(held: Rows, rows: Rows, slots: Slots, foreign: Slots, doubts: set<string>, name: string)
    requires Sane(held, rows, slots, foreign, doubts) && name in held && held[name].Unused(slots)
    ensures Sane(held - {name}, rows - {name}, slots, foreign, doubts - {name})
    ensures Sane(held, rows - {name}, slots, foreign, doubts + {name})
  {
    DropCovered(held, slots, foreign, name);
    DropBacked(held, rows, slots, name);
    DropRest(held, slots, foreign, name);
    DropRest(rows, slots, foreign, name);
    assert Suspected(held - {name}, rows - {name}, doubts - {name}) && Suspected(held, rows - {name}, doubts + {name});
    hide Proper, Exclusive, AllOrdered, Covered, Backed, Suspected, ActiveApart;
  }

  lemma DropRest(recs: Rows, slots: Slots, foreign: Slots, name: string)
    ensures Proper(recs, foreign) ==> Proper(recs - {name}, foreign)
    ensures Exclusive(recs) ==> Exclusive(recs - {name})
    ensures Selective(recs) ==> Selective(recs - {name})
    ensures ActiveApart(recs, slots) ==> ActiveApart(recs - {name}, slots)
    ensures AllOrdered(recs, slots) ==> AllOrdered(recs - {name}, slots)
  {
    hide Plan.Clashes, Record.Active, Record.Ordered, Record.WellFormed, Record.Apart;
  }

  lemma DropBacked(held: Rows, rows: Rows, slots: Slots, name: string)
    requires Backed(held, rows, slots) && name in held && held[name].Unused(slots)
    ensures Backed(held - {name}, rows - {name}, slots) && Backed(held, rows - {name}, slots)
  {
  }

  lemma DropCovered(held: Rows, slots: Slots, foreign: Slots, name: string)
    requires Covered(held, slots, foreign) && name in held && held[name].Unused(slots)
    ensures Covered(held - {name}, slots, foreign)
  {
    var held' := held - {name};
    forall s | s in slots && s !in foreign
      ensures exists k :: k in held' && held'[k].Keeps(s, slots)
    {
      var k :| k in held && held[k].Keeps(s, slots);
      assert held'[k].Keeps(s, slots);
    }
  }

  /** A call that had no effect leaves one more row in doubt. */
  lemma SaneDoubts(held: Rows, rows: Rows, slots: Slots, foreign: Slots, doubts: set<string>, doubts': set<string>)
    requires Sane(held, rows, slots, foreign, doubts) && doubts <= doubts'
    ensures Sane(held, rows, slots, foreign, doubts')
  {
    hide Proper, Exclusive, AllOrdered, Covered, Backed, ActiveApart;
  }

  // ------------------------------------------------------------------ the owner

  class SlotTable {
    var slots: Slots
    var foreign: Slots       // what others put there; no owner reads it
    var healthy: bool

    ghost predicate Valid()
      reads this
    {
      forall s :: s in foreign ==> s in slots && slots[s] == foreign[s]
    }

    constructor (contents: Slots)
      ensures Valid() && slots == foreign == contents
    {
      slots, foreign, healthy := contents, contents, true;
    }

    method Fetch(s: Slot) returns (r: Result<Option<int>>)
      ensures r.Ok? ==> r.value == if s in slots then Some(slots[s]) else None
      ensures healthy ==> r.Ok?
    {
      var answered: bool := *;
      if !healthy && !answered {
        return Error;
      }
      return Ok(if s in slots then Some(slots[s]) else None);
    }

    method Insert(s: Slot, d: int) returns (r: Outcome)
      requires Valid() && s !in slots
      modifies this`slots
      ensures Valid() && (slots == old(slots) || slots == old(slots)[s := d])
      ensures healthy ==> r.Done? && s in slots
    {
      var fate: Fate := *;
      if healthy {
        fate := Acknowledged;
      }
      if fate.TakesEffect() {
        slots := slots[s := d];
      }
      return fate.Ending();
    }

    method Delete(s: Slot) returns (r: Outcome)
      requires Valid() && s !in foreign
      modifies this`slots
      ensures Valid() && (slots == old(slots) || slots == old(slots) - {s})
      ensures healthy ==> r.Done? && s !in slots
    {
      var fate: Fate := *;
      if healthy {
        fate := Acknowledged;
      }
      if fate.TakesEffect() {
        slots := slots - {s};
      }
      return fate.Ending();
    }
  }

  /** The trusted commissioner: current plans, and the acknowledgements a release waits for. */
  class Commissioner {
    var plans: map<string, Plan>
    var steady: bool              // its answers are these plans, and it acknowledges

    method Current(name: string) returns (p: Option<Plan>)
      ensures steady ==> p == if name in plans then Some(plans[name]) else None
    {
      p := *;
      if steady {
        p := if name in plans then Some(plans[name]) else None;
      }
    }

    /** Ingress withdrawn, and every dependent flow and path drained. */
    method Clear(name: string) returns (acknowledged: bool)
      ensures steady ==> acknowledged
    {
      acknowledged := *;
      acknowledged := acknowledged || steady;
    }
  }

  /** Commissioned pools list every slot once. */
  predicate Commissioned(pools: Kind -> seq<int>) {
    forall kind: Kind, i, j :: 0 <= i < j < |pools(kind)| ==> pools(kind)[i] != pools(kind)[j]
  }

  predicate Taken(recs: Rows, s: Slot) {
    exists k :: k in recs && exists i :: 0 <= i < |recs[k].items| && recs[k].items[i].slot == s
  }

  /** No record names the slot, and it is empty. */
  predicate Free(recs: Rows, slots: Slots, s: Slot) {
    s !in slots && !Taken(recs, s)
  }

  /** The slots of a pool that no record names and that are empty, in order. */
  ghost function FreeOf(recs: Rows, slots: Slots, kind: Kind, ids: seq<int>): seq<int>
  {
    if ids == [] then []
    else FreeOf(recs, slots, kind, ids[..|ids| - 1]) + if Free(recs, slots, Slot(kind, ids[|ids| - 1])) then [ids[|ids| - 1]] else []
  }

  lemma {:induction false} FreeOfFacts(recs: Rows, slots: Slots, kind: Kind, ids: seq<int>)
    requires forall i, j :: 0 <= i < j < |ids| ==> ids[i] != ids[j]
    ensures var f := FreeOf(recs, slots, kind, ids);
      && (forall i, j :: 0 <= i < j < |f| ==> f[i] != f[j])
      && (forall x :: x in f <==> x in ids && Free(recs, slots, Slot(kind, x)))
    decreases |ids|
  {
    if ids == [] {
    } else {
      var n := |ids| - 1;
      assert ids == ids[..n] + [ids[n]];
      FreeOfFacts(recs, slots, kind, ids[..n]);
      hide Free;
    }
  }

  lemma FreeOfNext(recs: Rows, slots: Slots, kind: Kind, ids: seq<int>)
    ensures FreeOf(recs, slots, kind, ids[..0]) == []
    ensures forall n :: 0 <= n < |ids| ==> FreeOf(recs, slots, kind, ids[..n + 1]) == FreeOf(recs, slots, kind, ids[..n]) + if Free(recs, slots, Slot(kind, ids[n])) then [ids[n]] else []
  {
    assert forall n :: 0 <= n < |ids| ==> ids[..n + 1][..n] == ids[..n];
  }

  lemma {:induction false} FreeOfPrefix(recs: Rows, slots: Slots, kind: Kind, ids: seq<int>, n: nat)
    requires n <= |ids|
    ensures FreeOf(recs, slots, kind, ids[..n]) <= FreeOf(recs, slots, kind, ids)
    decreases |ids|
  {
    if n == |ids| {
      assert ids[..n] == ids;
    } else {
      var m := |ids| - 1;
      assert ids[..m][..n] == ids[..n];
      FreeOfPrefix(recs, slots, kind, ids[..m], n);
    }
  }

  class AttachmentOwner {
    const journal: Store<string, Record>
    const table: SlotTable
    const office: Commissioner
    const boot: nat
    const pools: Kind -> seq<int>
    const encode: (Plan, int, Kind) -> int
    var rows: Rows
    var recoveryRequired: bool
    ghost var apart: bool      // the loaded records shared no selector, or have been recovered since

    ghost predicate Valid()
      reads this, journal, table
    {
      && Commissioned(pools) && table.Valid() && Sane(rows, journal.rows, table.slots, table.foreign, journal.doubts)
      && (apart ==> Selective(rows)) && (!recoveryRequired ==> apart)
    }

    ghost predicate Durable()
      reads journal, table
    {
      table.Valid() && Sound(journal.rows, table.slots, table.foreign)
    }

    /** A restart takes over the journal, whatever stage its records are in. */
    constructor (journal: Store<string, Record>, table: SlotTable, office: Commissioner, boot: nat, pools: Kind -> seq<int>, encode: (Plan, int, Kind) -> int)
      requires Commissioned(pools) && table.Valid() && Sound(journal.rows, table.slots, table.foreign) && Exclusive(journal.rows)
      modifies journal`doubts
      ensures Valid() && this.journal == journal && this.table == table && this.boot == boot && rows == journal.rows
      ensures (recoveryRequired <==> rows != map[]) && (apart <==> Selective(rows)) && journal.doubts == {}
    {
      SoundIsSane(journal.rows, table.slots, table.foreign);
      hide Sane, Sound, Exclusive;
      var contents := journal.Load();
      this.journal, this.table, this.office, this.boot, this.pools, this.encode := journal, table, office, boot, pools, encode;
      rows, recoveryRequired, apart := contents, contents != map[], Selective(contents);
    }

    lemma Lasts()
      requires Valid()
      ensures Durable()
    {
      SaneIsSound(rows, journal.rows, table.slots, table.foreign, journal.doubts);
      hide Sane, Sound;
    }

    /** Journals a record, then remembers it. */
    method Save(name: string, rec: Record) returns (r: Outcome)
      requires Valid() && (apart ==> Selective(rows[name := rec]))
      requires Sane(rows[name := rec], journal.rows[name := rec], table.slots, table.foreign, journal.doubts - {name})
      requires Sane(rows, journal.rows[name := rec], table.slots, table.foreign, journal.doubts + {name})
      modifies this`rows, this`recoveryRequired, journal`rows, journal`doubts
      ensures if r.Crashed? then Durable() else Valid()
      ensures r.Done? ==> rows == old(rows)[name := rec] && journal.rows == old(journal.rows)[name := rec] && recoveryRequired == old(recoveryRequired)
      ensures !r.Done? ==> rows == old(rows)
      ensures r.Raised? ==> recoveryRequired
      ensures journal.doubts == if r.Done? then old(journal.doubts) - {name} else old(journal.doubts) + {name}
      ensures journal.healthy ==> r.Done?
      ensures !journal.healthy && journal.omen.Some? ==>
                r == journal.omen.value.Ending()
                && journal.rows == if journal.omen.value.TakesEffect() then old(journal.rows)[name := rec] else old(journal.rows)
    {
      hide Sane, Sound, Selective, Commissioned, SlotTable.Valid;
      SaneDoubts(rows, journal.rows, table.slots, table.foreign, journal.doubts, journal.doubts + {name});
      r := journal.Put(name, rec);
      if r.Done? {
        rows := rows[name := rec];
      } else {
        recoveryRequired := recoveryRequired || r.Raised?;
        SaneIsSound(rows, journal.rows, table.slots, table.foreign, journal.doubts);
      }
    }

    /** Refuses a journal in which two records name one slot. */
    static method Open(journal: Store<string, Record>, table: SlotTable, office: Commissioner, boot: nat, pools: Kind -> seq<int>, encode: (Plan, int, Kind) -> int)
      returns (r: Option<AttachmentOwner>)
      requires Commissioned(pools) && table.Valid() && Sound(journal.rows, table.slots, table.foreign)
      modifies journal`doubts
      ensures r.Some? <==> Exclusive(journal.rows)
      ensures r.Some? ==> fresh(r.value) && r.value.Valid() && r.value.journal == journal && r.value.table == table && r.value.boot == boot
      ensures r.Some? ==> r.value.rows == journal.rows && (r.value.apart <==> Selective(journal.rows)) && journal.doubts == {}
    {
      if !Exclusive(journal.rows) {
        return None;
      }
      hide Sound, Exclusive;
      var owner := new AttachmentOwner(journal, table, office, boot, pools, encode);
      return Some(owner);
    }

    /** The commissioner confirms this plan whenever it is asked. */
    predicate Confirmed(name: string, plan: Plan)
      reads office
    {
      office.steady && name in office.plans && office.plans[name] == plan
    }

    /** The first `count` slots of a pool that no record names and that read back empty. */
    method Allocate(kind: Kind, count: nat) returns (r: Result<seq<int>>)
      requires Commissioned(pools)
      ensures r.Ok? ==> count <= |FreeOf(rows, table.slots, kind, pools(kind))| && r.value == FreeOf(rows, table.slots, kind, pools(kind))[..count]
      ensures table.healthy ==> (r.Ok? <==> count <= |FreeOf(rows, table.slots, kind, pools(kind))|)
      ensures r.Ok? ==> |r.value| == count && forall i, j :: 0 <= i < j < count ==> r.value[i] != r.value[j]
      ensures r.Ok? ==> forall i :: 0 <= i < count ==> Free(rows, table.slots, Slot(kind, r.value[i]))
    {
      FreeOfFacts(rows, table.slots, kind, pools(kind));
      hide Free, FreeOf;
      r := Search(kind, pools(kind), count);
    }

    /** The loop over a pool. */
    method Search(kind: Kind, pool: seq<int>, count: nat) returns (r: Result<seq<int>>)
      ensures r.Ok? ==> count <= |FreeOf(rows, table.slots, kind, pool)| && r.value == FreeOf(rows, table.slots, kind, pool)[..count]
      ensures table.healthy ==> (r.Ok? <==> count <= |FreeOf(rows, table.slots, kind, pool)|)
    {
      var found := [];
      FreeOfNext(rows, table.slots, kind, pool);
      hide Free, FreeOf;
      for n := 0 to |pool|
        invariant found == FreeOf(rows, table.slots, kind, pool[..n]) && |found| <= count
      {
        if |found| == count {
          FreeOfPrefix(rows, table.slots, kind, pool, n);
          return Ok(found);
        }
        var fetched := table.Fetch(Slot(kind, pool[n]));
        if fetched.Error? {
          return Error;
        }
        var free := IsFree(Slot(kind, pool[n]), fetched.value);
        if free {
          found := found + [pool[n]];
        }
      }
      assert pool[..|pool|] == pool;
      return if |found| == count then Ok(found) else Error;
    }

    method IsFree(s: Slot, fetched: Option<int>) returns (free: bool)
      requires fetched == if s in table.slots then Some(table.slots[s]) else None
      ensures free <==> Free(rows, table.slots, s)
    {
      free := !Taken(rows, s) && fetched.None?;
    }

    /** Writes a record's slots in order, and nothing else. */
    method Fill(name: string) returns (r: Outcome)
      requires Valid() && apart && name in rows && name in journal.rows && rows[name].Unused(table.slots)
      modifies table`slots
      ensures if r.Crashed? then Durable() else Valid()
      ensures r.Done? ==> InPlace(rows[name], table.slots)
      ensures forall s :: s in old(table.slots) ==> s in table.slots && table.slots[s] == old(table.slots)[s]
      ensures table.healthy && Confirmed(name, rows[name].plan) ==> r.Done?
    {
      hide Valid, Durable, Record.WellFormed;
      var items := rows[name].items;
      for i := 0 to |items|
        invariant Valid() && forall j :: 0 <= j < |items| ==> (items[j].slot in table.slots <==> j < i)
        invariant forall j :: 0 <= j < i ==> table.slots[items[j].slot] == items[j].data
        invariant forall s :: s in old(table.slots) ==> s in table.slots && table.slots[s] == old(table.slots)[s]
      {
        r := FillOne(name, i);
        if r.IsFailure() {
          return;
        }
      }
      return Done;
    }

    method FillOne(name: string, i: nat) returns (r: Outcome)
      requires Valid() && apart && name in rows && name in journal.rows && i < |rows[name].items|
      requires forall j :: 0 <= j < |rows[name].items| ==> (rows[name].items[j].slot in table.slots <==> j < i)
      modifies table`slots
      ensures if r.Crashed? then Durable() else Valid()
      ensures var item := rows[name].items[i];
        && (table.slots == old(table.slots) || table.slots == old(table.slots)[item.slot := item.data])
        && (r.Done? ==> table.slots == old(table.slots)[item.slot := item.data])
        && (forall j :: 0 <= j < |rows[name].items| && j != i ==> rows[name].items[j].slot != item.slot)
      ensures table.healthy && Confirmed(name, rows[name].plan) ==> r.Done?
    {
      hide Selective, Sound, Covered, ActiveApart, Upheld, Suspected, Record.Keeps, Record.Active;
      ProperRecord(rows, table.foreign, name);
      hide Sane;
      InsertSane(rows, journal.rows, table.slots, table.foreign, journal.doubts, name, i);
      var item := rows[name].items[i];
      var current := office.Current(name);
      var fetched := table.Fetch(item.slot);
      if current != Some(rows[name].plan) || fetched.Error? || fetched.value.Some? {
        return Raised;
      }
      r := table.Insert(item.slot, item.data);
      if r.Crashed? {
        Lasts();
      }
      if r.IsFailure() {
        return;
      }
      fetched := table.Fetch(item.slot);
      if fetched != Ok(Some(item.data)) {
        return Raised;
      }
      return Done;
    }

    ghost predicate Room(ports: nat)
      reads this, table
    {
      ports <= |FreeOf(rows, table.slots, Lef, pools(Lef))| && ports <= |FreeOf(rows, table.slots, Lif, pools(Lif))|
    }

    /** The record of a plan over the first free slots. */
    ghost function Drafted(plan: Plan): Record
      requires Room(|plan.ports|)
      reads this, table
    {
      Record(boot, Installing, plan, Layout(plan, FreeOf(rows, table.slots, Lef, pools(Lef))[..|plan.ports|], FreeOf(rows, table.slots, Lif, pools(Lif))[..|plan.ports|], encode))
    }

    lemma DraftIsWired(plan: Plan)
      requires Room(|plan.ports|)
      ensures forall stage, slots :: InPlace(Drafted(plan).(stage := stage), slots) ==> Wired(plan, Drafted(plan).items, slots, encode)
    {
      hide FreeOf;
    }

    /** Free slots for every port of a plan, laid out egress first. */
    method Draft(plan: Plan) returns (r: Result<Record>)
      requires Valid()
      ensures r.Ok? ==>
                && r.value.boot == boot && r.value.stage == Installing && r.value.plan == plan && r.value.WellFormed()
                && r.value.Unused(table.foreign) && r.value.Unused(table.slots)
                && forall k :: k in rows ==> r.value.Apart(rows[k]) && rows[k].Apart(r.value)
      ensures r.Ok? ==> Room(|plan.ports|) && r.value == Drafted(plan)
      ensures table.healthy && Room(|plan.ports|) ==> r.Ok?
    {
      hide Sane, Selective;
      var lefs := Allocate(Lef, |plan.ports|);
      var lifs := Allocate(Lif, |plan.ports|);
      if lefs.Error? || lifs.Error? {
        return Error;
      }
      var items := Layout(plan, lefs.value, lifs.value, encode);
      assert forall i :: 0 <= i < |items| ==> Free(rows, table.slots, items[i].slot);
      return Ok(Record(boot, Installing, plan, items));
    }

    /** Journals a new attachment, once its name, its selectors and its slots are known to be free. */
    method Claim(name: string, plan: Plan) returns (r: Outcome)
      requires Valid()
      modifies this`rows, this`recoveryRequired, journal`rows, journal`doubts
      ensures if r.Crashed? then Durable() else Valid()
      ensures !r.Done? ==> rows == old(rows)
      ensures r.Done? ==>
                && !old(recoveryRequired) && !recoveryRequired && apart && name !in old(rows) && plan.Valid() && plan.interface == name
                && (forall k :: k in old(rows) ==> !plan.Clashes(old(rows)[k].plan))
                && old(Room(|plan.ports|)) && rows == old(rows)[name := old(Drafted(plan))] && name in journal.rows && rows[name].Unused(table.slots)
      ensures old(Claimable(name, plan)) && journal.healthy ==> r.Done? && journal.rows == old(journal.rows)[name := old(Drafted(plan))]
      // a journal that raises leaves the owner fenced and in doubt about this row alone, written or not
      ensures old(Claimable(name, plan)) && !journal.healthy && (journal.omen == Some(LostBefore) || journal.omen == Some(LostAfter)) ==>
                r.Raised? && recoveryRequired && journal.doubts == old(journal.doubts) + {name}
                && journal.rows == if journal.omen == Some(LostAfter) then old(journal.rows)[name := old(Drafted(plan))] else old(journal.rows)
      ensures old(Claimable(name, plan)) && r.Done? ==> journal.doubts == old(journal.doubts) - {name}
    {
      hide Sound, Plan.Valid, Drafted, Room, Record.WellFormed;
      if !plan.Valid() || plan.interface != name || recoveryRequired || name in rows {
        return Raised;
      }
      var current := office.Current(name);
      if current != Some(plan) || exists k :: k in rows && plan.Clashes(rows[k].plan) {
        return Raised;
      }
      ClashesBothWays(plan, rows);
      hide Plan.Clashes;
      var draft := Draft(plan);
      if draft.Error? {
        return Raised;
      }
      AddSane(rows, journal.rows, table.slots, table.foreign, journal.doubts, name, draft.value);
      SetSelective(rows, name, draft.value);
      hide Sane, Selective;
      r := Save(name, draft.value);
    }

    /** Nothing but a failing call stands in the way of claiming this plan. */
    ghost predicate Claimable(name: string, plan: Plan)
      reads this, table, office
    {
      && !recoveryRequired && name !in rows && plan.Valid() && plan.interface == name && Confirmed(name, plan)
      && table.healthy && Room(|plan.ports|) && forall k :: k in rows ==> !plan.Clashes(rows[k].plan)
    }

    /** Claims and fills an attachment. */
    method Acquire(name: string, plan: Plan) returns (r: Outcome)
      requires Valid()
      modifies this`rows, this`recoveryRequired, journal`rows, journal`doubts, table`slots
      ensures if r.Crashed? then Durable() else Valid()
      ensures r.Done? ==>
                && !old(recoveryRequired) && name !in old(rows) && (forall k :: k in old(rows) ==> !plan.Clashes(old(rows)[k].plan))
                && old(Room(|plan.ports|)) && rows == old(rows)[name := old(Drafted(plan)).(stage := Ready)] && InPlace(rows[name], table.slots)
                && rows[name].plan == plan && rows[name].boot == boot
      // its selectors are in range and nobody else's
      ensures r.Done? ==>
                && plan.interface == name && 0 <= plan.zone < 65536 && 0 <= plan.vlan < 4095 && 0 <= plan.missNextHop < 65536
                && 1 <= |plan.ports| <= 8 && (forall i :: 0 <= i < |plan.ports| ==> 1 <= plan.ports[i] <= 63)
                && forall k, p :: k in old(rows) && old(rows)[k].plan.vlan == plan.vlan && p in plan.ports ==> p !in old(rows)[k].plan.ports
      // every port has its own egress entry and its own ingress entry in the hardware
      ensures r.Done? ==> Wired(plan, rows[name].items, table.slots, encode)
      ensures old(Claimable(name, plan)) && journal.healthy ==>
                r.Done? && !recoveryRequired && journal.rows == old(journal.rows)[name := rows[name]] && journal.doubts == old(journal.doubts) - {name}
      ensures old(Claimable(name, plan)) && !journal.healthy && (journal.omen == Some(LostBefore) || journal.omen == Some(LostAfter)) ==>
                r.Raised? && recoveryRequired && rows == old(rows) && table.slots == old(table.slots) && journal.doubts == old(journal.doubts) + {name}
                && journal.rows == if journal.omen == Some(LostAfter) then old(journal.rows)[name := old(Drafted(plan))] else old(journal.rows)
      ensures forall s :: s in old(table.slots) ==> s in table.slots && table.slots[s] == old(table.slots)[s]
    {
      hide Valid, Durable, Plan.Clashes, Plan.Valid, Record.WellFormed, InPlace, Drafted, Room, Wired;
      Claims(plan);
      PlanTells(plan, rows);
      if Room(|plan.ports|) {
        DraftIsWired(plan);
      }
      r := Claim(name, plan);
      if r.IsFailure() {
        return;
      }
      r := Fill(name);
      if r.Crashed? {
        return;
      }
      var current := office.Current(name);
      if r.Raised? || current != Some(plan) {
        Fault();
        return Raised;
      }
      InPlaceRestaged(rows[name], Ready, table.slots);
      r := Restage(name, Ready);
      if r.IsFailure() {
        return;
      }
      r := Snapshot(name);
      if r.Raised? {
        Fault();
      }
    }

    lemma Claims(plan: Plan)
      ensures Room(|plan.ports|) ==> Drafted(plan).plan == plan && Drafted(plan).boot == boot && Drafted(plan).stage.Installing?
    {
    }

    method Fault()
      requires Valid()
      modifies this`recoveryRequired
      ensures Valid() && recoveryRequired
    {
      hide Sane, Selective;
      recoveryRequired := true;
    }

    method Restage(name: string, stage: Stage) returns (r: Outcome)
      requires Valid() && name in rows
      modifies this`rows, this`recoveryRequired, journal`rows, journal`doubts
      ensures if r.Crashed? then Durable() else Valid()
      ensures r.Done? ==> rows == old(rows)[name := old(rows)[name].(stage := stage)] && name in journal.rows && recoveryRequired == old(recoveryRequired)
      ensures !r.Done? ==> rows == old(rows)
      ensures r.Raised? ==> recoveryRequired
      ensures journal.healthy ==> r.Done? && journal.rows == old(journal.rows)[name := rows[name]] && journal.doubts == old(journal.doubts) - {name}
      ensures journal.doubts <= old(journal.doubts) + {name}
    {
      var rec := rows[name].(stage := stage);
      RestageSane(rows, journal.rows, table.slots, table.foreign, journal.doubts, name, rec);
      SetSelectiveAgain(rows, name, rec);
      hide Sane, Sound, Selective;
      r := Save(name, rec);
    }

    /** Whether an attachment is, by readback, exactly what was commissioned. */
    method Snapshot(name: string) returns (r: Outcome)
      requires Valid()
      ensures !r.Crashed?
      ensures r.Done? ==> !recoveryRequired && name in rows && Stands(name, rows[name], table.slots, boot, Answers())
      ensures !recoveryRequired && name in rows && rows[name].stage.Ready? && rows[name].boot == boot && InPlace(rows[name], table.slots) ==>
                table.healthy && Confirmed(name, rows[name].plan) ==> r.Done?
    {
      hide Valid;
      if recoveryRequired || name !in rows || !rows[name].stage.Ready? || rows[name].boot != boot {
        return Raised;
      }
      var rec := rows[name];
      var current := office.Current(name);
      if current != Some(rec.plan) {
        return Raised;
      }
      for i := 0 to |rec.items|
        invariant forall j :: 0 <= j < i ==> rec.items[j].slot in table.slots && table.slots[rec.items[j].slot] == rec.items[j].data
      {
        var fetched := table.Fetch(rec.items[i].slot);
        if fetched != Ok(Some(rec.items[i].data)) {
          return Raised;
        }
      }
      current := office.Current(name);
      return if current == Some(rec.plan) then Done else Raised;
    }

    /** Clears one slot of a record whose later slots are clear; anything but this boot's own contents is refused. */
    method ClearOne(name: string, i: nat) returns (r: Outcome)
      requires Valid() && name in rows && i < |rows[name].items|
      requires forall j :: i < j < |rows[name].items| ==> rows[name].items[j].slot !in table.slots
      modifies table`slots
      ensures if r.Crashed? then Durable() else Valid()
      ensures var item := rows[name].items[i];
        && (table.slots == old(table.slots) || (table.slots == old(table.slots) - {item.slot} && Own(rows[name], boot, item.slot, old(table.slots))))
        && (r.Done? ==> item.slot !in table.slots)
      ensures table.healthy && (rows[name].items[i].slot in old(table.slots) ==> Own(rows[name], boot, rows[name].items[i].slot, old(table.slots))) ==> r.Done?
    {
      ProperRecord(rows, table.foreign, name);
      DeleteSane(rows, journal.rows, table.slots, table.foreign, journal.doubts, name, i);
      hide Sane, Selective;
      var rec, item := rows[name], rows[name].items[i];
      var fetched := table.Fetch(item.slot);
      if fetched.Error? {
        return Raised;
      }
      if fetched.value.Some? {
        if rec.boot != boot || fetched.value.value != item.data {
          return Raised;
        }
        r := table.Delete(item.slot);
        if r.Crashed? {
          Lasts();
        }
        if r.IsFailure() {
          return;
        }
      }
      fetched := table.Fetch(item.slot);
      return if fetched == Ok(None) then Done else Raised;
    }

    /** Clears a record's slots, ingress before egress. */
    method ClearAll(name: string) returns (r: Outcome)
      requires Valid() && name in rows
      modifies table`slots
      ensures if r.Crashed? then Durable() else Valid()
      ensures r.Done? ==> rows[name].Unused(table.slots)
      ensures Cleared(rows[name], boot, old(table.slots), table.slots)
      ensures table.healthy && Tidy(rows[name], boot, old(table.slots)) ==> r.Done?
    {
      hide Valid, Durable, Record.WellFormed;
      var n := |rows[name].items|;
      while n > 0
        invariant Valid() && 0 <= n <= |rows[name].items|
        invariant forall j :: n <= j < |rows[name].items| ==> rows[name].items[j].slot !in table.slots
        invariant Cleared(rows[name], boot, old(table.slots), table.slots)
      {
        n := n - 1;
        r := ClearOne(name, n);
        if r.IsFailure() {
          return;
        }
      }
      return Done;
    }

    /** Forgets a record none of whose slots is in use: the journal first, then memory. */
    method Forget(name: string) returns (r: Outcome)
      requires Valid() && name in rows && rows[name].Unused(table.slots)
      modifies this`rows, this`recoveryRequired, journal`rows, journal`doubts
      ensures if r.Crashed? then Durable() else Valid()
      ensures if r.Done? then rows == old(rows) - {name} && name !in journal.rows && recoveryRequired == old(recoveryRequired) else rows == old(rows)
      ensures r.Raised? ==> recoveryRequired
      ensures journal.healthy ==> r.Done? && journal.rows == old(journal.rows) - {name} && journal.doubts == old(journal.doubts) - {name}
      ensures journal.doubts <= old(journal.doubts) + {name}
    {
      DropSane(rows, journal.rows, table.slots, table.foreign, journal.doubts, name);
      DropRest(rows, table.slots, table.foreign, name);
      SaneDoubts(rows, journal.rows, table.slots, table.foreign, journal.doubts, journal.doubts + {name});
      hide Sane, Sound, Selective;
      r := journal.Delete(name);
      if r.Done? {
        rows := rows - {name};
      } else {
        recoveryRequired := recoveryRequired || r.Raised?;
        SaneIsSound(rows, journal.rows, table.slots, table.foreign, journal.doubts);
      }
    }

    /** Gives an attachment up.  Its slots are touched only once ingress is withdrawn and everything behind it drained. */
    method Release(name: string) returns (r: Outcome, acknowledged: bool)
      requires Valid()
      modifies this`rows, this`recoveryRequired, journal`rows, journal`doubts, table`slots
      ensures if r.Crashed? then Durable() else Valid()
      ensures r.Done? ==> name !in rows && recoveryRequired == old(recoveryRequired)
      ensures r.Raised? ==> recoveryRequired
      ensures table.slots != old(table.slots) ==> acknowledged
      ensures if name in old(rows) then Cleared(old(rows)[name], boot, old(table.slots), table.slots) else table.slots == old(table.slots)
      ensures r.Done? && name in old(rows) ==> name !in journal.rows && old(rows)[name].Unused(table.slots)
      ensures forall k :: k != name ==> (k in rows <==> k in old(rows)) && (k in rows ==> rows[k] == old(rows)[k])
      ensures name in old(rows) && journal.healthy && table.healthy && office.steady && Tidy(old(rows)[name], boot, old(table.slots)) ==>
                r.Done? && journal.rows == old(journal.rows) - {name} && journal.doubts == old(journal.doubts) - {name}
    {
      hide Valid, Durable, Record.WellFormed, Plan.Valid;
      acknowledged := false;
      if name !in rows {
        return Done, false;
      }
      acknowledged := office.Clear(name);
      if !acknowledged {
        Fault();
        return Raised, false;
      }
      r := Restage(name, Removing);
      if r.IsFailure() {
        return;
      }
      r := ClearAll(name);
      if r.Raised? {
        Fault();
      }
      if r.IsFailure() {
        return;
      }
      r := Forget(name);
    }

    /** Releases every attachment; only a complete recovery reopens the owner. */
    method Recover() returns (r: Outcome)
      requires Valid()
      modifies this`rows, this`recoveryRequired, this`apart, journal`rows, journal`doubts, table`slots
      ensures if r.Crashed? then Durable() else Valid()
      ensures r.Done? ==> rows == map[] && !recoveryRequired && table.slots == table.foreign
      ensures r.Raised? ==> recoveryRequired
      ensures old(apart) ==> apart
      ensures journal.healthy && table.healthy && office.steady && AllTidy(old(rows), boot, old(table.slots)) ==>
                r.Done? && journal.rows == old(journal.rows) - old(rows).Keys && journal.doubts == old(journal.doubts) - old(rows).Keys
    {
      hide Valid, Durable, Released, Record.WellFormed, Plan.Valid, Cleared, AllTidy;
      Fault();
      r := ReleaseEach();
      if r.Done? {
        ReleasedAll(old(rows), old(journal.rows), old(journal.doubts), journal.rows, journal.doubts);
        Reopen();
      }
    }

    method ReleaseEach() returns (r: Outcome)
      requires Valid() && recoveryRequired
      modifies this`rows, this`recoveryRequired, journal`rows, journal`doubts, table`slots
      ensures if r.Crashed? then Durable() else Valid()
      ensures r.Raised? ==> recoveryRequired
      ensures r.Done? ==> rows == map[]
      ensures journal.healthy && table.healthy && office.steady && AllTidy(old(rows), boot, old(table.slots)) ==>
                r.Done? && Released(old(rows), old(journal.rows), old(journal.doubts), rows, journal.rows, journal.doubts)
    {
      hide *;
      ghost var recs, journaled, doubts := rows, journal.rows, journal.doubts;
      ghost var able := journal.healthy && table.healthy && office.steady && AllTidy(rows, boot, table.slots);
      ReleasedNone(rows, journal.rows, journal.doubts);
      while rows != map[]
        invariant Valid() && recoveryRequired
        invariant able ==> AllTidy(rows, boot, table.slots) && Released(recs, journaled, doubts, rows, journal.rows, journal.doubts)
        decreases |rows|
      {
        ghost var rows1, journaled1, doubts1 := rows, journal.rows, journal.doubts;
        r := ReleaseAny();
        ReleasedNext(recs, journaled, doubts, rows1, journaled1, doubts1, rows, journal.rows, journal.doubts);
        if !r.Done? {
          return;
        }
      }
      return Done;
    }

    method Reopen()
      requires Valid() && rows == map[]
      modifies this`recoveryRequired, this`apart
      ensures Valid() && !recoveryRequired && apart && table.slots == table.foreign
    {
      NothingLeft(rows, journal.rows, table.slots, table.foreign, journal.doubts);
      hide Sane, Selective;
      recoveryRequired, apart := false, true;
    }

    /** Releases one of the attachments. */
    method ReleaseAny() returns (r: Outcome)
      requires Valid() && recoveryRequired && rows != map[]
      modifies this`rows, this`recoveryRequired, journal`rows, journal`doubts, table`slots
      ensures if r.Crashed? then Durable() else Valid()
      ensures r.Raised? ==> recoveryRequired
      ensures r.Done? ==> recoveryRequired && |rows| < |old(rows)| && rows.Keys <= old(rows).Keys
      ensures journal.healthy && table.healthy && office.steady && AllTidy(old(rows), boot, old(table.slots)) ==>
                r.Done? && AllTidy(rows, boot, table.slots) && Released(old(rows), old(journal.rows), old(journal.doubts), rows, journal.rows, journal.doubts)
    {
      hide Valid, Durable, Record.WellFormed, Plan.Valid, Cleared, Tidy;
      var name := Pick(rows.Keys);
      ghost var before, slots := rows, table.slots;
      var acknowledged;
      r, acknowledged := Release(name);
      if r.Done? {
        assert rows == before - {name};
        Fewer(before, name);
        assert before.Keys - rows.Keys == {name};
        TidyAfter(before, name, boot, slots, table.slots);
      }
    }

    /** Releases every attachment that no longer reads back as commissioned. */
    method Reconcile() returns (r: Outcome)
      requires Valid()
      modifies this`rows, this`recoveryRequired, this`apart, journal`rows, journal`doubts, table`slots
      ensures if r.Crashed? then Durable() else Valid()
      ensures r.Raised? ==> recoveryRequired
      ensures r.Done? ==> !recoveryRequired && (old(recoveryRequired) ==> rows == map[] && table.slots == table.foreign)
      // what is left stands, and if every call answers, whatever stood is left
      ensures r.Done? && !old(recoveryRequired) ==>
                && (forall name :: name in rows ==> name in old(rows) && rows[name] == old(rows)[name] && Stands(name, rows[name], table.slots, boot, Answers()))
                && (table.healthy && Answers().Some? ==>
                      forall name :: name in old(rows) && Stands(name, old(rows)[name], old(table.slots), boot, Answers()) ==> name in rows)
      ensures !old(recoveryRequired) && table.healthy && Answers().Some? ==>
                ((forall name :: name in old(rows) ==> Stands(name, old(rows)[name], old(table.slots), boot, Answers())) ==>
                   r.Done? && rows == old(rows) && table.slots == old(table.slots))
    {
      hide *;
      if recoveryRequired {
        r := Recover();
        return;
      }
      ghost var before, slots, plans := rows, table.slots, Answers();
      ghost var sure := table.healthy && plans.Some?;
      ghost var all := sure && forall name :: name in rows ==> Stands(name, rows[name], table.slots, boot, plans);
      var todo := rows.Keys;
      LookedNone(rows, table.slots, boot, plans, sure);
      while todo != {}
        invariant Valid() && !recoveryRequired && plans == Answers() && (sure ==> table.healthy)
        invariant todo <= rows.Keys && Looked(todo, before, rows, slots, table.slots, boot, plans, sure)
        invariant all ==> rows == before && table.slots == slots
      {
        var name := Pick(todo);
        ghost var rows', slots' := rows, table.slots;
        OwnSlots(name);
        r := Check(name);
        if !r.Done? {
          return;
        }
        LookedMore(name, todo, before, rows', rows, slots, slots', table.slots, boot, plans, sure);
        todo := todo - {name};
      }
      LookedAll(before, rows, slots, table.slots, boot, plans, sure);
      return Done;
    }

    /** Releases an attachment unless it stands. */
    method Check(name: string) returns (r: Outcome)
      requires Valid() && !recoveryRequired && name in rows
      modifies this`rows, this`recoveryRequired, journal`rows, journal`doubts, table`slots
      ensures if r.Crashed? then Durable() else Valid()
      ensures r.Raised? ==> recoveryRequired
      ensures r.Done? ==> !recoveryRequired
      ensures r.Done? ==>
                if name in rows then rows == old(rows) && table.slots == old(table.slots) && Stands(name, rows[name], table.slots, boot, Answers())
                else rows == old(rows) - {name} && Cleared(old(rows)[name], boot, old(table.slots), table.slots)
      ensures table.healthy && Answers().Some? && Stands(name, old(rows)[name], old(table.slots), boot, Answers()) ==> r.Done? && name in rows
    {
      hide *;
      StandsFacts(name);
      r := Snapshot(name);
      if r.Raised? {
        var acknowledged;
        r, acknowledged := Release(name);
      }
    }

    /** What the commissioner answers, if it stands still. */
    ghost function Answers(): Option<map<string, Plan>>
      reads office
    {
      if office.steady then Some(office.plans) else None
    }

    lemma StandsFacts(name: string)
      requires name in rows
      ensures Answers().Some? && Stands(name, rows[name], table.slots, boot, Answers()) ==>
                rows[name].stage.Ready? && rows[name].boot == boot && InPlace(rows[name], table.slots) && Confirmed(name, rows[name].plan)
    {
    }

    /** No other record names this one's slots. */
    lemma OwnSlots(name: string)
      requires Valid() && name in rows
      ensures forall other :: other in rows && other != name ==> rows[other].Apart(rows[name])
    {
      hide Proper, Covered, Backed, AllOrdered, ActiveApart, Suspected, Commissioned, Record.Apart;
    }
  }

  lemma ProperRecord(recs: Rows, foreign: Slots, name: string)
    requires Proper(recs, foreign) && name in recs
    ensures recs[name].Unused(foreign)
    ensures forall i, j :: 0 <= i < j < |recs[name].items| ==> recs[name].items[i].slot != recs[name].items[j].slot
  {
  }

  function Layout(plan: Plan, lefs: seq<int>, lifs: seq<int>, encode: (Plan, int, Kind) -> int): (items: seq<Item>)
    requires |lefs| == |lifs| == |plan.ports|
    ensures |items| == 2 * |plan.ports|
    ensures forall i :: 0 <= i < |items| ==> items[i].slot == if i < |lefs| then Slot(Lef, lefs[i]) else Slot(Lif, lifs[i - |lefs|])
  {
    var n := |plan.ports|;
    seq(2 * n, i requires 0 <= i < 2 * n =>
      if i < n then Item(Slot(Lef, lefs[i]), encode(plan, plan.ports[i], Lef))
      else Item(Slot(Lif, lifs[i - n]), encode(plan, plan.ports[i - n], Lif)))
  }

  ghost predicate InPlace(rec: Record, slots: Slots) {
    forall i :: 0 <= i < |rec.items| ==> rec.items[i].slot in slots && slots[rec.items[i].slot] == rec.items[i].data
  }

  /** The attachment is ready, of this boot, in its slots, and what the commissioner confirms, as far as that stands still. */
  ghost predicate Stands(name: string, rec: Record, slots: Slots, boot: nat, plans: Option<map<string, Plan>>) {
    && rec.stage.Ready? && rec.boot == boot && InPlace(rec, slots)
    && (plans.Some? ==> name in plans.value && plans.value[name] == rec.plan)
  }

  /** Of the records before, what is left and not still to be looked at stands; if every call answers, whatever stood is left. */
  ghost predicate Looked(todo: set<string>, before: Rows, recs: Rows, slots: Slots, slots': Slots, boot: nat, plans: Option<map<string, Plan>>, sure: bool) {
    && (forall k :: k in recs ==>
          && k in before && recs[k] == before[k] && (k !in todo ==> Stands(k, recs[k], slots', boot, plans))
          && (InPlace(recs[k], slots) ==> InPlace(recs[k], slots')))
    && (sure ==> forall k :: k in before && Stands(k, before[k], slots, boot, plans) ==> k in recs)
  }

  lemma LookedNone(recs: Rows, slots: Slots, boot: nat, plans: Option<map<string, Plan>>, sure: bool)
    ensures Looked(recs.Keys, recs, recs, slots, slots, boot, plans, sure)
  {
  }

  lemma StillInPlace(rec: Record, other: Record, boot: nat, slots: Slots, slots': Slots)
    requires InPlace(rec, slots) && rec.Apart(other) && Cleared(other, boot, slots, slots')
    ensures InPlace(rec, slots')
  {
  }

  lemma LookedMore(name: string, todo: set<string>, before: Rows, recs: Rows, recs': Rows, slots: Slots, slots': Slots, slots'': Slots,
                   boot: nat, plans: Option<map<string, Plan>>, sure: bool)
    requires Looked(todo, before, recs, slots, slots', boot, plans, sure) && name in recs
    requires forall other :: other in recs && other != name ==> recs[other].Apart(recs[name])
    requires if name in recs' then recs' == recs && slots'' == slots' && Stands(name, recs[name], slots', boot, plans)
             else recs' == recs - {name} && Cleared(recs[name], boot, slots', slots'')
    requires sure && Stands(name, recs[name], slots', boot, plans) ==> name in recs'
    ensures Looked(todo - {name}, before, recs', slots, slots'', boot, plans, sure)
  {
    hide InPlace, Cleared, Record.Apart;
    if name !in recs' {
      forall k | k in recs'
        ensures InPlace(recs[k], slots') ==> InPlace(recs[k], slots'')
      {
        if InPlace(recs[k], slots') {
          StillInPlace(recs[k], recs[name], boot, slots', slots'');
        }
      }
    }
  }

  lemma LookedAll(before: Rows, recs: Rows, slots: Slots, slots': Slots, boot: nat, plans: Option<map<string, Plan>>, sure: bool)
    requires Looked({}, before, recs, slots, slots', boot, plans, sure)
    ensures forall k :: k in recs ==> k in before && recs[k] == before[k] && Stands(k, recs[k], slots', boot, plans)
    ensures sure ==> forall k :: k in before && Stands(k, before[k], slots, boot, plans) ==> k in recs
  {
    hide Stands, InPlace;
  }

  lemma PlanTells(plan: Plan, recs: Rows)
    ensures plan.Valid() ==>
              && 0 <= plan.zone < 65536 && 0 <= plan.vlan < 4095 && 0 <= plan.missNextHop < 65536
              && 1 <= |plan.ports| <= 8 && forall i :: 0 <= i < |plan.ports| ==> 1 <= plan.ports[i] <= 63
    ensures (forall k :: k in recs ==> !plan.Clashes(recs[k].plan)) ==>
              forall k, p :: k in recs && recs[k].plan.vlan == plan.vlan && p in plan.ports ==> p !in recs[k].plan.ports
  {
  }

  /** The first half of the items are egress slots and the second ingress slots, one of each per port, and each holds what
      its port calls for. */
  ghost predicate Wired(plan: Plan, items: seq<Item>, slots: Slots, encode: (Plan, int, Kind) -> int) {
    && |items| == 2 * |plan.ports|
    && forall i :: 0 <= i < |plan.ports| ==>
      && Wire(items[i].slot, Lef, encode(plan, plan.ports[i], Lef), slots)
      && Wire(items[|plan.ports| + i].slot, Lif, encode(plan, plan.ports[i], Lif), slots)
  }

  predicate Wire(s: Slot, kind: Kind, content: int, slots: Slots) {
    s.kind == kind && s in slots && slots[s] == content
  }

  lemma InPlaceRestaged(rec: Record, stage: Stage, slots: Slots)
    ensures InPlace(rec, slots) ==> InPlace(rec.(stage := stage), slots)
  {
  }

  lemma ClashesBothWays(plan: Plan, recs: Rows)
    ensures forall k :: k in recs && recs[k].plan.Clashes(plan) ==> plan.Clashes(recs[k].plan)
  {
  }

  /** The slot holds what this record wrote there in this boot. */
  ghost predicate Own(rec: Record, boot: nat, s: Slot, slots: Slots) {
    rec.boot == boot && s in slots && rec.Fills(s, slots[s])
  }

  /** Nothing stands in the record's slots but its own. */
  ghost predicate Tidy(rec: Record, boot: nat, slots: Slots) {
    forall i :: 0 <= i < |rec.items| && rec.items[i].slot in slots ==> Own(rec, boot, rec.items[i].slot, slots)
  }

  /** The slots that were cleared held what this record wrote there in this boot, and no other slot has changed. */
  ghost predicate Cleared(rec: Record, boot: nat, before: Slots, after: Slots) {
    && (forall s :: s in after ==> s in before && after[s] == before[s])
    && (forall s :: s in before && s !in after ==> Own(rec, boot, s, before))
  }

  /** Records were released from memory and journal, and leave no doubt. */
  ghost predicate Released(rows: Rows, journaled: Rows, doubts: set<string>, rows': Rows, journaled': Rows, doubts': set<string>) {
    && rows'.Keys <= rows.Keys
    && journaled' == journaled - (rows.Keys - rows'.Keys) && doubts' == doubts - (rows.Keys - rows'.Keys)
  }

  lemma ReleasedNone(rows: Rows, journaled: Rows, doubts: set<string>)
    ensures Released(rows, journaled, doubts, rows, journaled, doubts)
  {
    assert rows.Keys - rows.Keys == {};
  }

  lemma ReleasedNext(rows: Rows, journaled: Rows, doubts: set<string>, rows1: Rows, journaled1: Rows, doubts1: set<string>,
                     rows2: Rows, journaled2: Rows, doubts2: set<string>)
    ensures Released(rows, journaled, doubts, rows1, journaled1, doubts1) && Released(rows1, journaled1, doubts1, rows2, journaled2, doubts2)
            ==> Released(rows, journaled, doubts, rows2, journaled2, doubts2)
  {
    if Released(rows, journaled, doubts, rows1, journaled1, doubts1) && Released(rows1, journaled1, doubts1, rows2, journaled2, doubts2) {
      assert rows.Keys - rows2.Keys == (rows.Keys - rows1.Keys) + (rows1.Keys - rows2.Keys);
    }
  }

  lemma ReleasedAll(rows: Rows, journaled: Rows, doubts: set<string>, journaled': Rows, doubts': set<string>)
    ensures Released(rows, journaled, doubts, map[], journaled', doubts') ==> journaled' == journaled - rows.Keys && doubts' == doubts - rows.Keys
  {
    var none: Rows := map[];
    assert rows.Keys - none.Keys == rows.Keys;
  }

  ghost predicate AllTidy(recs: Rows, boot: nat, slots: Slots) {
    forall k :: k in recs ==> Tidy(recs[k], boot, slots)
  }

  lemma TidyAfter(recs: Rows, name: string, boot: nat, slots: Slots, slots': Slots)
    requires name in recs && Cleared(recs[name], boot, slots, slots')
    ensures AllTidy(recs, boot, slots) ==> AllTidy(recs - {name}, boot, slots')
  {
    if AllTidy(recs, boot, slots) {
      forall k | k in recs - {name}
        ensures Tidy(recs[k], boot, slots')
      {
        assert Tidy(recs[k], boot, slots);
      }
    }
  }

  lemma Fewer(recs: Rows, name: string)
    requires name in recs
    ensures |recs - {name}| < |recs|
  {
  }

  lemma NothingLeft(held: Rows, rows: Rows, slots: Slots, foreign: Slots, doubts: set<string>)
    requires Sane(held, rows, slots, foreign, doubts) && held == map[] && forall s :: s in foreign ==> s in slots && slots[s] == foreign[s]
    ensures slots == foreign && Selective(held)
  {
  }

  // ------------------------------------------------------- rows that memory lost

  /** At rest memory holds no slot and no selector twice.  The journal does not either, exactly when no row that is left of
      a call in doubt names a slot or a selector of another row: a caller can look those rows up. */
  lemma JournalApartIff(o: AttachmentOwner)
    requires o.Valid() && !o.recoveryRequired
    ensures Exclusive(o.rows) && Selective(o.rows)
    ensures Exclusive(o.journal.rows) && Selective(o.journal.rows)
            <==> forall k, m :: k in o.journal.doubts && k in o.journal.rows && k !in o.rows && m in o.journal.rows && m != k
                   ==> Strangers(o.journal.rows[k], o.journal.rows[m])
    ensures o.journal.doubts == {} ==> Exclusive(o.journal.rows) && Selective(o.journal.rows)
  {
    hide Plan.Clashes, Record.Apart, Record.WellFormed, Record.Active, Record.Unused;
    var rows := o.journal.rows;
    Reversed();
    if forall k, m :: k in o.journal.doubts && k in rows && k !in o.rows && m in rows && m != k ==> Strangers(rows[k], rows[m]) {
      forall a, b | a in rows && b in rows && a != b
        ensures Strangers(rows[a], rows[b])
      {
        if a in o.rows && b in o.rows {
          SameStrangers(rows[a], rows[b], o.rows[a], o.rows[b]);
        }
      }
    }
  }

  predicate Strangers(a: Record, b: Record) {
    a.Apart(b) && !a.plan.Clashes(b.plan)
  }

  lemma Reversed()
    ensures forall a: Record, b: Record :: Strangers(a, b) ==> Strangers(b, a)
  {
  }

  lemma SameStrangers(a: Record, b: Record, a': Record, b': Record)
    requires a.SameClaim(a') && b.SameClaim(b')
    ensures Strangers(a, b) <==> Strangers(a', b')
  {
  }

  /** An acquisition whose first journal call raises, and a completed recovery: the process has seen the same and remembers
      the same whether or not the row was written. */
  method ClaimInDoubt(o: AttachmentOwner, name: string, plan: Plan, written: bool) returns (claimed: Outcome, recovered: Outcome)
    requires o.Valid() && o.Claimable(name, plan) && o.journal.rows == o.rows && o.journal.doubts == {} && AllTidy(o.rows, o.boot, o.table.slots)
    modifies o, o.journal, o.table`slots
    ensures o.Valid() && claimed.Raised? && recovered.Done? && !o.recoveryRequired && o.rows == map[] && o.table.slots == o.table.foreign
    ensures o.journal.doubts == {name} && o.journal.rows == (if written then map[name := old(o.Drafted(plan))] else map[]) && o.journal.healthy
  {
    hide Sane, Selective, Plan.Valid, Plan.Clashes, Layout, FreeOf, AllTidy;
    ghost var rows, rec := o.rows, o.Drafted(plan);
    claimed := RaiseClaim(o, name, plan, if written then LostAfter else LostBefore);
    hide AttachmentOwner.Valid;
    recovered := o.Recover();
    OnlyTheNew(rows, name, rec);
  }

  method RaiseClaim(o: AttachmentOwner, name: string, plan: Plan, fate: Fate) returns (r: Outcome)
    requires o.Valid() && o.Claimable(name, plan) && fate.Ending().Raised?
    modifies o, o.journal, o.table`slots
    ensures o.Valid() && r.Raised? && o.recoveryRequired && o.rows == old(o.rows) && o.table.slots == old(o.table.slots)
    ensures o.journal.healthy && o.table.healthy && o.office.steady && o.journal.doubts == old(o.journal.doubts) + {name} && name !in o.rows
    ensures o.Room(|plan.ports|) && o.Drafted(plan) == old(o.Drafted(plan))
    ensures o.journal.rows == if fate.TakesEffect() then old(o.journal.rows)[name := old(o.Drafted(plan))] else old(o.journal.rows)
  {
    hide Sane, Selective, Plan.Valid, Plan.Clashes, Layout, FreeOf;
    o.journal.healthy, o.journal.omen := false, Some(fate);
    r := o.Acquire(name, plan);
    o.journal.healthy := true;
  }

  lemma OnlyTheNew(rows: Rows, name: string, rec: Record)
    requires name !in rows
    ensures rows[name := rec] - rows.Keys == map[name := rec] && rows - rows.Keys == map[] && {name} - rows.Keys == {name}
    ensures {} + {name} - rows.Keys == {name}
  {
  }

  /** The record takes the first slots that are free when nothing is recorded. */
  ghost predicate OverEmpty(foreign: Slots, pools: Kind -> seq<int>, rec: Record) {
    var n := |rec.plan.ports|;
    var lefs, lifs := FreeOf(map[], foreign, Lef, pools(Lef)), FreeOf(map[], foreign, Lif, pools(Lif));
    && 0 < n <= |lefs| && n <= |lifs| && |rec.items| == 2 * n
    && forall i :: 0 <= i < 2 * n ==> rec.items[i].slot == if i < n then Slot(Lef, lefs[i]) else Slot(Lif, lifs[i - n])
  }

  lemma DraftedOverEmpty(o: AttachmentOwner, plan: Plan)
    requires o.rows == map[] && o.table.slots == o.table.foreign && plan.Valid() && o.Room(|plan.ports|)
    ensures OverEmpty(o.table.foreign, o.pools, o.Drafted(plan)) && o.Drafted(plan).plan == plan
  {
    hide FreeOf;
  }

  lemma RoomOverEmpty(o: AttachmentOwner, rec: Record, ports: nat)
    requires o.rows == map[] && o.table.slots == o.table.foreign && OverEmpty(o.table.foreign, o.pools, rec) && ports <= |rec.plan.ports|
    ensures o.Room(ports)
  {
    hide FreeOf;
  }

  /** Two such records of one width are written to the same slots. */
  lemma OverEmptyOverlap(foreign: Slots, pools: Kind -> seq<int>, a: Record, b: Record)
    requires OverEmpty(foreign, pools, a) && OverEmpty(foreign, pools, b) && |a.plan.ports| == |b.plan.ports|
    ensures !a.Apart(b) && forall c: Record :: (c.Apart(a) <==> c.Apart(b)) && (a.Apart(c) <==> b.Apart(c))
  {
    hide FreeOf;
    assert |a.items| == |b.items| && forall i :: 0 <= i < |a.items| ==> a.items[i].slot == b.items[i].slot;
    assert a.items[0].slot == b.items[0].slot;
  }

  lemma JournalOfTwo(x: string, a: Record, y: string, b: Record)
    requires x != y
    ensures Exclusive(map[x := a, y := b]) <==> a.Apart(b) && b.Apart(a)
    ensures Selective(map[x := a, y := b]) <==> !a.plan.Clashes(b.plan) && !b.plan.Clashes(a.plan)
    ensures Exclusive(map[y := b]) && Selective(map[y := b])
  {
    hide Record.Apart, Plan.Clashes;
    var rows: Rows := map[x := a, y := b];
    assert x in rows && y in rows;
  }

  /** Two attachments of one width in turn, the first in doubt: the second gets the very same slots, and a restart is
      refused exactly when the first one's row was written. */
  method SlotsTwice(o: AttachmentOwner, first: string, plan: Plan, second: string, plan1: Plan, written: bool) returns (reopened: Option<AttachmentOwner>)
    requires o.Valid() && o.Claimable(first, plan) && o.rows == o.journal.rows == map[] && o.journal.doubts == {} && o.table.slots == o.table.foreign
    requires first != second && |plan1.ports| == |plan.ports| && plan1.Valid() && plan1.interface == second && o.Confirmed(second, plan1)
    modifies o, o.journal, o.table`slots
    ensures reopened.Some? <==> !written
  {
    ghost var rec := o.Drafted(plan);
    DraftedOverEmpty(o, plan);
    assert AllTidy(o.rows, o.boot, o.table.slots);
    hide Sane, Sound, Selective, Exclusive, OverEmpty, Plan.Valid, Plan.Clashes, AllTidy, FreeOf, Layout, AttachmentOwner.Valid;
    var claimed, recovered := ClaimInDoubt(o, first, plan, written);
    reopened := SucceedAndRestart(o, second, plan1, rec);
    OverEmptyOverlap(o.table.foreign, o.pools, rec, o.rows[second]);
    JournalOfTwo(first, rec, second, o.rows[second]);
  }

  /** An acquisition by an owner that holds nothing, and a restart. */
  method SucceedAndRestart(o: AttachmentOwner, name: string, plan: Plan, ghost former: Record) returns (reopened: Option<AttachmentOwner>)
    requires o.Valid() && !o.recoveryRequired && o.rows == map[] && o.table.slots == o.table.foreign && o.journal.healthy && o.table.healthy
    requires plan.Valid() && plan.interface == name && o.Confirmed(name, plan)
    requires OverEmpty(o.table.foreign, o.pools, former) && |plan.ports| <= |former.plan.ports|
    modifies o, o.journal, o.table`slots
    ensures o.rows.Keys == {name} && o.rows[name].plan == plan && OverEmpty(o.table.foreign, o.pools, o.rows[name])
    ensures o.journal.rows == old(o.journal.rows)[name := o.rows[name]]
    ensures reopened.Some? <==> Exclusive(o.journal.rows)
    ensures reopened.Some? ==> reopened.value.rows == o.journal.rows
  {
    hide Sane, Sound, Selective, Exclusive, OverEmpty, Plan.Valid, Plan.Clashes, FreeOf, Layout;
    RoomOverEmpty(o, former, |plan.ports|);
    DraftedOverEmpty(o, plan);
    RestagedOverEmpty(o.table.foreign, o.pools, o.Drafted(plan));
    var acquired := o.Acquire(name, plan);
    Lasting(o);
    hide AttachmentOwner.Valid;
    reopened := AttachmentOwner.Open(o.journal, o.table, o.office, o.boot, o.pools, o.encode);
  }

  lemma RestagedOverEmpty(foreign: Slots, pools: Kind -> seq<int>, rec: Record)
    requires OverEmpty(foreign, pools, rec)
    ensures forall stage :: OverEmpty(foreign, pools, rec.(stage := stage))
  {
    hide FreeOf;
  }

  lemma Lasting(o: AttachmentOwner)
    requires o.Valid()
    ensures Commissioned(o.pools) && o.Durable()
  {
    o.Lasts();
  }

  lemma DraftedApart(o: AttachmentOwner, plan: Plan)
    requires Commissioned(o.pools) && o.Room(|plan.ports|)
    ensures o.Drafted(plan).plan == plan && forall k :: k in o.rows ==> o.Drafted(plan).Apart(o.rows[k]) && o.rows[k].Apart(o.Drafted(plan))
  {
    FreeOfFacts(o.rows, o.table.slots, Lef, o.pools(Lef));
    FreeOfFacts(o.rows, o.table.slots, Lif, o.pools(Lif));
    var rec := o.Drafted(plan);
    hide FreeOf;
    assert forall i :: 0 <= i < |rec.items| ==> Free(o.rows, o.table.slots, rec.items[i].slot);
  }

  lemma TidyInPlace(o: AttachmentOwner, name: string)
    requires o.rows.Keys == {name} && o.rows[name].boot == o.boot && InPlace(o.rows[name], o.table.slots)
    ensures AllTidy(o.rows, o.boot, o.table.slots)
  {
  }

  /** Taking some of a pool leaves the rest. */
  lemma {:induction false} FewerFree(recs: Rows, slots: Slots, recs': Rows, slots': Slots, kind: Kind, ids: seq<int>, taken: set<int>)
    requires forall i, j :: 0 <= i < j < |ids| ==> ids[i] != ids[j]
    requires forall x :: x in ids && x !in taken && Free(recs, slots, Slot(kind, x)) ==> Free(recs', slots', Slot(kind, x))
    ensures |FreeOf(recs', slots', kind, ids)| + |taken| >= |FreeOf(recs, slots, kind, ids)|
    decreases |ids|
  {
    hide Free;
    if ids == [] {
    } else {
      var front, x := ids[..|ids| - 1], ids[|ids| - 1];
      assert ids == front + [x];
      FewerFree(recs, slots, recs', slots', kind, front, taken - {x});
    }
  }

  lemma {:induction false} AtMost(s: seq<int>)
    ensures |set x | x in s| <= |s|
  {
    if s == [] {
    } else {
      AtMost(s[1..]);
      assert s == [s[0]] + s[1..];
      assert (set x | x in s) == {s[0]} + set x | x in s[1..];
    }
  }

  lemma RoomBeside(o: AttachmentOwner, name: string, ports: nat)
    requires o.Valid() && o.rows.Keys == {name} && OverEmpty(o.table.foreign, o.pools, o.rows[name])
    requires ports + |o.rows[name].plan.ports| <= |FreeOf(map[], o.table.foreign, Lef, o.pools(Lef))|
    requires ports + |o.rows[name].plan.ports| <= |FreeOf(map[], o.table.foreign, Lif, o.pools(Lif))|
    ensures o.Room(ports)
  {
    hide Selective;
    RoomOfKind(o, name, Lef);
    RoomOfKind(o, name, Lif);
    hide FreeOf;
  }

  lemma RoomOfKind(o: AttachmentOwner, name: string, kind: Kind)
    requires o.Valid() && o.rows.Keys == {name} && OverEmpty(o.table.foreign, o.pools, o.rows[name])
    ensures |FreeOf(o.rows, o.table.slots, kind, o.pools(kind))| + |o.rows[name].plan.ports| >= |FreeOf(map[], o.table.foreign, kind, o.pools(kind))|
  {
    hide Selective, Exclusive, AllOrdered, ActiveApart, Backed, Suspected, FreeOf;
    var rec := o.rows[name];
    var first := FreeOf(map[], o.table.foreign, kind, o.pools(kind))[..|rec.plan.ports|];
    var taken := set x | x in first;
    AtMost(first);
    forall x | x !in taken && Free(map[], o.table.foreign, Slot(kind, x))
      ensures Free(o.rows, o.table.slots, Slot(kind, x))
    {
      NotTaken(o, name, kind, x, first);
    }
    FewerFree(map[], o.table.foreign, o.rows, o.table.slots, kind, o.pools(kind), taken);
  }

  lemma NotTaken(o: AttachmentOwner, name: string, kind: Kind, x: int, first: seq<int>)
    requires o.Valid() && o.rows.Keys == {name} && OverEmpty(o.table.foreign, o.pools, o.rows[name])
    requires first == FreeOf(map[], o.table.foreign, kind, o.pools(kind))[..|o.rows[name].plan.ports|] && x !in first
    requires Slot(kind, x) !in o.table.foreign
    ensures Free(o.rows, o.table.slots, Slot(kind, x))
  {
    hide Selective, Exclusive, AllOrdered, ActiveApart, Backed, Suspected, FreeOf, Plan.Clashes;
    var rec, s := o.rows[name], Slot(kind, x);
    var n := |rec.plan.ports|;
    assert forall i :: 0 <= i < n ==> first[i] in first;
    forall i | 0 <= i < |rec.items|
      ensures rec.items[i].slot.kind == kind ==> rec.items[i].slot.index in first
    {
      assert first[if i < n then i else i - n] in first;
    }
  }

  /** With another attachment held in between, the one in doubt and its successor get different slots: the restart is
      accepted, with one selector in two rows exactly when the row in doubt was written. */
  method SelectorTwice(o: AttachmentOwner, other: string, plan2: Plan, first: string, plan: Plan, second: string, plan1: Plan, written: bool)
      returns (reopened: Option<AttachmentOwner>)
    requires o.Valid() && o.rows == o.journal.rows == map[] && o.journal.doubts == {} && o.table.slots == o.table.foreign && o.journal.healthy
    requires o.Claimable(other, plan2) && other != first && first != second && |plan1.ports| == |plan2.ports|
    requires plan.Valid() && plan.interface == first && o.Confirmed(first, plan) && !plan.Clashes(plan2) && o.Room(|plan.ports| + |plan2.ports|)
    requires plan1.Valid() && plan1.interface == second && o.Confirmed(second, plan1) && plan.Clashes(plan1)
    modifies o, o.journal, o.table`slots
    ensures reopened.Some? && (Selective(reopened.value.rows) <==> !written)
  {
    hide Sane, Sound, Selective, Exclusive, OverEmpty, Plan.Valid, Plan.Clashes, FreeOf, Layout, AllTidy, InPlace;
    ghost var rec2 := HoldOne(o, other, plan2, |plan.ports|);
    DraftedApart(o, plan);
    ghost var rec := o.Drafted(plan);
    ClashesBothWays(plan, o.rows);
    TidyInPlace(o, other);
    hide AttachmentOwner.Valid;
    var claimed, recovered := ClaimInDoubt(o, first, plan, written);
    reopened := SucceedAndRestart(o, second, plan1, rec2);
    OverEmptyOverlap(o.table.foreign, o.pools, rec2, o.rows[second]);
    JournalOfTwo(first, rec, second, o.rows[second]);
  }

  /** An acquisition by an owner that holds nothing, which leaves room for more. */
  method HoldOne(o: AttachmentOwner, name: string, plan: Plan, ports: nat) returns (ghost rec: Record)
    requires o.Valid() && o.rows == o.journal.rows == map[] && o.journal.doubts == {} && o.table.slots == o.table.foreign && o.journal.healthy
    requires o.Claimable(name, plan) && o.Room(ports + |plan.ports|)
    modifies o, o.journal, o.table`slots
    ensures o.Valid() && !o.recoveryRequired && o.rows == o.journal.rows == map[name := rec] && o.journal.doubts == {}
    ensures rec.plan == plan && rec.boot == o.boot && InPlace(rec, o.table.slots) && OverEmpty(o.table.foreign, o.pools, rec) && o.Room(ports)
  {
    hide Sane, Sound, Selective, Exclusive, OverEmpty, Plan.Valid, Plan.Clashes, FreeOf, Layout, InPlace;
    DraftedOverEmpty(o, plan);
    RestagedOverEmpty(o.table.foreign, o.pools, o.Drafted(plan));
    var held := o.Acquire(name, plan);
    rec := o.rows[name];
    RoomBeside(o, name, ports);
  }

  datatype Op = Attach(name: string, plan: Plan) | Detach(name: string) | Heal | Audit | Restart | Reboot | Weather(journal: bool, table: bool)

  /** Any history of calls, failures, process deaths, restarts and reboots, whatever became of journal writes: at every
      point the slots in use belong to journal rows of which no two share a slot or a port/VLAN selector, and no ingress
      slot is in use without its egress slots. */
  method Run(journal: Store<string, Record>, table: SlotTable, office: Commissioner, pools: Kind -> seq<int>, encode: (Plan, int, Kind) -> int, ops: seq<Op>)
    requires Commissioned(pools) && table.Valid() && Sound(journal.rows, table.slots, table.foreign)
    modifies journal, table
    ensures table.Valid() && table.foreign == old(table.foreign) && Sound(journal.rows, table.slots, table.foreign)
    ensures exists live: Rows :: Within(live, journal.rows) && Covered(live, table.slots, table.foreign) && Exclusive(live) && Selective(live)
  {
    var boot: nat := 0;
    var owner: Option<AttachmentOwner> := None;
    for i := 0 to |ops|
      invariant table.Valid() && Sound(journal.rows, table.slots, table.foreign) && table.foreign == old(table.foreign)
      invariant owner.Some? ==> fresh(owner.value) && owner.value.journal == journal && owner.value.table == table && owner.value.Valid()
    {
      hide Sane, Sound, Plan.Valid, Record.WellFormed, Cleared, InPlace, Exclusive;
      match ops[i] {
        case Weather(j, t) =>
          journal.healthy, table.healthy := j, t;
        case Restart =>
          owner := AttachmentOwner.Open(journal, table, office, boot, pools, encode);
        case Reboot =>
          RebootSound(journal.rows, table.slots, table.foreign);
          boot, owner := boot + 1, None;
          table.slots := table.foreign;
        case _ =>
          if owner.Some? {
            var crashed := Act(owner.value, ops[i]);
            if crashed {
              owner := None;
            }
          }
      }
    }
  }

  method Act(owner: AttachmentOwner, op: Op) returns (crashed: bool)
    requires owner.Valid()
    modifies owner`rows, owner`recoveryRequired, owner`apart, owner.journal`rows, owner.journal`doubts, owner.table`slots
    ensures owner.Durable() && (!crashed ==> owner.Valid())
  {
    hide Sane, Sound, Plan.Valid, Record.WellFormed, Cleared, InPlace;
    var r, acknowledged := Done, false;
    match op {
      case Attach(name, plan) => r := owner.Acquire(name, plan);
      case Detach(name) => r, acknowledged := owner.Release(name);
      case Heal => r := owner.Recover();
      case Audit => r := owner.Reconcile();
      case _ =>
    }
    crashed := r.Crashed?;
    if !crashed {
      owner.Lasts();
    }
  }

  /** A reboot leaves nothing of ours in the slots. */
  lemma RebootSound(rows: Rows, slots: Slots, foreign: Slots)
    requires Sound(rows, slots, foreign)
    ensures Sound(rows, foreign, foreign)
  {
    var live: Rows :| Within(live, rows) && Upheld(live, slots, foreign);
    assert Upheld(live, foreign, foreign);
    hide Exclusive, Selective, Within;
  }
}
