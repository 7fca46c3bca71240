/** Native per-flow counter deltas, and their accounting into a kernel connection lease. */
module Counters {
  import opened Outcomes
  import opened FlowCodec
  import opened FlowIds

  datatype Record = Record(flowId: int, packets: int, octets: int, reason: int) {
    predicate Valid() {
      0 <= flowId <= 0xffff_ffff && 0 <= packets <= 255 && 0 <= octets <= 0x3f_ffff && 0 <= reason <= 3
    }
    /** Counters with reason 2 are accounted but do not refresh a lease. */
    predicate Refreshes() {
      packets != 0 && reason != 2
    }
  }

  datatype Event = Counted(sequence: int, elapsedMs: int, records: seq<Record>) | Health(sequence: int, elapsedMs: int, healthy: bool) {
    function Records(): seq<Record> {
      if Counted? then records else []
    }
  }

  /** What was counted for one flow. */
  datatype Totals = Totals(packets: int, octets: int, activity: int) {
    function Plus(t: Totals): Totals {
      Totals(packets + t.packets, octets + t.octets, activity + t.activity)
    }
    function Minus(t: Totals): Totals {
      Totals(packets - t.packets, octets - t.octets, activity - t.activity)
    }
  }

  const Zero := Totals(0, 0, 0)

  function Credit(r: Record, id: int): Totals {
    if r.flowId == id then Totals(r.packets, r.octets, if r.Refreshes() then 1 else 0) else Zero
  }

  /** The sum of one flow's deltas in a stream of records. */
  function Sum(rs: seq<Record>, id: int): Totals
    decreases |rs|
  {
    if rs == [] then Zero else Sum(rs[..|rs| - 1], id).Plus(Credit(rs[|rs| - 1], id))
  }

  /** What a stream of records reports for one flow: its packets and octets, all of them; the positions of its records; and
      the positions of those that show traffic, which a record without packets does not, nor one of reason 2. */
  function PacketsOf(rs: seq<Record>, id: int): int
    decreases |rs|
  {
    if rs == [] then 0 else PacketsOf(rs[..|rs| - 1], id) + if rs[|rs| - 1].flowId == id then rs[|rs| - 1].packets else 0
  }

  function OctetsOf(rs: seq<Record>, id: int): int
    decreases |rs|
  {
    if rs == [] then 0 else OctetsOf(rs[..|rs| - 1], id) + if rs[|rs| - 1].flowId == id then rs[|rs| - 1].octets else 0
  }

  ghost function ReportsOf(rs: seq<Record>, id: int): set<int> {
    set i | 0 <= i < |rs| && rs[i].flowId == id
  }

  ghost function TrafficOf(rs: seq<Record>, id: int): set<int> {
    set i | 0 <= i < |rs| && rs[i].flowId == id && rs[i].packets != 0 && rs[i].reason != 2
  }

  lemma PositionsNext(rs: seq<Record>, id: int)
    requires rs != []
    ensures var n := |rs| - 1;
      && ReportsOf(rs, id) == ReportsOf(rs[..n], id) + (if rs[n].flowId == id then {n} else {})
      && TrafficOf(rs, id) == TrafficOf(rs[..n], id) + (if rs[n].flowId == id && rs[n].packets != 0 && rs[n].reason != 2 then {n} else {})
      && n !in TrafficOf(rs[..n], id)
  {
  }

  lemma PositionsGrow(rs: seq<Record>, i: nat, id: int)
    requires i < |rs|
    ensures ReportsOf(rs[..i + 1], id) == {} <==> ReportsOf(rs[..i], id) == {} && rs[i].flowId != id
    ensures TrafficOf(rs[..i + 1], id) == {} <==> TrafficOf(rs[..i], id) == {} && !(rs[i].flowId == id && rs[i].packets != 0 && rs[i].reason != 2)
  {
    PositionsNext(rs[..i + 1], id);
    hide TrafficOf, ReportsOf;
    assert rs[..i + 1][..i] == rs[..i] && rs[..i + 1][i] == rs[i];
  }

  /** The sum is exactly that. */
  lemma {:induction false} SumIs(rs: seq<Record>, id: int)
    ensures Sum(rs, id) == Totals(PacketsOf(rs, id), OctetsOf(rs, id), |TrafficOf(rs, id)|)
    decreases |rs|
  {
    if rs == [] {
      assert TrafficOf(rs, id) == {};
    } else {
      PositionsNext(rs, id);
      SumIs(rs[..|rs| - 1], id);
    }
  }

  lemma {:induction false} SumConcat(a: seq<Record>, b: seq<Record>, id: int)
    ensures Sum(a + b, id) == Sum(a, id).Plus(Sum(b, id))
    decreases |b|
  {
    hide Credit;
    if b == [] {
      assert a + b == a;
    } else {
      var c := a + b;
      assert c[..|c| - 1] == a + b[..|b| - 1] && c[|c| - 1] == b[|b| - 1];
      SumConcat(a, b[..|b| - 1], id);
      assert Sum(c, id) == Sum(c[..|c| - 1], id).Plus(Credit(c[|c| - 1], id));
    }
  }

  /** Totals never fall, and activity never outruns packets. */
  lemma {:induction false} SumBounds(rs: seq<Record>, id: int)
    requires AllValid(rs)
    ensures var t := Sum(rs, id); 0 <= t.activity <= t.packets && 0 <= t.octets
    decreases |rs|
  {
    if rs == [] {
      assert Sum(rs, id) == Zero;
    } else {
      SumBounds(rs[..|rs| - 1], id);
    }
  }

  datatype Flow = Flow(entry: Entry, totals: Totals, at: Option<real>, reportAt: Option<real>) {
    /** The flow holds exactly what the stream reported for its ID since it was registered. */
    ghost predicate Accounts(id: int, reported: seq<Record>) {
      && id != 0 && entry.flowId == id && totals == Sum(reported, id)
      && (reportAt.None? ==> totals == Zero) && (totals.activity > 0 ==> at.Some?)
    }
    function Count(r: Record, now: real): Flow {
      Flow(entry, Totals(totals.packets + r.packets, totals.octets + r.octets, totals.activity + if r.Refreshes() then 1 else 0),
           if r.Refreshes() then Some(now) else at, Some(now))
    }
  }

  lemma FreshAccounts(e: Entry, history: seq<Record>)
    ensures e.flowId != 0 ==> Flow(e, Zero, None, None).Accounts(e.flowId, history[|history|..])
  {
  }

  lemma OneFewer(flows: map<int, Flow>, id: int)
    requires id in flows
    ensures |flows - {id}| == |flows| - 1
  {
  }

  /** Live and retired IDs are disjoint and within the budget, and every live flow is exactly accounted. */
  ghost predicate Books(maxIds: nat, flows: map<int, Flow>, retired: set<int>, history: seq<Record>, since: map<int, nat>, owner: map<int, Entry>) {
    && AllValid(history)
    && |flows| + |retired| <= maxIds
    && (forall id :: id in flows ==> id !in retired)
    && (forall id :: id in owner <==> id in flows || id in retired)
    && (forall id :: id in since <==> id in flows)
    && (forall id :: id in flows ==>
          flows[id].entry == owner[id] && since[id] <= |history| && flows[id].Accounts(id, history[since[id]..]))
  }

  predicate AllValid(rs: seq<Record>) {
    forall i :: 0 <= i < |rs| ==> rs[i].Valid()
  }

  /** A clock, which may show anything unless it stands still. */
  class Clock {
    var steady: bool
    var time: real
    ghost var shown: seq<real>   // every value the clock has shown

    method Read() returns (t: real)
      modifies this`shown
      ensures shown == old(shown) + [t]
      ensures steady ==> t == time
    {
      t := *;
      if steady {
        t := time;
      }
      shown := shown + [t];
    }
  }

  /** A report of the receiver is in step with it: the first is a heartbeat, and later ones come while the receiver is heard
      from, at most a timeout apart from where the first heartbeat puts them. */
  ghost predicate InStep(e: Event, now: real, timeout: real, at: Option<real>, origin: real, last: Option<real>, clock: seq<real>) {
    if at.None? then e.Health?
    else
      && |clock| == 1 && Believable(clock[0], last) && clock[0] - at.value < timeout
      && -timeout < now - (origin + e.elapsedMs as real / 1000.0) < timeout
  }

  /** An event is accepted: of this epoch, next in line, not older than the last, of 1 to 125 records in range or a heartbeat,
      at a clock value that is believed, and in step with its receiver. */
  ghost predicate Accepted(from: string, e: Event, epoch: string, sequence: int, elapsedMs: int, available: bool, timeout: Option<real>,
                           at: Option<real>, origin: real, last: Option<real>, clock: seq<real>)
  {
    && available && from == epoch && e.sequence == sequence + 1 && e.sequence < 0x1_0000_0000_0000_0000
    && elapsedMs <= e.elapsedMs < 0x1_0000_0000_0000_0000
    && (e.Counted? ==>
          && 1 <= |e.records| <= 125
          && forall i :: 0 <= i < |e.records| ==>
            && 0 <= e.records[i].flowId <= 0xffff_ffff && 0 <= e.records[i].packets <= 255
            && 0 <= e.records[i].octets <= 0x3f_ffff && 0 <= e.records[i].reason <= 3)
    && (e.Health? ==> e.healthy && timeout.Some?)
    && |clock| >= 1 && Believable(clock[0], last)
    && if timeout.None? then |clock| == 1 else InStep(e, clock[0], timeout.value, at, origin, Some(clock[0]), clock[1..])
  }

  /** A clock value is believed unless it is negative or less than the one before. */
  predicate Believable(t: real, last: Option<real>) {
    t >= 0.0 && (last.Some? ==> t >= last.value)
  }

  class CounterStream {
    const epoch: string
    const clock: Clock
    const freshness: real
    const maxIds: nat
    const receiverTimeout: Option<real>
    var sequence: int
    var elapsedMs: int
    var lastClock: Option<real>
    var available: bool
    var flows: map<int, Flow>
    var retired: set<int>
    var ignored: nat
    var receiverAt: Option<real>
    var receiverOrigin: real
    ghost var history: seq<Record>         // the records of every accepted event
    ghost var since: map<int, nat>         // how much of the history preceded a flow's registration
    ghost var owner: map<int, Entry>       // the one entry each ID was ever registered for

    ghost predicate Valid()
      reads this
    {
      Books(maxIds, flows, retired, history, since, owner)
    }

    constructor (epoch: string, clock: Clock, freshness: real, maxIds: nat, receiverTimeout: Option<real>)
      ensures Valid() && available && history == [] && flows == map[] && retired == {}
    {
      this.epoch, this.clock, this.freshness, this.maxIds, this.receiverTimeout := epoch, clock, freshness, maxIds, receiverTimeout;
      sequence, elapsedMs, lastClock, available := 0, 0, None, true;
      flows, retired, ignored, receiverAt, receiverOrigin := map[], {}, 0, None, 0.0;
      history, since, owner := [], map[], map[];
    }

    method Now() returns (r: Result<real>)
      modifies this`lastClock, this`available, clock`shown
      ensures |clock.shown| == |old(clock.shown)| + 1 && old(clock.shown) <= clock.shown
      ensures var t := clock.shown[|old(clock.shown)|]; r == if Believable(t, old(lastClock)) then Ok(t) else Error
      ensures clock.steady ==> clock.shown[|old(clock.shown)|] == clock.time
      ensures r.Ok? ==> available == old(available) && lastClock == Some(r.value)
      ensures r.Error? ==> !available && lastClock == old(lastClock)
    {
      var t := clock.Read();
      if t < 0.0 || (lastClock.Some? && t < lastClock.value) {
        available := false;
        return Error;
      }
      lastClock := Some(t);
      return Ok(t);
    }

    /** The receiver's own lease, checked even while traffic is idle. */
    method CheckReceiver() returns (r: Outcome)
      requires Valid()
      modifies this`lastClock, this`available, clock`shown
      ensures Valid() && !r.Crashed?
      ensures r.Done? ==> available && receiverTimeout.Some? && receiverAt.Some?
      ensures old(clock.shown) <= clock.shown
      ensures clock.steady ==> (r.Done? <==> old(available) && receiverTimeout.Some? && receiverAt.Some? && Believable(clock.time, old(lastClock))
                                             && clock.time - receiverAt.value < receiverTimeout.value)
      ensures r.Done? && clock.steady ==> lastClock == Some(clock.time)
      // heard from within the timeout, by a clock that is believed
      ensures r.Done? <==>
                && old(available) && receiverTimeout.Some? && receiverAt.Some? && |clock.shown| == |old(clock.shown)| + 1
                && Believable(clock.shown[|old(clock.shown)|], old(lastClock)) && clock.shown[|old(clock.shown)|] - receiverAt.value < receiverTimeout.value
    {
      if !available || receiverTimeout.None? || receiverAt.None? {
        return Raised;
      }
      var now := Now();
      if now.Error? {
        return Raised;
      }
      if now.value - receiverAt.value >= receiverTimeout.value {
        available := false;
        return Raised;
      }
      return Done;
    }

    /** Starts counting an entry under its flow ID; an ID belongs to one entry for the whole epoch. */
    method Register(e: Entry) returns (r: Outcome)
      requires Valid()
      modifies this`flows, this`since, this`owner
      ensures Valid() && !r.Crashed?
      ensures r.Done? <==> e.Valid() && available && e.flowId != 0 && e.flowId !in retired &&
                           (if e.flowId in old(flows) then old(flows)[e.flowId].entry == e else |old(flows)| + |retired| < maxIds)
      ensures r.Done? ==> e.flowId in flows && flows[e.flowId].entry == e
      ensures r.Done? && e.flowId !in old(flows) ==>
                flows == old(flows)[e.flowId := Flow(e, Zero, None, None)] && since == old(since)[e.flowId := |history|] && owner == old(owner)[e.flowId := e]
      ensures r.Raised? || e.flowId in old(flows) ==> flows == old(flows) && since == old(since) && owner == old(owner)
    {
      FreshAccounts(e, history);
      hide Entry.Valid, Flow.Accounts;
      if !e.Valid() || !available || e.flowId == 0 || e.flowId in retired {
        return Raised;
      }
      if e.flowId in flows {
        return if flows[e.flowId].entry == e then Done else Raised;
      }
      if |flows| + |retired| >= maxIds {
        return Raised;
      }
      flows := flows[e.flowId := Flow(e, Zero, None, None)];
      since := since[e.flowId := |history|];
      owner := owner[e.flowId := e];
      return Done;
    }

    /** Retires an ID for the rest of the epoch. */
    method Forget(id: int)
      requires Valid()
      modifies this`flows, this`retired, this`since
      ensures Valid()
      ensures id in old(flows) ==> flows == old(flows) - {id} && since == old(since) - {id} && retired == old(retired) + {id}
      ensures id !in old(flows) ==> flows == old(flows) && since == old(since) && retired == old(retired)
    {
      hide Flow.Accounts;
      if id in flows {
        OneFewer(flows, id);
        flows := flows - {id};
        retired := retired + {id};
        since := since - {id};
      }
    }

    /** The receiver has ended: even a clean exit ends the stream. */
    method Finish()
      requires Valid()
      modifies this`available
      ensures Valid() && !available
    {
      available := false;
    }

    /** The live flow of an entry that is still owned. */
    function Accounting(e: Entry): Result<Flow>
      reads this
    {
      if available && e.flowId in flows && flows[e.flowId].entry == e then Ok(flows[e.flowId]) else Error
    }

    /** A fresh activity token, or none. */
    method Activity(e: Entry) returns (token: Option<int>)
      requires Valid()
      modifies this`lastClock, this`available, clock`shown
      ensures Valid()
      ensures token.Some? ==> Accounting(e).Ok? && token.value == Accounting(e).value.totals.activity && Accounting(e).value.at.Some?
      ensures old(clock.shown) <= clock.shown
      ensures clock.steady ==> (token.Some? <==> old(Accounting(e)).Ok? && old(Accounting(e)).value.at.Some? && Believable(clock.time, old(lastClock))
                                                 && 0.0 <= clock.time - old(Accounting(e)).value.at.value <= freshness)
      ensures token.Some? ==> available && (clock.steady ==> lastClock == Some(clock.time))
      // its last traffic is within the freshness window, by a clock that is believed
      ensures token.Some? <==>
                && old(Accounting(e)).Ok? && old(Accounting(e)).value.at.Some? && |clock.shown| == |old(clock.shown)| + 1
                && Believable(clock.shown[|old(clock.shown)|], old(lastClock))
                && 0.0 <= clock.shown[|old(clock.shown)|] - old(Accounting(e)).value.at.value <= freshness
    {
      hide Books;
      var flow := Accounting(e);
      if flow.Error? || flow.value.at.None? {
        return None;
      }
      var now := Now();
      if now.Error? || now.value - flow.value.at.value < 0.0 || now.value - flow.value.at.value > freshness {
        return None;
      }
      return Some(flow.value.totals.activity);
    }

    /** An event that is well formed on its own and next in line. */
    predicate Acceptable(from: string, e: Event)
      reads this
    {
      && available && from == epoch && e.sequence == sequence + 1 <= 0xffff_ffff_ffff_ffff
      && elapsedMs <= e.elapsedMs <= 0xffff_ffff_ffff_ffff
      && if e.Counted? then 1 <= |e.records| <= 125 && AllValid(e.records) else e.healthy && receiverTimeout.Some?
    }

    /** The receiver's lease: the first event must be a heartbeat, and later ones must keep step with the clock. */
    method Renew(e: Event, now: real) returns (ok: bool)
      requires Valid() && available
      modifies this`lastClock, this`available, this`receiverAt, this`receiverOrigin, clock`shown
      ensures Valid() && old(clock.shown) <= clock.shown
      ensures receiverTimeout.None? || old(receiverAt).None? ==> clock.shown == old(clock.shown)
      ensures ok ==> available && (receiverTimeout.Some? ==> receiverAt == Some(now))
      ensures ok <==> receiverTimeout.None? || InStep(e, now, receiverTimeout.value, old(receiverAt), old(receiverOrigin), old(lastClock), clock.shown[|old(clock.shown)|..])
      ensures ok && receiverTimeout.Some? ==> receiverOrigin == if old(receiverAt).None? then now - e.elapsedMs as real / 1000.0 else old(receiverOrigin)
      ensures ok && receiverTimeout.Some? && old(receiverAt).None? ==> e.Health?
    {
      hide Books;
      if receiverTimeout.None? {
        return true;
      }
      if receiverAt.None? {
        if e.Counted? {
          return false;
        }
        receiverOrigin := now - e.elapsedMs as real / 1000.0;
      } else {
        var checked := CheckReceiver();
        var lag := now - (receiverOrigin + e.elapsedMs as real / 1000.0);
        if !checked.Done? || lag >= receiverTimeout.value || -lag >= receiverTimeout.value {
          return false;
        }
      }
      receiverAt := Some(now);
      return true;
    }

    /** Everything that can be wrong with an event, checked before any total changes. */
    method Inspect(from: string, e: Event) returns (r: Result<real>)
      requires Valid()
      modifies this`lastClock, this`available, this`receiverAt, this`receiverOrigin, clock`shown
      ensures Valid() && old(clock.shown) <= clock.shown
      ensures r.Ok? ==> available && from == epoch && e.sequence == sequence + 1 && AllValid(e.Records())
      ensures r.Ok? ==> old(clock.shown) < clock.shown && r.value == clock.shown[|old(clock.shown)|]
      ensures r.Ok? <==> Accepted(from, e, epoch, old(sequence), old(elapsedMs), old(available), receiverTimeout, old(receiverAt), old(receiverOrigin), old(lastClock),
                                  clock.shown[|old(clock.shown)|..])
      ensures r.Error? ==> !available
    {
      hide Books;
      if !Acceptable(from, e) {
        available := false;
        return Error;
      }
      var now := Now();
      assert clock.shown[|old(clock.shown)|..][0] == clock.shown[|old(clock.shown)|];
      if now.Error? {
        return Error;
      }
      ghost var shown := clock.shown;
      var ok := Renew(e, now.value);
      assert clock.shown[|old(clock.shown)|..][0] == now.value && clock.shown[|old(clock.shown)|..][1..] == clock.shown[|shown|..];
      if !ok {
        available := false;
        return Error;
      }
      return now;
    }

    /** Credits every record to the live flow of its ID; records of other IDs are only counted. */
    method Absorb(records: seq<Record>, now: real)
      requires Valid() && AllValid(records)
      modifies this`flows, this`ignored, this`history
      ensures Valid() && history == old(history) + records
      ensures flows.Keys == old(flows).Keys
      ensures forall id :: id in flows ==> flows[id].entry == old(flows)[id].entry && flows[id].totals == old(flows)[id].totals.Plus(Sum(records, id))
      ensures forall id :: id in flows ==> Heard(id, old(flows)[id], flows[id], records, now)
      ensures ignored == old(ignored) + Strangers(records, old(flows).Keys)
    {
      ghost var before := flows;
      CreditedNone(before, records, now);
      hide Credited, Books, AllValid, Strangers, Record.Refreshes;
      for i := 0 to |records|
        invariant history == old(history) && flows.Keys == before.Keys
        invariant ignored == old(ignored) + Strangers(records[..i], before.Keys)
        invariant forall id :: id in before ==> Credited(id, before[id], flows[id], records[..i], now)
      {
        var r := records[i];
        CreditedStep(before, flows, records, i, now);
        if r.flowId in flows {
          flows := flows[r.flowId := flows[r.flowId].Count(r, now)];
        } else {
          ignored := ignored + 1;
        }
      }
      assert records[..|records|] == records;
      history := history + records;
      BooksMore(maxIds, before, flows, retired, old(history), records, since, owner, now);
      AllHeard(before, flows, records, now);
    }

    /** One event of the receiver: accepted as a whole, or the stream is unavailable and no total has changed. */
    method Consume(from: string, e: Event) returns (r: Outcome)
      requires Valid()
      modifies this`lastClock, this`available, this`receiverAt, this`receiverOrigin, this`flows, this`ignored, this`history, this`sequence, this`elapsedMs,
               clock`shown
      ensures Valid() && !r.Crashed? && old(clock.shown) <= clock.shown
      // accepted exactly when it should be
      ensures r.Done? <==> Accepted(from, e, epoch, old(sequence), old(elapsedMs), old(available), receiverTimeout, old(receiverAt), old(receiverOrigin), old(lastClock),
                                    clock.shown[|old(clock.shown)|..])
      ensures r.Done? ==> elapsedMs == e.elapsedMs
      // every live flow gets its packets and octets, and by those records that show traffic also activity at the event's time
      ensures r.Done? ==> old(clock.shown) < clock.shown && forall id :: id in flows ==> Heard(id, old(flows)[id], flows[id], e.Records(), clock.shown[|old(clock.shown)|])
      ensures r.Raised? ==> !available && flows == old(flows) && history == old(history) && ignored == old(ignored) && sequence == old(sequence)
      ensures r.Done? ==> available && history == old(history) + e.Records() && sequence == old(sequence) + 1 == e.sequence
      ensures flows.Keys == old(flows).Keys
      ensures r.Done? ==> forall id :: id in flows ==>
                flows[id].entry == old(flows)[id].entry && flows[id].totals == old(flows)[id].totals.Plus(Sum(e.Records(), id))
      ensures r.Done? ==> ignored == old(ignored) + Strangers(e.Records(), old(flows).Keys)
    {
      hide Books, Strangers, AllValid, Heard, Accepted;
      var now := Inspect(from, e);
      if now.Error? {
        return Raised;
      }
      Absorb(e.Records(), now.value);
      sequence, elapsedMs := e.sequence, e.elapsedMs;
      return Done;
    }
  }

  /** Records for IDs that are not live: late reports of retired flows, and reports of nobody's. */
  function Strangers(rs: seq<Record>, live: set<int>): nat
    decreases |rs|
  {
    if rs == [] then 0 else Strangers(rs[..|rs| - 1], live) + (if rs[|rs| - 1].flowId in live then 0 else 1)
  }

  /** What a flow has become by the records of one event, number by number. */
  ghost predicate Heard(id: int, before: Flow, after: Flow, records: seq<Record>, now: real) {
    && after.entry == before.entry
    && after.totals.packets == before.totals.packets + PacketsOf(records, id)
    && after.totals.octets == before.totals.octets + OctetsOf(records, id)
    && after.totals.activity == before.totals.activity + |TrafficOf(records, id)|
    && after.at == (if TrafficOf(records, id) == {} then before.at else Some(now))
    && after.reportAt == (if ReportsOf(records, id) == {} then before.reportAt else Some(now))
  }

  lemma AllHeard(before: map<int, Flow>, after: map<int, Flow>, records: seq<Record>, now: real)
    requires after.Keys == before.Keys && forall id :: id in before ==> Credited(id, before[id], after[id], records, now)
    ensures forall id :: id in before ==> Heard(id, before[id], after[id], records, now)
  {
    forall id | id in before
      ensures Heard(id, before[id], after[id], records, now)
    {
      SumIs(records, id);
      hide Sum, PacketsOf, OctetsOf, TrafficOf, ReportsOf;
    }
  }

  ghost predicate Timed(id: int, before: Flow, after: Flow, records: seq<Record>, now: real) {
    && after.at == (if TrafficOf(records, id) == {} then before.at else Some(now))
    && after.reportAt == (if ReportsOf(records, id) == {} then before.reportAt else Some(now))
  }

  ghost predicate Credited(id: int, before: Flow, after: Flow, records: seq<Record>, now: real) {
    && after.entry == before.entry && after.totals == before.totals.Plus(Sum(records, id))
    && Timed(id, before, after, records, now)
    && (after.reportAt.None? ==> before.reportAt.None? && Sum(records, id) == Zero)
    && (before.at.Some? ==> after.at.Some?) && (Sum(records, id).activity > 0 ==> after.at.Some?)
  }

  lemma CreditedNone(flows: map<int, Flow>, records: seq<Record>, now: real)
    ensures forall id :: id in flows ==> Credited(id, flows[id], flows[id], records[..0], now)
    ensures Strangers(records[..0], flows.Keys) == 0
  {
    assert forall id :: TrafficOf(records[..0], id) == {} && ReportsOf(records[..0], id) == {};
  }

  lemma SumNext(rs: seq<Record>, i: nat, id: int)
    requires i < |rs|
    ensures Sum(rs[..i + 1], id) == Sum(rs[..i], id).Plus(Credit(rs[i], id))
  {
    assert rs[..i + 1][..i] == rs[..i];
    hide Credit;
  }

  lemma CreditedNext(id: int, before: Flow, prior: Flow, rs: seq<Record>, i: nat, now: real)
    requires i < |rs| && Credited(id, before, prior, rs[..i], now)
    ensures Credited(id, before, if rs[i].flowId == id then prior.Count(rs[i], now) else prior, rs[..i + 1], now)
  {
    hide Sum, Timed, Record.Valid;
    TimedNext(id, before, prior, rs, i, now);
    SumNext(rs, i, id);
    var so, more := Sum(rs[..i], id), Sum(rs[..i + 1], id);
    if rs[i].flowId == id {
      assert more == Totals(so.packets + rs[i].packets, so.octets + rs[i].octets, so.activity + if rs[i].Refreshes() then 1 else 0);
    } else {
      assert more == so;
    }
  }

  lemma TimedNext(id: int, before: Flow, prior: Flow, rs: seq<Record>, i: nat, now: real)
    requires i < |rs| && Timed(id, before, prior, rs[..i], now)
    ensures Timed(id, before, if rs[i].flowId == id then prior.Count(rs[i], now) else prior, rs[..i + 1], now)
  {
    hide TrafficOf, ReportsOf;
    PositionsGrow(rs, i, id);
  }

  lemma CreditedStep(before: map<int, Flow>, prior: map<int, Flow>, rs: seq<Record>, i: nat, now: real)
    requires i < |rs| && prior.Keys == before.Keys && forall id :: id in before ==> Credited(id, before[id], prior[id], rs[..i], now)
    ensures forall id :: id in before ==> Credited(id, before[id], if rs[i].flowId == id then prior[id].Count(rs[i], now) else prior[id], rs[..i + 1], now)
    ensures Strangers(rs[..i + 1], before.Keys) == Strangers(rs[..i], before.Keys) + if rs[i].flowId in prior then 0 else 1
  {
    assert rs[..i + 1][..i] == rs[..i];
    hide Credited;
    forall id | id in before
      ensures Credited(id, before[id], if rs[i].flowId == id then prior[id].Count(rs[i], now) else prior[id], rs[..i + 1], now)
    {
      CreditedNext(id, before[id], prior[id], rs, i, now);
    }
  }

  lemma AccountsMore(id: int, before: Flow, after: Flow, reported: seq<Record>, records: seq<Record>, now: real)
    requires before.Accounts(id, reported) && Credited(id, before, after, records, now)
    ensures after.Accounts(id, reported + records)
    ensures after.entry == before.entry && after.totals == before.totals.Plus(Sum(records, id))
  {
    SumConcat(reported, records, id);
    hide Sum;
  }

  lemma BooksMore(
    maxIds: nat, before: map<int, Flow>, after: map<int, Flow>, retired: set<int>,
    history: seq<Record>, records: seq<Record>, since: map<int, nat>, owner: map<int, Entry>, now: real)
    requires Books(maxIds, before, retired, history, since, owner) && AllValid(records) && after.Keys == before.Keys
    requires forall id :: id in before ==> Credited(id, before[id], after[id], records, now)
    ensures Books(maxIds, after, retired, history + records, since, owner)
    ensures forall id :: id in before ==> after[id].entry == before[id].entry && after[id].totals == before[id].totals.Plus(Sum(records, id))
  {
    hide Flow.Accounts, Credited, Record.Valid, Sum;
    assert |after| == |before| by {
      assert |after.Keys| == |after| && |before.Keys| == |before|;
    }
    forall id | id in before
      ensures after[id].entry == before[id].entry && after[id].totals == before[id].totals.Plus(Sum(records, id))
      ensures since[id] <= |history + records| && after[id].Accounts(id, (history + records)[since[id]..])
    {
      MoreSince(id, before[id], after[id], since[id], history, records, now);
    }
  }

  lemma MoreSince(id: int, before: Flow, after: Flow, begin: nat, history: seq<Record>, records: seq<Record>, now: real)
    requires begin <= |history| && before.Accounts(id, history[begin..]) && Credited(id, before, after, records, now)
    ensures after.Accounts(id, (history + records)[begin..])
    ensures after.entry == before.entry && after.totals == before.totals.Plus(Sum(records, id))
  {
    hide *;
    assert (history + records)[begin..] == history[begin..] + records;
    AccountsMore(id, before, after, history[begin..], records, now);
  }
}
