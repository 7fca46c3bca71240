/** Moving one session's counter totals into the kernel connection it belongs to, each delta exactly once. */
module Accounting {
  import opened Outcomes
  import opened FlowCodec
  import opened FlowIds
  import opened Counters
  import NatPair

  /** One call into the kernel: what each direction carried since the last one, and which directions were active. */
  datatype Update = Update(number: int, packets: seq<int>, octets: seq<int>, active: int)

  predicate Active(mask: int, d: nat)
    requires d < 2
  {
    if d == 0 then mask % 2 == 1 else mask / 2 % 2 == 1
  }

  predicate Nothing(u: Update) {
    u.packets == [0, 0] && u.octets == [0, 0]
  }

  /** What a series of updates has told the kernel about one direction. */
  function Delivered(log: seq<Update>, d: nat): (int, int)
    requires d < 2 && WellFormed(log)
    decreases |log|
  {
    if log == [] then (0, 0)
    else
      var before, last := Delivered(log[..|log| - 1], d), log[|log| - 1];
      (before.0 + last.packets[d], before.1 + last.octets[d])
  }

  predicate WellFormed(log: seq<Update>) {
    forall i :: 0 <= i < |log| ==> |log[i].packets| == 2 && |log[i].octets| == 2
  }

  /** A reference to a kernel connection.  The log holds every update the kernel has taken. */
  class KernelLease {
    const protocol: int
    const original: Translation
    const reply: Translation
    var closed: bool
    var healthy: bool          // no call fails
    ghost var log: seq<Update>

    constructor (protocol: int, original: Translation, reply: Translation)
      ensures !closed && log == []
    {
      this.protocol, this.original, this.reply := protocol, original, reply;
      closed, healthy, log := false, true, [];
    }

    /** A failed update may still have reached the kernel. */
    method Apply(u: Update) returns (ok: bool)
      modifies this`log
      ensures ok ==> log == old(log) + [u]
      ensures log == old(log) || log == old(log) + [u]
      ensures healthy ==> ok
    {
      var taken: bool := *;
      ok := *;
      ok := ok || healthy;
      if ok || taken {
        log := log + [u];
      }
    }

    /** Whether the connection is still there; refreshes nothing. */
    method Check() returns (ok: bool)
      ensures healthy ==> ok
    {
      ok := *;
      ok := ok || healthy;
    }

    method Close() returns (ok: bool)
      modifies this`closed
      ensures ok ==> closed
    {
      var taken: bool := *;
      ok := *;
      closed := closed || ok || taken;
    }
  }

  /** The owner's withdrawal of both hardware directions. */
  class Withdrawal {
    var acknowledged: bool

    constructor ()
      ensures !acknowledged
    {
      acknowledged := false;
    }

    method Withdraw() returns (ok: bool)
      modifies this
      ensures ok ==> acknowledged
      ensures old(acknowledged) ==> acknowledged
    {
      ok := *;
      acknowledged := acknowledged || ok;
    }
  }

  /** The entries are the two directions of the connection the lease is bound to. */
  predicate Matches(entries: seq<Entry>, protocol: int, original: Translation, reply: Translation) {
    |entries| == 2 && entries[0].Valid() && entries[1].Valid() && NatPair.Matches(entries[0], entries[1], protocol, original, reply)
  }

  /** Whatever entries an encoded, labelled pair stands for, they may be bound to the connection it was made from. */
  lemma PairBinds(sid: int, original: NatPair.Conntrack, reply: NatPair.Conntrack, zones: seq<int>, hops: seq<int>, ids: (int, int), x: Entry, y: Entry)
    requires x.Valid() && y.Valid() && x.Encode().Ok? && y.Encode().Ok?
    requires NatPair.Labelled(sid, original, reply, zones, hops, ids) == Ok([x.Encode().value, y.Encode().value])
    ensures Matches([x, y], original.protocol, original.Tuple(), reply.Tuple())
  {
    hide Entry.Encode, Entry.Valid, NatPair.Labelled, NatPair.Matches, NatPair.AccountingAccepts;
    NatPair.PairSatisfiesAccounting(sid, original, reply, zones, hops, ids);
    NatPair.AccountingCheckIsMatches(x, y, original.protocol, original.Tuple(), reply.Tuple());
  }

  /** `previous` is what the stream reported for one direction, from its registration up to the last sync. */
  ghost predicate Tracked(e: Entry, previous: Totals, start: nat, upto: nat, history: seq<Record>, flows: map<int, Flow>, since: map<int, nat>, owner: map<int, Entry>) {
    && start <= upto <= |history| && previous == Sum(history[start..upto], e.flowId)
    && e.flowId in owner && owner[e.flowId] == e
    && (e.flowId in flows && e.flowId in since ==> since[e.flowId] == start)
  }

  /** The kernel took all the acknowledged updates, and at most one more whose acknowledgement was lost. */
  ghost predicate Told(acked: seq<Update>, log: seq<Update>) {
    acked == log || (log != [] && acked == log[..|log| - 1])
  }

  /** The acknowledged updates of each direction add up to what was reported for it. */
  ghost predicate Settled(previous: seq<Totals>, acked: seq<Update>)
    requires |previous| == 2
  {
    && WellFormed(acked)
    && (forall i :: 0 <= i < |acked| ==> acked[i].number == i + 1)
    && (forall d :: 0 <= d < 2 ==> Delivered(acked, d) == (previous[d].packets, previous[d].octets))
  }

  /** A flow whose totals grew from `previous` by what was reported since, to what was reported in all. */
  ghost predicate Grown(f: Flow, previous: Totals, reported: Totals, all: Totals) {
    && f.totals == previous.Plus(reported) && f.totals == all
    && 0 <= reported.activity <= reported.packets && 0 <= reported.octets
    && (f.totals != previous ==> f.reportAt.Some?)
  }

  /** What has been reported for a direction since the last sync, taken apart from what came before. */
  lemma SinceLastSync(e: Entry, f: Flow, previous: Totals, start: nat, upto: nat, history: seq<Record>)
    requires AllValid(history) && start <= upto <= |history| && previous == Sum(history[start..upto], e.flowId)
    requires f.Accounts(e.flowId, history[start..])
    ensures Grown(f, previous, Sum(history[upto..], e.flowId), Sum(history[start..], e.flowId))
  {
    hide Sum, Record.Valid;
    assert history[start..] == history[start..upto] + history[upto..];
    SumConcat(history[start..upto], history[upto..], e.flowId);
    SumBounds(history[start..upto], e.flowId);
    SumBounds(history[upto..], e.flowId);
  }

  /** An update tells one direction's counts, and flags it active when there was activity. */
  ghost predicate Summarizes(u: Update, d: nat, reported: Totals)
    requires d < 2 == |u.packets| == |u.octets|
  {
    && u.packets[d] == reported.packets && u.octets[d] == reported.octets
    && 0 <= reported.activity <= reported.packets && (Active(u.active, d) <==> reported.activity > 0)
  }

  /** Totals have not gone back, and what they gained was reported within the freshness window. */
  ghost predicate ReportDue(f: Flow, previous: Totals, now: real, freshness: real) {
    && f.totals.packets >= previous.packets && f.totals.octets >= previous.octets && f.totals.activity >= previous.activity
    && (f.totals.packets > previous.packets || f.totals.octets > previous.octets ==> f.reportAt.Some? && 0.0 <= now - f.reportAt.value <= freshness)
  }

  /** Traffic that was seen since was seen within the freshness window. */
  ghost predicate TrafficDue(f: Flow, previous: Totals, now: real, freshness: real) {
    f.totals.activity > previous.activity ==> f.at.Some? && 0.0 <= now - f.at.value <= freshness
  }

  ghost predicate Reported(f: Flow, previous: Totals) {
    f.totals != previous ==> f.reportAt.Some?
  }

  ghost predicate Moved(u: Update, d: nat, delta: Totals)
    requires d < 2 == |u.packets| == |u.octets|
  {
    u.packets[d] == delta.packets && u.octets[d] == delta.octets && (Active(u.active, d) <==> delta.activity > 0)
  }

  lemma GrownIsReported(f: Flow, previous: Totals, reported: Totals, all: Totals)
    requires Grown(f, previous, reported, all)
    ensures Reported(f, previous) && f.totals == all == previous.Plus(reported)
    ensures forall u: Update, d | d < 2 == |u.packets| == |u.octets| && 0 <= d && Moved(u, d, f.totals.Minus(previous)) :: Summarizes(u, d, reported)
  {
  }

  /** With nothing counted there was no activity either: no report is lost by saying nothing. */
  lemma Idle(u: Update, totals: Totals, previous: Totals, d: nat, reported: Totals)
    requires d < 2 && u.packets == u.octets == [0, 0] && Summarizes(u, d, reported) && totals == previous.Plus(reported)
    ensures reported == Zero && totals == previous
  {
  }

  lemma ToldMore(prior: seq<Update>, acked: seq<Update>, u: Update)
    ensures prior + (acked + [u]) == prior + acked + [u] && Told(prior + acked, prior + acked + [u]) && Told(prior + acked, prior + acked)
    ensures Told(prior + (acked + [u]), prior + acked + [u])
  {
  }

  lemma SettledMore(previous: seq<Totals>, acked: seq<Update>, totals: seq<Totals>, u: Update, a: Totals, b: Totals)
    requires |previous| == |totals| == |u.packets| == |u.octets| == 2 && Settled(previous, acked) && u.number == |acked| + 1
    requires Summarizes(u, 0, a) && Summarizes(u, 1, b) && totals == [previous[0].Plus(a), previous[1].Plus(b)]
    ensures Settled(totals, acked + [u])
  {
  }

  class AccountedSession {
    const stream: CounterStream
    const lease: KernelLease
    const withdrawal: Withdrawal
    const entries: seq<Entry>
    const epoch: string
    var previous: seq<Totals>
    var sequence: nat
    var failed: bool
    var closed: bool
    ghost const start: seq<nat>          // how much of the stream's history preceded each direction's registration
    ghost const prior: seq<Update>       // what the kernel had been told when the lease was bound
    ghost var acked: seq<Update>         // the updates the kernel has acknowledged to this session
    ghost var upto: nat                  // how much of the stream's history the acknowledged updates cover

    ghost predicate Follows(d: nat)
      requires d < |entries| == |previous| == |start|
      reads this, stream
    {
      Tracked(entries[d], previous[d], start[d], upto, stream.history, stream.flows, stream.since, stream.owner)
    }

    /** What was reported, what was acknowledged, and how they agree. */
    ghost predicate Ledger()
      reads this, stream, lease, withdrawal
    {
      && stream.Valid() && |entries| == |previous| == |start| == 2
      && Follows(0) && Follows(1)
      && sequence == |acked| && Settled(previous, acked) && Told(prior + acked, lease.log)
      && (closed ==> failed && lease.closed && withdrawal.acknowledged)
    }

    ghost predicate Valid()
      reads this, stream, lease, withdrawal
    {
      Ledger() && (!failed ==> lease.log == prior + acked)
    }

    /** Everything reported so far for direction `d` has been acknowledged by the kernel, and nothing else. */
    ghost predicate Conserved(d: nat)
      requires d < |entries| == |start| == 2
      reads this, stream
    {
      && WellFormed(acked) && start[d] <= |stream.history|
      && var t := Sum(stream.history[start[d]..], entries[d].flowId); Delivered(acked, d) == (t.packets, t.octets)
    }

    /** The acknowledged updates are exactly what was reported, in each direction, up to the last successful sync. */
    ghost predicate Square()
      reads this, stream
    {
      && |entries| == |start| == 2 && WellFormed(acked)
      && forall d :: 0 <= d < 2 ==>
        && start[d] <= upto <= |stream.history|
        && var t := Sum(stream.history[start[d]..upto], entries[d].flowId); Delivered(acked, d) == (t.packets, t.octets)
    }

    constructor (stream: CounterStream, entries: seq<Entry>, lease: KernelLease, withdrawal: Withdrawal)
      requires stream.Valid() && |entries| == 2
      requires forall d :: 0 <= d < 2 ==> stream.Accounting(entries[d]).Ok? && stream.Accounting(entries[d]).value.reportAt.None?
      ensures Valid() && this.stream == stream && this.entries == entries && this.lease == lease && this.withdrawal == withdrawal
      ensures !failed && !closed && acked == [] && upto == |stream.history|
    {
      this.stream, this.entries, this.lease, this.withdrawal, this.epoch := stream, entries, lease, withdrawal, stream.epoch;
      previous := [stream.Accounting(entries[0]).value.totals, stream.Accounting(entries[1]).value.totals];
      sequence, failed, closed := 0, false, false;
      start := [stream.since[entries[0].flowId], stream.since[entries[1].flowId]];
      prior, acked, upto := lease.log, [], |stream.history|;
      new;
      assert stream.history[start[0]..] == stream.history[start[0]..upto];
      assert stream.history[start[1]..] == stream.history[start[1]..upto];
      assert prior + acked == lease.log;
    }

    /** Binds a session before the hardware has reported anything for either direction. */
    static method Bind(stream: CounterStream, entries: seq<Entry>, lease: KernelLease, withdrawal: Withdrawal) returns (r: Option<AccountedSession>)
      requires stream.Valid()
      modifies stream`lastClock, stream`available, stream.clock`shown
      ensures stream.Valid()
      ensures r.Some? ==>
                && fresh(r.value) && r.value.Valid() && r.value.stream == stream && r.value.lease == lease && r.value.entries == entries
                && r.value.withdrawal == withdrawal && !r.value.failed && r.value.upto == |stream.history|
      ensures r.Some? ==> Matches(entries, lease.protocol, lease.original, lease.reply)
    {
      hide Books, NatPair.Matches, Entry.Valid;
      if !Matches(entries, lease.protocol, lease.original, lease.reply) {
        return None;
      }
      var checked := stream.CheckReceiver();
      if checked.IsFailure() {
        return None;
      }
      var a, b := stream.Accounting(entries[0]), stream.Accounting(entries[1]);
      if a.Error? || b.Error? || a.value.reportAt.Some? || b.value.reportAt.Some? {
        return None;
      }
      var session := new AccountedSession(stream, entries, lease, withdrawal);
      return Some(session);
    }

    /** Ends the session.  The kernel reference is kept until the withdrawal of both directions is acknowledged. */
    method Fence() returns (ok: bool)
      requires Ledger()
      modifies this`failed, this`closed, lease`closed, withdrawal, stream`flows, stream`retired, stream`since
      ensures Valid() && failed
      ensures lease.closed && !old(lease.closed) ==> withdrawal.acknowledged
      ensures ok <==> closed
      ensures closed && !old(closed) ==> forall d :: 0 <= d < 2 ==> entries[d].flowId !in stream.flows
    {
      hide Books, Settled, Flow.Accounts, Told;
      failed := true;
      if closed {
        return true;
      }
      ok := withdrawal.Withdraw();
      if !ok {
        return;
      }
      ok := lease.Close();
      if !ok {
        return;
      }
      closed := true;
      stream.Forget(entries[0].flowId);
      stream.Forget(entries[1].flowId);
    }

    /** What the stream holds can be told to the kernel, with the clock standing still: it is heard from, both flows are live,
        and what has changed in them since the last sync is fresh. */
    ghost predicate Readable()
      reads this, stream, stream.clock
    {
      && |entries| == |previous| == 2
      && stream.epoch == epoch && stream.available && stream.receiverTimeout.Some? && stream.receiverAt.Some?
      && Believable(stream.clock.time, stream.lastClock) && stream.clock.time - stream.receiverAt.value < stream.receiverTimeout.value
      && forall d :: 0 <= d < 2 ==>
        && stream.Accounting(entries[d]).Ok?
        && ReportDue(stream.Accounting(entries[d]).value, previous[d], stream.clock.time, stream.freshness)
        && TrafficDue(stream.Accounting(entries[d]).value, previous[d], stream.clock.time, stream.freshness)
    }

    /** The change of each direction since the last sync, refused when a report or an activity is stale. */
    method Deltas(flows: seq<Flow>, now: real) returns (r: Result<Update>)
      requires stream.Valid() && |entries| == |previous| == |flows| == 2
      requires forall d :: 0 <= d < 2 ==> Reported(flows[d], previous[d]) && stream.Accounting(entries[d]) == Ok(flows[d])
      modifies stream`lastClock, stream`available, stream.clock`shown
      ensures stream.Valid() && old(stream.clock.shown) <= stream.clock.shown
      ensures r.Ok? ==> |r.value.packets| == |r.value.octets| == 2 && r.value.number == sequence + 1
      ensures r.Ok? ==> forall d :: 0 <= d < 2 ==> Moved(r.value, d, flows[d].totals.Minus(previous[d]))
      ensures r.Ok? ==> 0 <= r.value.active < 4 && forall d :: 0 <= d < 2 ==> stream.Accounting(entries[d]) == Ok(flows[d]) && ReportDue(flows[d], previous[d], now, stream.freshness)
      ensures Still(now) && old(stream.lastClock) == Some(now) ==>
                (r.Ok? <==> forall d :: 0 <= d < 2 ==>
                   ReportDue(flows[d], previous[d], now, stream.freshness) && TrafficDue(flows[d], previous[d], now, stream.freshness))
    {
      hide Books, ReportDue, TrafficDue, Reported;
      var packets, octets, active := [], [], 0;
      for d := 0 to 2
        invariant |packets| == |octets| == d && stream.Valid() && old(stream.clock.shown) <= stream.clock.shown
        invariant 0 <= active < if d == 0 then 1 else if d == 1 then 2 else 4
        invariant forall k :: 0 <= k < d ==>
                    var delta := flows[k].totals.Minus(previous[k]);
                    packets[k] == delta.packets && octets[k] == delta.octets && (Active(active, k) <==> delta.activity > 0)
        invariant forall k :: 0 <= k < 2 ==> stream.Accounting(entries[k]) == Ok(flows[k])
        invariant forall k :: 0 <= k < d ==> ReportDue(flows[k], previous[k], now, stream.freshness)
        invariant Still(now) && old(stream.lastClock) == Some(now) ==>
                    stream.lastClock == Some(now) && forall k :: 0 <= k < d ==> TrafficDue(flows[k], previous[k], now, stream.freshness)
      {
        var due := Fresh(d, flows[d], now);
        if !due {
          return Error;
        }
        var delta := flows[d].totals.Minus(previous[d]);
        active := active + if delta.activity == 0 then 0 else if d == 0 then 1 else 2;
        packets, octets := packets + [delta.packets], octets + [delta.octets];
      }
      return Ok(Update(sequence + 1, packets, octets, active));
    }

    ghost predicate Still(now: real)
      reads stream.clock
    {
      stream.clock.steady && now == stream.clock.time && now >= 0.0
    }

    /** Whether one direction has not gone back and what is new in it is fresh. */
    method Fresh(d: nat, f: Flow, now: real) returns (ok: bool)
      requires stream.Valid() && d < 2 == |entries| == |previous| && Reported(f, previous[d]) && stream.Accounting(entries[d]) == Ok(f)
      modifies stream`lastClock, stream`available, stream.clock`shown
      ensures stream.Valid() && old(stream.clock.shown) <= stream.clock.shown
      ensures ok ==> stream.available && ReportDue(f, previous[d], now, stream.freshness) && f.totals.activity >= previous[d].activity
      ensures ok && old(stream.lastClock) == Some(now) && Still(now) ==> stream.lastClock == Some(now)
      ensures Still(now) && old(stream.lastClock) == Some(now) ==>
                (ok <==> ReportDue(f, previous[d], now, stream.freshness) && TrafficDue(f, previous[d], now, stream.freshness))
    {
      hide Books;
      var delta := f.totals.Minus(previous[d]);
      if delta.packets < 0 || delta.octets < 0 || delta.activity < 0 {
        return false;
      }
      if delta.packets != 0 || delta.octets != 0 {
        var age := now - f.reportAt.value;
        if age < 0.0 || age > stream.freshness {
          return false;
        }
      }
      if delta.activity != 0 {
        var token := stream.Activity(entries[d]);
        return token.Some?;
      }
      return true;
    }

    /** The two live flows as the stream holds them, with what changed in them since the last sync. */
    method Snapshots() returns (r: Result<seq<Flow>>)
      requires Ledger()
      ensures r.Ok? <==> stream.Accounting(entries[0]).Ok? && stream.Accounting(entries[1]).Ok?
      ensures r.Ok? ==> r.value == [stream.Accounting(entries[0]).value, stream.Accounting(entries[1]).value]
      ensures r.Ok? ==> forall d :: 0 <= d < 2 ==>
                Grown(r.value[d], previous[d], Sum(stream.history[upto..], entries[d].flowId), Sum(stream.history[start[d]..], entries[d].flowId))
    {
      hide Sum, Settled, Told, AllValid, Grown;
      var a, b := stream.Accounting(entries[0]), stream.Accounting(entries[1]);
      if a.Error? || b.Error? {
        return Error;
      }
      SinceLastSync(entries[0], a.value, previous[0], start[0], upto, stream.history);
      SinceLastSync(entries[1], b.value, previous[1], start[1], upto, stream.history);
      return Ok([a.value, b.value]);
    }

    /** `u` says what the stream reported for each direction from position `begin` on, and which was active. */
    ghost predicate Reports(u: Update, begin: nat)
      requires |entries| == 2
      reads this, stream
    {
      && begin <= |stream.history| && |u.packets| == |u.octets| == 2 && 0 <= u.active < 4
      && forall d :: 0 <= d < 2 ==> Summarizes(u, d, Sum(stream.history[begin..], entries[d].flowId))
    }

    /** `totals` is what the whole history holds, and `u` what it holds beyond the last sync. */
    ghost predicate Measured(totals: seq<Totals>, u: Update)
      requires |entries| == |previous| == |start| == 2
      reads this, stream
    {
      && |totals| == 2 && u.number == sequence + 1 && Reports(u, upto)
      && forall d :: 0 <= d < 2 ==>
        && start[d] <= upto && totals[d] == Sum(stream.history[start[d]..], entries[d].flowId)
        && totals[d] == previous[d].Plus(Sum(stream.history[upto..], entries[d].flowId))
    }

    method Measure() returns (r: Result<(seq<Totals>, Update)>)
      requires Ledger()
      modifies stream`lastClock, stream`available, stream.clock`shown
      ensures Ledger() && (r.Ok? ==> Measured(r.value.0, r.value.1))
      ensures r.Ok? ==> stream.available && Dated(previous)
      ensures stream.clock.steady ==> (r.Ok? <==> old(Readable()))
    {
      hide Sum, Books, Settled, Told, Grown, Reported, Moved, Summarizes, ReportDue, TrafficDue;
      var flows, now := Look();
      if flows.Error? {
        return Error;
      }
      forall d: nat | d < 2
        ensures Reported(flows.value[d], previous[d])
        ensures forall u: Update | |u.packets| == |u.octets| == 2 && Moved(u, d, flows.value[d].totals.Minus(previous[d])) ::
                  Summarizes(u, d, Sum(stream.history[upto..], entries[d].flowId))
        ensures flows.value[d].totals == Sum(stream.history[start[d]..], entries[d].flowId)
        ensures flows.value[d].totals == previous[d].Plus(Sum(stream.history[upto..], entries[d].flowId))
      {
        GrownIsReported(flows.value[d], previous[d], Sum(stream.history[upto..], entries[d].flowId), Sum(stream.history[start[d]..], entries[d].flowId));
      }
      var deltas := Deltas(flows.value, now);
      if deltas.Error? {
        return Error;
      }
      assert now in stream.clock.shown && DatedAt(previous, now);
      return Ok(([flows.value[0].totals, flows.value[1].totals], deltas.value));
    }

    /** At some time the clock has shown, what the flows gained since these totals was reported within the freshness window. */
    ghost predicate Dated(since: seq<Totals>)
      reads this, stream, stream.clock
    {
      && |entries| == |since| == 2 && (forall d :: 0 <= d < 2 ==> stream.Accounting(entries[d]).Ok?)
      && exists t :: t in stream.clock.shown && DatedAt(since, t)
    }

    ghost predicate DatedAt(since: seq<Totals>, t: real)
      requires |entries| == |since| == 2 && forall d :: 0 <= d < 2 ==> stream.Accounting(entries[d]).Ok?
      reads this, stream
    {
      forall d :: 0 <= d < 2 ==> ReportDue(stream.Accounting(entries[d]).value, since[d], t, stream.freshness)
    }

    /** The checks and readings that come before any difference is taken. */
    method Look() returns (r: Result<seq<Flow>>, now: real)
      requires Ledger()
      modifies stream`lastClock, stream`available, stream.clock`shown
      ensures Ledger() && old(stream.clock.shown) <= stream.clock.shown
      ensures r.Ok? ==> |r.value| == 2 && stream.available && now in stream.clock.shown
      ensures r.Ok? ==> forall d :: 0 <= d < 2 ==>
                && stream.Accounting(entries[d]) == Ok(r.value[d])
                && Grown(r.value[d], previous[d], Sum(stream.history[upto..], entries[d].flowId), Sum(stream.history[start[d]..], entries[d].flowId))
      ensures stream.clock.steady && r.Ok? ==> Still(now) && stream.lastClock == Some(now)
      ensures r.Ok? ==> forall d :: 0 <= d < 2 ==> old(stream.Accounting(entries[d])) == stream.Accounting(entries[d])
      ensures stream.clock.steady ==>
                (r.Ok? <==>
                   && stream.epoch == epoch && old(stream.available) && stream.receiverTimeout.Some? && stream.receiverAt.Some?
                   && Believable(stream.clock.time, old(stream.lastClock)) && stream.clock.time - stream.receiverAt.value < stream.receiverTimeout.value
                   && forall d :: 0 <= d < 2 ==> old(stream.Accounting(entries[d])).Ok?)
    {
      hide Sum, Books, Settled, Told, Grown, Tracked;
      now := 0.0;
      if stream.epoch != epoch {
        return Error, now;
      }
      var checked := stream.CheckReceiver();
      if checked.IsFailure() {
        return Error, now;
      }
      var flows := Snapshots();
      if flows.Error? {
        return Error, now;
      }
      var read := stream.Now();
      if read.Error? {
        return Error, now;
      }
      return flows, read.value;
    }

    /** Once the totals are those of the whole history, the agreement with the kernel is conservation. */
    lemma Caught()
      requires |entries| == |previous| == |start| == 2 && Settled(previous, acked)
      requires upto == |stream.history| && forall d :: 0 <= d < 2 ==> start[d] <= upto && previous[d] == Sum(stream.history[start[d]..], entries[d].flowId)
      ensures Conserved(0) && Conserved(1)
      ensures forall d :: 0 <= d < 2 ==> previous[d] == Sum(stream.history[start[d]..upto], entries[d].flowId)
    {
      assert forall d :: 0 <= d < 2 ==> stream.history[start[d]..upto] == stream.history[start[d]..];
    }

    /** One pass of `Sync` before its failure handler.  It either brings the kernel up to date with the whole
        history of the stream, or changes nothing but, possibly, one unacknowledged update. */
    method Attempt() returns (r: Result<bool>)
      requires Valid() && !failed
      modifies this`previous, this`sequence, this`acked, this`upto, lease`log, stream`lastClock, stream`available, stream.clock`shown
      ensures Ledger() && (r.Ok? ==> Valid() && upto == |stream.history| && Conserved(0) && Conserved(1))
      ensures old(acked) <= acked && old(upto) <= upto && (r.Error? ==> acked == old(acked) && upto == old(upto))
      ensures r == Ok(false) ==> acked == old(acked) && forall d :: 0 <= d < 2 ==> Sum(stream.history[old(upto)..], entries[d].flowId) == Zero
      ensures r == Ok(true) ==> exists u :: acked == old(acked) + [u] && Reports(u, old(upto)) && u.number == old(sequence) + 1 && !Nothing(u)
      ensures stream.clock.steady && lease.healthy ==> (r.Ok? <==> old(Readable()))
      ensures r.Ok? ==> Dated(old(previous))
    {
      hide Sum, Books, Summarizes, Settled, Told, Tracked, Readable, ReportDue, TrafficDue;
      var measured := Measure();
      if measured.Error? {
        return Error;
      }
      var (totals, u) := measured.value;
      if Nothing(u) {
        var ok := lease.Check();
        if !ok {
          return Error;
        }
        Rest(totals, u);
        return Ok(false);
      }
      var ok := Deliver(totals, u);
      return if ok then Ok(true) else Error;
    }

    /** Nothing was counted, so the totals already cover the whole history. */
    ghost method Rest(totals: seq<Totals>, u: Update)
      requires Valid() && Measured(totals, u) && u.packets == u.octets == [0, 0] && upto <= |stream.history|
      modifies this`upto
      ensures Valid() && upto == |stream.history| && Conserved(0) && Conserved(1)
      ensures old(upto) <= |stream.history| && |entries| == 2
      ensures forall d :: 0 <= d < 2 ==> Sum(stream.history[old(upto)..], entries[d].flowId) == Zero
    {
      hide Sum, Books, Summarizes, Settled, Told;
      Idle(u, totals[0], previous[0], 0, Sum(stream.history[upto..], entries[0].flowId));
      Idle(u, totals[1], previous[1], 1, Sum(stream.history[upto..], entries[1].flowId));
      upto := |stream.history|;
      Caught();
    }

    /** Hands the kernel one update, and never again after a failure. */
    method Deliver(totals: seq<Totals>, u: Update) returns (ok: bool)
      requires Valid() && !failed && Measured(totals, u)
      modifies this`previous, this`sequence, this`acked, this`upto, lease`log
      ensures Ledger()
      ensures ok ==> Valid() && upto == |stream.history| && Conserved(0) && Conserved(1) && acked == old(acked) + [u]
      ensures lease.healthy ==> ok
      ensures !ok ==> acked == old(acked) && upto == old(upto)
    {
      hide Sum, Books, Summarizes, Settled, Told;
      ok := lease.Apply(u);
      ToldMore(prior, acked, u);
      if !ok {
        return;
      }
      SettledMore(previous, acked, totals, u, Sum(stream.history[upto..], entries[0].flowId), Sum(stream.history[upto..], entries[1].flowId));
      sequence, previous := sequence + 1, totals;
      acked, upto := acked + [u], |stream.history|;
      Caught();
    }

    /** Brings the kernel up to date, or fences the session for good. */
    method Sync() returns (r: Result<bool>)
      requires Valid()
      modifies this`previous, this`sequence, this`acked, this`upto, this`failed, this`closed, lease, withdrawal
      modifies stream`lastClock, stream`available, stream.clock`shown, stream`flows, stream`retired, stream`since
      ensures Valid()
      ensures r.Ok? ==> !failed && Conserved(0) && Conserved(1)
      ensures old(acked) <= acked && old(upto) <= upto && (r.Error? ==> failed && acked == old(acked))
      ensures old(failed) ==> r.Error?
      ensures r == Ok(false) ==> acked == old(acked) && forall d :: 0 <= d < 2 ==> Sum(stream.history[old(upto)..], entries[d].flowId) == Zero
      ensures r == Ok(true) ==> exists u :: acked == old(acked) + [u] && Reports(u, old(upto)) && u.number == old(sequence) + 1 && !Nothing(u)
      // nothing stale is told
      ensures r.Ok? ==> Dated(old(previous))
      // with a working kernel and a clock that stands still it succeeds exactly when what there is to tell can be told
      ensures stream.clock.steady && old(lease.healthy) ==> (r.Ok? <==> old(!failed && !closed && Readable()))
    {
      hide Sum, Books, Settled, Told, Follows, Reports, Conserved, Readable, Dated;
      if failed || closed {
        return Error;
      }
      r := Attempt();
      if r.Error? {
        var _ := Fence();
      }
    }
  }

  // ------------------------------------------------------------ whole histories

  /** The next two reserved IDs have never been handed out. */
  lemma ReservedAreNew(issued: seq<int>, a: int, b: int)
    requires StrictlyIncreasing(issued + [a, b])
    ensures a !in issued && b !in issued && a != b
  {
    var all := issued + [a, b];
    assert all[|issued|] == a && all[|issued| + 1] == b;
    assert forall i :: 0 <= i < |issued| ==> all[i] == issued[i];
  }

  ghost predicate Extends<V>(before: map<int, V>, after: map<int, V>) {
    forall id :: id in before ==> id in after && after[id] == before[id]
  }

  /** Only IDs from the durable allocator have ever been registered. */
  ghost predicate Reserved(stream: CounterStream, db: IdJournal)
    reads stream, db
  {
    forall id :: id in stream.owner ==> id in db.issued
  }

  /** Labels both directions with a fresh reservation and starts counting them.  The IDs have never meant anything
      else, so within the budget nothing stands in the way, and a late report cannot be credited to either. */
  method Label(stream: CounterStream, allocator: Allocator, a: Entry, b: Entry) returns (r: Outcome, x: Entry, y: Entry)
    requires stream.Valid() && allocator.db.Valid() && Reserved(stream, allocator.db)
    requires allocator.db.generation.Some? && allocator.db.generation.value.boot == allocator.db.hardwareBoot
    requires 0 < allocator.first && allocator.last < U32 && a.Valid() && b.Valid()
    modifies allocator`failed, allocator.db`counter, allocator.db`generation, allocator.db`omens, allocator.db`issued
    modifies stream`flows, stream`since, stream`owner
    ensures stream.Valid() && allocator.db.Valid() && Reserved(stream, allocator.db) && allocator.db.generation == old(allocator.db.generation)
    ensures Extends(old(stream.owner), stream.owner) && Extends(old(stream.since), stream.since) && Extends(old(stream.flows), stream.flows)
    ensures forall id :: id in old(stream.owner) && id in stream.flows ==> id in old(stream.flows)
    ensures !r.Crashed? && allocator.db.issued != old(allocator.db.issued) && stream.available && |old(stream.flows)| + |stream.retired| + 2 <= stream.maxIds ==> r.Done?
    ensures r.Done? ==>
              && x == a.(flowId := x.flowId) && y == b.(flowId := y.flowId) && x.flowId != y.flowId
              && x.flowId !in old(stream.owner) && y.flowId !in old(stream.owner)
              && stream.Accounting(x) == Ok(Flow(x, Zero, None, None)) && stream.Accounting(y) == Ok(Flow(y, Zero, None, None))
  {
    var i, j;
    ghost var issued := allocator.db.issued;
    r, i, j := allocator.ReservePair();
    x, y := a, b;
    if r.IsFailure() {
      return;
    }
    ReservedAreNew(issued, i, j);
    x, y := a.(flowId := i), b.(flowId := j);
    r := stream.Register(x);
    if r.IsFailure() {
      return;
    }
    r := stream.Register(y);
  }

  /** A direction stays tracked while the stream's history and owners only grow and no retired ID comes back. */
  lemma TrackedOn(
    e: Entry, previous: Totals, start: nat, upto: nat, history: seq<Record>, flows: map<int, Flow>, since: map<int, nat>, owner: map<int, Entry>,
    history': seq<Record>, flows': map<int, Flow>, since': map<int, nat>, owner': map<int, Entry>)
    requires Tracked(e, previous, start, upto, history, flows, since, owner)
    requires history <= history' && Extends(owner, owner') && forall id :: id in flows <==> id in since
    requires forall id :: id in owner && id in flows' && id in since' ==> id in flows && since'[id] == since[id]
    ensures Tracked(e, previous, start, upto, history', flows', since', owner')
  {
    assert history'[start..upto] == history[start..upto];
  }

  /** What other activity leaves alone. */
  twostate predicate Undisturbed(stream: CounterStream)
    reads stream
  {
    && old(stream.history) <= stream.history && Extends(old(stream.owner), stream.owner)
    && forall id :: id in old(stream.owner) && id in stream.flows && id in stream.since ==>
         id in old(stream.flows) && id in old(stream.since) && stream.since[id] == old(stream.since)[id]
  }

  datatype Op = Report(from: string, event: Counters.Event) | Admit(a: Entry, b: Entry) | Retire(id: int) | Stop | Settle | Cut

  method Hear(stream: CounterStream, from: string, event: Counters.Event)
    requires stream.Valid()
    modifies stream, stream.clock`shown
    ensures stream.Valid() && Undisturbed(stream) && stream.owner == old(stream.owner)
  {
    hide Books, Heard, Accepted, AllValid, Sum, Strangers;
    var _ := stream.Consume(from, event);
    Listed(stream);
  }

  method Drop(stream: CounterStream, id: int)
    requires stream.Valid()
    modifies stream
    ensures stream.Valid() && Undisturbed(stream) && stream.owner == old(stream.owner)
  {
    hide Flow.Accounts, AllValid, Sum;
    stream.Forget(id);
  }

  lemma Listed(stream: CounterStream)
    requires stream.Valid()
    ensures forall id :: id in stream.since <==> id in stream.flows
  {
  }

  /** Reports arriving, and other sessions coming and going, on the shared stream. */
  method Observe(stream: CounterStream, allocator: Allocator, op: Op)
    requires stream.Valid() && allocator.db.Valid() && Reserved(stream, allocator.db)
    requires allocator.db.generation.Some? && allocator.db.generation.value.boot == allocator.db.hardwareBoot
    requires 0 < allocator.first && allocator.last < U32
    modifies stream, stream.clock`shown, allocator, allocator.db
    ensures stream.Valid() && allocator.db.Valid() && Reserved(stream, allocator.db)
    ensures allocator.db.generation == old(allocator.db.generation) && allocator.db.hardwareBoot == old(allocator.db.hardwareBoot)
    ensures Undisturbed(stream)
  {
    hide Flow.Accounts, Entry.Valid, AllValid, Sum;
    match op {
      case Report(from, event) =>
        Hear(stream, from, event);
      case Admit(a, b) =>
        if a.Valid() && b.Valid() {
          var _, _, _ := Label(stream, allocator, a, b);
        }
      case Retire(id) =>
        Drop(stream, id);
      case Stop =>
        stream.Finish();
      case _ =>
    }
  }

  /** A session's ledger stands whatever else happens on the stream. */
  twostate lemma StillTracked(session: AccountedSession, new d: nat)
    requires old(session.Ledger()) && d < 2 && |session.entries| == |session.previous| == |session.start| == 2
    requires session.previous == old(session.previous) && session.upto == old(session.upto)
    requires Undisturbed(session.stream)
    ensures session.Follows(d)
  {
    hide Settled, Told, Tracked, Extends, Flow.Accounts, AllValid;
    var stream := session.stream;
    assert old(session.Follows(d));
    TrackedOn(session.entries[d], session.previous[d], session.start[d], session.upto, old(stream.history), old(stream.flows), old(stream.since), old(stream.owner),
              stream.history, stream.flows, stream.since, stream.owner);
  }

  method Bystand(session: AccountedSession, allocator: Allocator, op: Op)
    requires session.Valid() && allocator.db.Valid() && Reserved(session.stream, allocator.db)
    requires allocator.db.generation.Some? && allocator.db.generation.value.boot == allocator.db.hardwareBoot
    requires 0 < allocator.first && allocator.last < U32
    modifies session.stream, session.stream.clock`shown, allocator, allocator.db
    ensures session.Valid() && allocator.db.Valid() && Reserved(session.stream, allocator.db)
    ensures allocator.db.generation == old(allocator.db.generation) && allocator.db.hardwareBoot == old(allocator.db.hardwareBoot)
    ensures old(session.stream.history) <= session.stream.history && Extends(old(session.stream.owner), session.stream.owner)
  {
    hide Settled, Told, Tracked, Extends, Books, AccountedSession.Follows;
    Observe(session.stream, allocator, op);
    StillTracked(session, 0);
    StillTracked(session, 1);
  }

  /** One step of anything the owner may do. */
  method Advance(session: AccountedSession, allocator: Allocator, op: Op)
    requires session.Valid() && allocator.db.Valid() && Reserved(session.stream, allocator.db)
    requires allocator.db.generation.Some? && allocator.db.generation.value.boot == allocator.db.hardwareBoot
    requires 0 < allocator.first && allocator.last < U32
    modifies session, session.stream, session.stream.clock`shown, session.lease, session.withdrawal, allocator, allocator.db
    ensures session.Valid() && allocator.db.Valid() && Reserved(session.stream, allocator.db)
    ensures allocator.db.generation == old(allocator.db.generation) && allocator.db.hardwareBoot == old(allocator.db.hardwareBoot)
    ensures old(session.stream.history) <= session.stream.history && Extends(old(session.stream.owner), session.stream.owner)
    ensures old(session.acked) <= session.acked && old(session.upto) <= session.upto
    ensures old(session.failed) ==> session.failed && session.acked == old(session.acked)
  {
    if op.Settle? {
      hide AccountedSession.Ledger, AccountedSession.Conserved, AccountedSession.Reports, Sum;
      var _ := session.Sync();
    } else if op.Cut? {
      hide AccountedSession.Follows, Settled, Told, Books;
      var _ := session.Fence();
    } else {
      hide AccountedSession.Ledger;
      Bystand(session, allocator, op);
    }
  }

  /** Conservation over every history: however reports, other sessions, failures and settlements interleave, the
      updates acknowledged to this session are exactly the reported deltas up to its last successful settlement. */
  method Run(session: AccountedSession, allocator: Allocator, ops: seq<Op>)
    requires session.Valid() && allocator.db.Valid() && Reserved(session.stream, allocator.db)
    requires allocator.db.generation.Some? && allocator.db.generation.value.boot == allocator.db.hardwareBoot
    requires 0 < allocator.first && allocator.last < U32
    modifies session, session.stream, session.stream.clock`shown, session.lease, session.withdrawal, allocator, allocator.db
    ensures session.Valid() && Reserved(session.stream, allocator.db)
    ensures old(session.stream.history) <= session.stream.history && Extends(old(session.stream.owner), session.stream.owner)
    ensures session.Square()
    ensures Told(session.prior + session.acked, session.lease.log)
  {
    hide AccountedSession.Ledger, AccountedSession.Square, Sum, Delivered, Told, Books, IdJournal.Valid, Reserved;
    for i := 0 to |ops|
      invariant session.Valid() && allocator.db.Valid() && Reserved(session.stream, allocator.db)
      invariant allocator.db.generation == old(allocator.db.generation) && allocator.db.hardwareBoot == old(allocator.db.hardwareBoot)
      invariant old(session.stream.history) <= session.stream.history && Extends(old(session.stream.owner), session.stream.owner)
    {
      Advance(session, allocator, ops[i]);
    }
    Upshot(session);
  }

  /** What the ledger says about the acknowledged updates. */
  lemma Upshot(session: AccountedSession)
    requires session.Valid()
    ensures session.Square()
    ensures Told(session.prior + session.acked, session.lease.log)
  {
    hide Sum, Delivered, Told, Books;
  }
}
