/** Idle expiry of installed sessions, driven by activity tokens that are only ever compared. */
module Aging {
  import opened Outcomes
  import opened FlowCodec
  import FlowTable
  import SM = SessionManager
  import Counters

  type Id = SM.SessionId
  type Tokens = (int, int)

  /** The tokens a session showed, and when it was first seen to show them; no tokens while it is unreadable. */
  datatype Mark = Mark(tokens: Option<Tokens>, at: real)

  /** What a sweep decides about one session. */
  datatype Verdict = Unmanaged | Unreadable | Active(tokens: Tokens) | Idle | Ripe

  /** What one sweep read: for every session it looked at, both tokens, or none when either was unreadable. */
  datatype Pass = Pass(now: real, readings: map<Id, Option<Tokens>>)

  class Probe {
    var activity: map<Entry, int>

    constructor ()
      ensures activity == map[]
    {
      activity := map[];
    }
  }

  function Read(activity: map<Entry, int>, s: SM.Session): Option<Tokens> {
    if s.forward in activity && s.backward in activity then Some((activity[s.forward], activity[s.backward])) else None
  }

  function TimeoutFor(timeouts: map<int, real>, s: SM.Session): Option<real> {
    if s.forward.key.protocol in timeouts then Some(timeouts[s.forward.key.protocol]) else None
  }

  /** Whether a sweep looks at the session at all. */
  predicate Aged(timeouts: map<int, real>, s: SM.Session) {
    s.stage.Installed? && TimeoutFor(timeouts, s).Some?
  }

  /** The session's timeout has passed since then. */
  predicate Overdue(timeouts: map<int, real>, s: SM.Session, since: real, now: real) {
    TimeoutFor(timeouts, s).Some? && now - since >= TimeoutFor(timeouts, s).value
  }

  function Judge(timeouts: map<int, real>, activity: map<Entry, int>, s: SM.Session, mark: Option<Mark>, now: real): Verdict {
    if !Aged(timeouts, s) then Unmanaged
    else
      var tokens := Read(activity, s);
      if tokens.None? then Unreadable
      else if mark.None? || mark.value.tokens != tokens then Active(tokens.value)
      else if Overdue(timeouts, s, mark.value.at, now) then Ripe
      else Idle
  }

  /** The sessions whose time has come, in numbers: installed, of a protocol with a timeout, both directions readable, and
      marked with the very tokens they show now, at least that timeout ago. */
  ghost function Due(timeouts: map<int, real>, activity: map<Entry, int>, sessions: SM.Records, before: map<Id, Mark>, now: real): set<Id> {
    set id | && id in sessions && sessions[id].stage.Installed? && sessions[id].forward.key.protocol in timeouts
             && sessions[id].forward in activity && sessions[id].backward in activity
             && id in before && before[id].tokens == Some((activity[sessions[id].forward], activity[sessions[id].backward]))
             && now - before[id].at >= timeouts[sessions[id].forward.key.protocol]
  }

  /** The mark that a sweep leaves on a session it does not expire: kept while the tokens are those of the mark, otherwise new,
      and without tokens while they cannot be read. */
  ghost predicate Remarked(timeouts: map<int, real>, activity: map<Entry, int>, s: SM.Session, before: Option<Mark>, after: Option<Mark>, now: real) {
    if !s.stage.Installed? || s.forward.key.protocol !in timeouts then after == before
    else if s.forward !in activity || s.backward !in activity then after == Some(Mark(None, now))
    else if before.Some? && before.value.tokens == Some((activity[s.forward], activity[s.backward])) then after == before
    else after == Some(Mark(Some((activity[s.forward], activity[s.backward])), now))
  }

  lemma DueIsRipe(timeouts: map<int, real>, activity: map<Entry, int>, sessions: SM.Records, before: map<Id, Mark>, now: real)
    ensures forall id :: id in sessions ==>
              && (Judge(timeouts, activity, sessions[id], Find(before, id), now).Ripe? <==> id in Due(timeouts, activity, sessions, before, now))
              && Remarked(timeouts, activity, sessions[id], Find(before, id),
                          NextMark(Judge(timeouts, activity, sessions[id], Find(before, id), now), Find(before, id), now), now)
  {
  }

  function NextMark(v: Verdict, mark: Option<Mark>, now: real): Option<Mark> {
    match v
    case Unreadable => Some(Mark(None, now))
    case Active(tokens) => Some(Mark(Some(tokens), now))
    case _ => mark
  }

  function Find(seen: map<Id, Mark>, id: Id): Option<Mark> {
    if id in seen then Some(seen[id]) else None
  }

  /** Sweep `k` began a run of equal readings of `id` that no later sweep has broken. */
  ghost predicate Steady(history: seq<Pass>, id: Id, k: nat, mark: Mark) {
    && k < |history| && id in history[k].readings && history[k].now == mark.at && mark.tokens.Some?
    && forall j :: k <= j < |history| && id in history[j].readings ==> history[j].readings[id] == mark.tokens
  }

  ghost predicate Remembered(history: seq<Pass>, began: map<Id, nat>, seen: map<Id, Mark>) {
    forall id :: id in seen && seen[id].tokens.Some? ==> id in began && Steady(history, id, began[id], seen[id])
  }

  /** The last sweep read `id`, some sweep at least `timeout` earlier read the same two tokens, and so did every sweep
      between them that read it at all. */
  ghost predicate Silent(history: seq<Pass>, id: Id, timeout: real) {
    && history != [] && id in history[|history| - 1].readings && history[|history| - 1].readings[id].Some?
    && exists k :: 0 <= k < |history| - 1 && SilentSince(history, id, timeout, k)
  }

  ghost predicate SilentSince(history: seq<Pass>, id: Id, timeout: real, k: nat)
    requires k < |history|
  {
    && id in history[k].readings && history[|history| - 1].now - history[k].now >= timeout
    && forall j :: k <= j < |history| && id in history[j].readings && id in history[|history| - 1].readings ==>
         history[j].readings[id] == history[|history| - 1].readings[id]
  }

  function ReadingsOf(timeouts: map<int, real>, activity: map<Entry, int>, sessions: SM.Records): map<Id, Option<Tokens>> {
    map id | id in sessions && Aged(timeouts, sessions[id]) :: Read(activity, sessions[id])
  }

  /** `seen` after the sweep is what each session's verdict makes of it, and nothing is kept about other IDs. */
  ghost predicate Judged(timeouts: map<int, real>, activity: map<Entry, int>, sessions: SM.Records, before: map<Id, Mark>, after: map<Id, Mark>, now: real) {
    && (forall id :: id in sessions ==> Find(after, id) == NextMark(Judge(timeouts, activity, sessions[id], Find(before, id), now), Find(before, id), now))
    && (forall id :: id in after ==> id in sessions)
  }

  ghost function Beginnings(timeouts: map<int, real>, activity: map<Entry, int>, sessions: SM.Records, before: map<Id, Mark>, began: map<Id, nat>, now: real, n: nat): map<Id, nat> {
    map id | id in sessions || id in began ::
      if id in sessions && Judge(timeouts, activity, sessions[id], Find(before, id), now).Active? then n else if id in began then began[id] else n
  }

  lemma RememberedNext(
    timeouts: map<int, real>, activity: map<Entry, int>, sessions: SM.Records,
    history: seq<Pass>, began: map<Id, nat>, before: map<Id, Mark>, after: map<Id, Mark>, now: real)
    requires Remembered(history, began, before) && Judged(timeouts, activity, sessions, before, after, now)
    ensures Remembered(history + [Pass(now, ReadingsOf(timeouts, activity, sessions))],
                       Beginnings(timeouts, activity, sessions, before, began, now, |history|), after)
  {
    var pass := Pass(now, ReadingsOf(timeouts, activity, sessions));
    var next := Beginnings(timeouts, activity, sessions, before, began, now, |history|);
    forall id | id in after && after[id].tokens.Some?
      ensures id in next && Steady(history + [pass], id, next[id], after[id])
    {
      assert id in sessions && Find(after, id) == Some(after[id]);
      var v := Judge(timeouts, activity, sessions[id], Find(before, id), now);
      if !v.Active? {
        assert before[id] == after[id] && Steady(history, id, began[id], before[id]);
      }
    }
  }

  /** A ripe session has been silent for its timeout. */
  lemma RipeIsSilent(
    timeouts: map<int, real>, activity: map<Entry, int>, sessions: SM.Records,
    history: seq<Pass>, began: map<Id, nat>, before: map<Id, Mark>, now: real, id: Id)
    requires Remembered(history, began, before) && id in sessions
    requires Judge(timeouts, activity, sessions[id], Find(before, id), now).Ripe?
    ensures Aged(timeouts, sessions[id])
    ensures Silent(history + [Pass(now, ReadingsOf(timeouts, activity, sessions))], id, TimeoutFor(timeouts, sessions[id]).value)
  {
    var h := history + [Pass(now, ReadingsOf(timeouts, activity, sessions))];
    var k := began[id];
    assert Steady(history, id, k, before[id]);
    assert h[|h| - 1].readings[id] == before[id].tokens;
    assert h[k] == history[k];
    assert SilentSince(h, id, TimeoutFor(timeouts, sessions[id]).value, k);
  }

  /** How many sessions a sweep found in each state that it leaves alone. */
  datatype Tally = Tally(active: nat, idle: nat, unreadable: nat) {
    function Plus(v: Verdict): Tally {
      match v
      case Active(_) => this.(active := active + 1)
      case Idle => this.(idle := idle + 1)
      case Unreadable => this.(unreadable := unreadable + 1)
      case _ => this
    }
  }

  datatype Report = Report(expired: seq<Id>, failed: Option<Id>, deferred: nat, tally: Tally, skipped: bool)

  ghost function Verdicts(timeouts: map<int, real>, activity: map<Entry, int>, sessions: SM.Records, before: map<Id, Mark>, now: real): map<Id, Verdict> {
    map id | id in sessions :: Judge(timeouts, activity, sessions[id], Find(before, id), now)
  }

  lemma VerdictsAre(timeouts: map<int, real>, activity: map<Entry, int>, sessions: SM.Records, before: map<Id, Mark>, now: real, verdicts: map<Id, Verdict>)
    requires verdicts.Keys == sessions.Keys
    requires forall id :: id in verdicts ==> verdicts[id] == Judge(timeouts, activity, sessions[id], Find(before, id), now)
    ensures verdicts == Verdicts(timeouts, activity, sessions, before, now)
  {
    hide Judge;
  }

  ghost function ActiveIn(verdicts: map<Id, Verdict>): set<Id> {
    set id | id in verdicts && verdicts[id].Active?
  }

  ghost function IdleIn(verdicts: map<Id, Verdict>): set<Id> {
    set id | id in verdicts && verdicts[id].Idle?
  }

  ghost function UnreadableIn(verdicts: map<Id, Verdict>): set<Id> {
    set id | id in verdicts && verdicts[id].Unreadable?
  }

  ghost predicate Tallied(verdicts: map<Id, Verdict>, tally: Tally) {
    tally == Tally(|ActiveIn(verdicts)|, |IdleIn(verdicts)|, |UnreadableIn(verdicts)|)
  }

  lemma TallyNext(verdicts: map<Id, Verdict>, tally: Tally, id: Id, v: Verdict)
    requires Tallied(verdicts, tally) && id !in verdicts
    ensures Tallied(verdicts[id := v], tally.Plus(v))
  {
    GrownBy(verdicts, id, v);
    assert id !in ActiveIn(verdicts) && id !in IdleIn(verdicts) && id !in UnreadableIn(verdicts);
    hide ActiveIn, IdleIn, UnreadableIn;
  }

  lemma GrownBy(verdicts: map<Id, Verdict>, id: Id, v: Verdict)
    requires id !in verdicts
    ensures ActiveIn(verdicts[id := v]) == ActiveIn(verdicts) + if v.Active? then {id} else {}
    ensures IdleIn(verdicts[id := v]) == IdleIn(verdicts) + if v.Idle? then {id} else {}
    ensures UnreadableIn(verdicts[id := v]) == UnreadableIn(verdicts) + if v.Unreadable? then {id} else {}
  {
  }

  lemma NothingTallied()
    ensures Tallied(map[], Tally(0, 0, 0))
  {
    assert ActiveIn(map[]) == {} && IdleIn(map[]) == {} && UnreadableIn(map[]) == {};
  }

  predicate Ascending(ids: seq<Id>) {
    forall i, j :: 0 <= i < j < |ids| ==> ids[i] < ids[j]
  }

  class SessionAging {
    const manager: SM.Manager
    const probe: Probe
    const timeouts: map<int, real>
    const maxRemovals: nat
    var seen: map<Id, Mark>
    ghost var history: seq<Pass>
    ghost var began: map<Id, nat>

    ghost predicate Remembers()
      reads this
    {
      maxRemovals >= 1 && Remembered(history, began, seen)
    }

    constructor (manager: SM.Manager, probe: Probe, timeouts: map<int, real>, maxRemovals: nat)
      requires maxRemovals >= 1
      ensures Remembers() && this.manager == manager && this.probe == probe && this.timeouts == timeouts && this.maxRemovals == maxRemovals
      ensures seen == map[] && history == []
    {
      this.manager, this.probe, this.timeouts, this.maxRemovals := manager, probe, timeouts, maxRemovals;
      seen, history, began := map[], [], map[];
    }

    ghost function Decided(id: Id, before: map<Id, Mark>, now: real): Verdict
      requires id in manager.sessions
      reads this, manager, probe
    {
      Judge(timeouts, probe.activity, manager.sessions[id], Find(before, id), now)
    }

    /** Reads every session's tokens and decides; only the marks change. */
    method Examine(now: real) returns (ripe: set<Id>, tally: Tally)
      modifies this`seen
      ensures Tallied(Verdicts(timeouts, probe.activity, manager.sessions, old(seen), now), tally)
      ensures Judged(timeouts, probe.activity, manager.sessions, old(seen), seen, now)
      ensures forall id :: id in ripe <==> id in manager.sessions && Decided(id, old(seen), now).Ripe?
    {
      hide Judge, Tallied, Verdicts, Tally.Plus, NextMark;
      ghost var before := seen;
      var sessions := manager.sessions;
      seen := map id | id in seen && id in sessions :: seen[id];
      ripe, tally := {}, Tally(0, 0, 0);
      ghost var verdicts: map<Id, Verdict> := map[];
      NothingTallied();
      var todo := sessions.Keys;
      while todo != {}
        invariant todo <= sessions.Keys
        invariant forall id :: id in seen ==> id in sessions
        invariant forall id :: id in todo ==> Find(seen, id) == Find(before, id)
        invariant forall id :: id in sessions && id !in todo ==> Find(seen, id) == NextMark(Decided(id, before, now), Find(before, id), now)
        invariant forall id :: id in ripe <==> id in sessions && id !in todo && Decided(id, before, now).Ripe?
        invariant Tallied(verdicts, tally) && verdicts.Keys == sessions.Keys - todo
        invariant forall id :: id in verdicts ==> verdicts[id] == Decided(id, before, now)
      {
        var id := Pick(todo);
        todo := todo - {id};
        var verdict := Judge(timeouts, probe.activity, sessions[id], Find(seen, id), now);
        TallyNext(verdicts, tally, id, verdict);
        tally := tally.Plus(verdict);
        verdicts := verdicts[id := verdict];
        Note(id, verdict, now);
        if verdict.Ripe? {
          ripe := ripe + {id};
        }
      }
      VerdictsAre(timeouts, probe.activity, sessions, before, now, verdicts);
    }

    /** Marks one session as its verdict says. */
    method Note(id: Id, verdict: Verdict, now: real)
      modifies this`seen
      ensures Find(seen, id) == NextMark(verdict, Find(old(seen), id), now)
      ensures forall other :: other != id ==> (other in seen <==> other in old(seen)) && Find(seen, other) == Find(old(seen), other)
    {
      match verdict {
        case Unreadable => seen := seen[id := Mark(None, now)];
        case Active(tokens) => seen := seen[id := Mark(Some(tokens), now)];
        case _ =>
      }
    }

    method Classify(now: real) returns (ripe: set<Id>, tally: Tally)
      requires Remembers()
      modifies this`seen, this`history, this`began
      ensures Tallied(Verdicts(timeouts, probe.activity, manager.sessions, old(seen), now), tally)
      ensures Remembers() && Judged(timeouts, probe.activity, manager.sessions, old(seen), seen, now)
      ensures history == old(history) + [Pass(now, ReadingsOf(timeouts, probe.activity, manager.sessions))]
      ensures forall id :: id in ripe <==> id in manager.sessions && Decided(id, old(seen), now).Ripe?
      ensures forall id :: id in ripe ==> Aged(timeouts, manager.sessions[id])
      ensures forall id :: id in ripe ==> Silent(history, id, TimeoutFor(timeouts, manager.sessions[id]).value)
    {
      hide Judge, Judged, Remembered, Silent, ReadingsOf, Beginnings, Tallied, Verdicts;
      ripe, tally := Examine(now);
      var sessions := manager.sessions;
      RememberedNext(timeouts, probe.activity, sessions, history, began, old(seen), seen, now);
      forall id | id in ripe
        ensures Aged(timeouts, sessions[id])
        ensures Silent(history + [Pass(now, ReadingsOf(timeouts, probe.activity, sessions))], id, TimeoutFor(timeouts, sessions[id]).value)
      {
        RipeIsSilent(timeouts, probe.activity, sessions, history, began, old(seen), now, id);
      }
      began := Beginnings(timeouts, probe.activity, sessions, old(seen), began, now, |history|);
      history := history + [Pass(now, ReadingsOf(timeouts, probe.activity, sessions))];
    }

    /** One removal, seen from here. */
    method RemoveOne(id: Id) returns (r: Outcome)
      requires manager.Valid() && id in manager.sessions
      modifies manager`sessions, manager`order, manager`recoveryRequired, manager.journal`rows, manager.journal`doubts, manager.device`table
      ensures if r.Crashed? then manager.Durable() else manager.Valid()
      ensures SM.Shrinks(old(manager.journal.rows), old(manager.device.table), manager.journal.rows, manager.device.table, manager.device.foreign)
      ensures r.Done? ==> manager.sessions == old(manager.sessions) - {id} && manager.recoveryRequired == old(manager.recoveryRequired)
      ensures r.Raised? ==> manager.recoveryRequired && forall other :: other in manager.sessions <==> other in old(manager.sessions)
      ensures r.Done? && SM.Clear(old(manager.sessions), old(manager.device.table)) ==> SM.Clear(manager.sessions, manager.device.table)
      ensures manager.journal.healthy && manager.device.healthy && SM.Clear(old(manager.sessions), old(manager.device.table)) ==> r.Done?
    {
      hide SM.Manager.Valid, SM.Manager.Durable, SM.Free, SM.Vacant, SM.Session.Owns;
      r := manager.Remove(id);
    }

    /** Removes the lowest ripe IDs, as many as the cap allows, and stops at the first failure. */
    method Expire(ripe: set<Id>) returns (expired: seq<Id>, failed: Option<Id>, alive: bool)
      requires manager.Valid() && Remembers() && forall id :: id in ripe ==> id in manager.sessions
      modifies this`seen, manager`sessions, manager`order, manager`recoveryRequired, manager.journal`rows, manager.journal`doubts, manager.device`table
      ensures Remembers() && (if alive then manager.Valid() else manager.Durable())
      ensures Lowest(expired, ripe) && |expired| <= maxRemovals
      ensures alive && failed.None? ==> |expired| == (if |ripe| <= maxRemovals then |ripe| else maxRemovals) && manager.recoveryRequired == old(manager.recoveryRequired)
      ensures alive ==> forall id :: id in manager.sessions <==> id in old(manager.sessions) && id !in expired
      ensures alive && failed.None? ==> forall id :: id in manager.sessions ==> manager.sessions[id] == old(manager.sessions)[id]
      ensures forall id :: Find(seen, id) == if id in expired then None else Find(old(seen), id)
      ensures failed.Some? ==> alive && manager.recoveryRequired
      ensures SM.Shrinks(old(manager.journal.rows), old(manager.device.table), manager.journal.rows, manager.device.table, manager.device.foreign)
      ensures manager.journal.healthy && manager.device.healthy && SM.Clear(old(manager.sessions), old(manager.device.table))
              ==> alive && failed.None? && SM.Clear(manager.sessions, manager.device.table)
    {
      hide SM.Manager.Valid, SM.Manager.Durable, SM.Shrinks, SM.Clear, SM.Free, SM.Session.Owns, SM.AgreeExcept, Remembered, Lowest;
      expired, failed, alive := [], None, true;
      var todo := ripe;
      LowestNone(ripe);
      SM.ShrinksRefl(manager.journal.rows, manager.device.table, manager.device.foreign);
      while todo != {} && |expired| < maxRemovals
        invariant manager.Valid() && Remembers() && |expired| <= maxRemovals
        invariant Lowest(expired, ripe) && (forall id :: id in todo <==> id in ripe && id !in expired) && |todo| + |expired| == |ripe|
        invariant forall id :: id in manager.sessions <==> id in old(manager.sessions) && id !in expired
        invariant forall id :: id in manager.sessions ==> manager.sessions[id] == old(manager.sessions)[id]
        invariant forall id :: Find(seen, id) == if id in expired then None else Find(old(seen), id)
        invariant manager.recoveryRequired == old(manager.recoveryRequired)
        invariant SM.Shrinks(old(manager.journal.rows), old(manager.device.table), manager.journal.rows, manager.device.table, manager.device.foreign)
        invariant SM.Clear(old(manager.sessions), old(manager.device.table)) ==> SM.Clear(manager.sessions, manager.device.table)
      {
        var id := Smallest(todo);
        ghost var rows, table := manager.journal.rows, manager.device.table;
        var r := RemoveOne(id);
        SM.ShrinksCompose(old(manager.journal.rows), old(manager.device.table), rows, table, manager.journal.rows, manager.device.table, manager.device.foreign);
        if r.Crashed? {
          alive := false;
          return;
        }
        if r.Raised? {
          failed := Some(id);
          return;
        }
        RememberedFewer(history, began, seen, id);
        LowestNext(expired, ripe, id);
        seen := seen - {id};
        todo := todo - {id};
        expired := expired + [id];
      }
    }

    /** One expiry pass.  Whatever it expires has been silent, in both directions and by every reading ever taken of it,
        for at least its timeout. */
    method Sweep(now: real) returns (result: Report, alive: bool)
      requires manager.Valid() && Remembers()
      modifies this, manager`sessions, manager`order, manager`recoveryRequired, manager.journal`rows, manager.journal`doubts, manager.device`table
      ensures Remembers() && (if alive then manager.Valid() else manager.Durable())
      ensures result.skipped <==> old(manager.recoveryRequired)
      ensures result.skipped ==> alive && result.expired == [] && history == old(history) && seen == old(seen) && manager.sessions == old(manager.sessions)
      ensures !result.skipped ==> history == old(history) + [Pass(now, ReadingsOf(timeouts, probe.activity, old(manager.sessions)))]
      ensures forall id :: id in result.expired ==>
                && id in old(manager.sessions) && Aged(timeouts, old(manager.sessions)[id])
                && Silent(history, id, TimeoutFor(timeouts, old(manager.sessions)[id]).value)
      ensures |result.expired| <= maxRemovals && Ascending(result.expired)
      ensures !result.skipped ==> Tallied(Verdicts(timeouts, probe.activity, old(manager.sessions), old(seen), now), result.tally)
      ensures alive ==> forall id :: id in manager.sessions <==> id in old(manager.sessions) && id !in result.expired
      ensures alive && !result.skipped && result.failed.None? ==>
                && Lowest(result.expired, old(RipeAt(now))) && |old(RipeAt(now))| == |result.expired| + result.deferred
                && (result.deferred > 0 ==> |result.expired| == maxRemovals)
                && Aftermath(timeouts, probe.activity, old(manager.sessions), old(seen), manager.sessions, seen, now, result.expired) && !manager.recoveryRequired
      // in numbers: whose time has come goes first, the lowest IDs up to the cap, and the others are marked
      ensures alive && !result.skipped && result.failed.None? ==>
                InNumbers(timeouts, probe.activity, old(manager.sessions), old(seen), manager.sessions, seen, now, result.expired, result.deferred, maxRemovals)
      ensures !old(manager.recoveryRequired) && manager.journal.healthy && manager.device.healthy && SM.Clear(old(manager.sessions), old(manager.device.table))
              ==> alive && result.failed.None? && SM.Clear(manager.sessions, manager.device.table)
    {
      if manager.recoveryRequired {
        return Report([], None, 0, Tally(0, 0, 0), true), true;
      }
      ghost var due := RipeAt(now);
      hide SM.Manager.Valid, SM.Manager.Durable, SM.Shrinks, SM.Clear, Remembered, Lowest, Silent, ReadingsOf, Judge, Ascending, Judged, Aftermath, Tallied,
        Verdicts, InNumbers;
      var ripe, tally := Classify(now);
      assert ripe == due;
      ghost var judged := seen;
      var expired, failed;
      expired, failed, alive := Expire(ripe);
      LowestWithin(expired, ripe);
      if alive && failed.None? {
        JudgedThenExpired(timeouts, probe.activity, old(manager.sessions), old(seen), judged, manager.sessions, seen, now, expired);
        SweptInNumbers(timeouts, probe.activity, old(manager.sessions), old(seen), manager.sessions, seen, now, expired,
                       if |ripe| > maxRemovals then |ripe| - maxRemovals else 0, maxRemovals, ripe);
      }
      result := Report(expired, failed, if |ripe| > maxRemovals then |ripe| - maxRemovals else 0, tally, false);
    }

    /** What a sweep would find ripe now. */
    ghost function RipeAt(now: real): set<Id>
      reads this, manager, probe
    {
      set id | id in manager.sessions && Decided(id, seen, now).Ripe?
    }

    /** One sweep against a backlog removes as much of it as the cap allows, and nothing else. */
    method DrainOnce(now: real, next: real, last: real, ghost left: set<Id>) returns (ghost remaining: set<Id>)
      requires manager.Valid() && Remembers() && !manager.recoveryRequired
      requires manager.journal.healthy && manager.device.healthy && SM.Clear(manager.sessions, manager.device.table)
      requires now <= next <= last && Backlog(timeouts, probe.activity, manager.sessions, seen, left, now, last)
      modifies this, manager`sessions, manager`order, manager`recoveryRequired, manager.journal`rows, manager.journal`doubts, manager.device`table
      ensures manager.Valid() && Remembers() && !manager.recoveryRequired && SM.Clear(manager.sessions, manager.device.table)
      ensures remaining <= left && |remaining| == if |left| <= maxRemovals then 0 else |left| - maxRemovals
      ensures forall id :: id in manager.sessions <==> id in old(manager.sessions) && (id in left ==> id in remaining)
      ensures Backlog(timeouts, probe.activity, manager.sessions, seen, remaining, next, last)
    {
      hide SM.Manager.Valid, SM.Manager.Durable, SM.Clear, Remembered, Lowest, Silent, ReadingsOf, Judge, Ascending, Judged, Aftermath, Backlog, Aged, TimeoutFor;
      ghost var sessions, before := manager.sessions, seen;
      RipeIsBacklog(left, now, last);
      var result, alive := Sweep(now);
      LowestWithin(result.expired, left);
      AscendingCount(result.expired, left);
      BacklogNext(timeouts, probe.activity, sessions, before, left, now, next, last, manager.sessions, seen, result.expired);
      remaining := left - (set id | id in result.expired);
    }

    /** With constant tokens and working removals, a backlog of k sessions is gone after ceil(k / cap) sweeps. */
    method Drain(clocks: seq<real>, ghost backlog: set<Id>)
      requires manager.Valid() && Remembers() && !manager.recoveryRequired
      requires manager.journal.healthy && manager.device.healthy && SM.Clear(manager.sessions, manager.device.table)
      requires clocks != [] && forall i, j :: 0 <= i < j < |clocks| ==> clocks[i] <= clocks[j]
      requires Backlog(timeouts, probe.activity, manager.sessions, seen, backlog, clocks[0], clocks[|clocks| - 1])
      modifies this, manager`sessions, manager`order, manager`recoveryRequired, manager.journal`rows, manager.journal`doubts, manager.device`table
      ensures manager.Valid() && !manager.recoveryRequired
      ensures forall id :: id in old(manager.sessions) && id !in backlog ==> id in manager.sessions
      ensures |set id | id in backlog && id in manager.sessions| == if |backlog| <= |clocks| * maxRemovals then 0 else |backlog| - |clocks| * maxRemovals
    {
      hide SM.Manager.Valid, SM.Clear, Remembered, Backlog;
      ghost var left := backlog;
      var last := clocks[|clocks| - 1];
      WithinSessions(timeouts, probe.activity, manager.sessions, seen, backlog, clocks[0], last);
      for i := 0 to |clocks|
        invariant manager.Valid() && Remembers() && !manager.recoveryRequired && SM.Clear(manager.sessions, manager.device.table)
        invariant |left| == if |backlog| <= i * maxRemovals then 0 else |backlog| - i * maxRemovals
        invariant left <= backlog && forall id :: id in manager.sessions <==> id in old(manager.sessions) && (id in backlog ==> id in left)
        invariant Backlog(timeouts, probe.activity, manager.sessions, seen, left, if i < |clocks| then clocks[i] else last, last)
      {
        left := DrainOnce(clocks[i], if i + 1 < |clocks| then clocks[i + 1] else last, last, left);
        Product(i, maxRemovals);
      }
      assert left == set id | id in backlog && id in manager.sessions;
    }

    /** Whatever the other sessions do, a ripe session whose tokens stay as they are is expired once the cap has been used up
        on those whose IDs are no higher: it waits behind no more than they are. */
    method Outlast(clocks: seq<real>, readouts: seq<map<Entry, int>>, id: Id)
      requires manager.Valid() && Remembers() && !manager.recoveryRequired && id in manager.sessions
      requires manager.journal.healthy && manager.device.healthy && SM.Clear(manager.sessions, manager.device.table)
      requires clocks != [] && |readouts| == |clocks| && forall i, j :: 0 <= i < j < |clocks| ==> clocks[i] <= clocks[j]
      requires Judge(timeouts, readouts[0], manager.sessions[id], Find(seen, id), clocks[0]).Ripe?
      requires forall i :: 0 <= i < |readouts| ==> Read(readouts[i], manager.sessions[id]) == Read(readouts[0], manager.sessions[id])
      requires |UpTo(id, manager.sessions)| <= |clocks| * maxRemovals
      modifies this, probe`activity, manager`sessions, manager`order, manager`recoveryRequired, manager.journal`rows, manager.journal`doubts, manager.device`table
      ensures manager.Valid() && !manager.recoveryRequired && id !in manager.sessions
    {
      hide SM.Manager.Valid, SM.Clear, Remembered, Judge, UpTo, Read;
      ghost var s, n := manager.sessions[id], |UpTo(id, manager.sessions)|;
      for i := 0 to |clocks|
        invariant manager.Valid() && Remembers() && !manager.recoveryRequired && SM.Clear(manager.sessions, manager.device.table)
        invariant id in manager.sessions ==>
                    && manager.sessions[id] == s && |UpTo(id, manager.sessions)| + i * maxRemovals <= n
                    && (i < |clocks| ==> Judge(timeouts, readouts[i], s, Find(seen, id), clocks[i]).Ripe?)
      {
        probe.activity := readouts[i];
        ghost var mark := Find(seen, id);
        OutlastOnce(clocks[i], id);
        if id in manager.sessions && i + 1 < |clocks| {
          StaysRipe(timeouts, readouts[i], readouts[i + 1], s, mark, clocks[i], clocks[i + 1]);
        }
        Product(i, maxRemovals);
      }
      if id in manager.sessions {
        ItselfUpTo(id, manager.sessions);
      }
    }

    /** A sweep that does not reach a ripe session has used up its cap on lower IDs. */
    method OutlastOnce(now: real, id: Id)
      requires manager.Valid() && Remembers() && !manager.recoveryRequired
      requires manager.journal.healthy && manager.device.healthy && SM.Clear(manager.sessions, manager.device.table)
      requires id in manager.sessions ==> Decided(id, seen, now).Ripe?
      modifies this, manager`sessions, manager`order, manager`recoveryRequired, manager.journal`rows, manager.journal`doubts, manager.device`table
      ensures manager.Valid() && Remembers() && !manager.recoveryRequired && SM.Clear(manager.sessions, manager.device.table)
      ensures id in manager.sessions ==>
                && id in old(manager.sessions) && manager.sessions[id] == old(manager.sessions)[id] && Find(seen, id) == Find(old(seen), id)
                && |UpTo(id, manager.sessions)| + maxRemovals <= |UpTo(id, old(manager.sessions))|
    {
      hide SM.Manager.Valid, SM.Clear, Remembered, Lowest, Silent, ReadingsOf, Judge, Ascending, UpTo, Tallied, Verdicts, Aftermath;
      ghost var sessions, before, due := manager.sessions, seen, RipeAt(now);
      var result, alive := Sweep(now);
      if id in manager.sessions {
        Passed(timeouts, probe.activity, sessions, before, manager.sessions, seen, now, result.expired, id);
        LowestWithin(result.expired, due);
        if |due| == |result.expired| {
          NoneLeft(result.expired, due);
          assert false;
        }
        FewerUpTo(id, sessions, manager.sessions, result.expired, due);
      }
    }

    /** Calls work, the cap is no obstacle, and a sweep at this time would see the session's tokens for the first time. */
    ghost predicate Awaits(id: Id, seenAt: real)
      reads this, probe, manager, manager.journal, manager.device
    {
      && !manager.recoveryRequired && manager.journal.healthy && manager.device.healthy && manager.device.ready && manager.device.natQualified
      && Untaken(manager.sessions, manager.device.foreign) && |manager.sessions| <= maxRemovals
      && id in manager.sessions && Decided(id, seen, seenAt).Active?
    }

    /** This session can be installed once the one that has its ID is gone, and will be aged. */
    ghost predicate Succeeds(id: Id, later: SM.Session, zones: seq<int>)
      reads this, manager, manager.device
    {
      && later.stage.Installed? && SM.Acceptable([later.forward, later.backward], Some(zones)) && SM.Free(later, manager.device.foreign)
      && (forall other :: other in manager.sessions && other != id ==> SM.Apart(later, manager.sessions[other]))
      && Aged(timeouts, later)
    }

    /** The sweep that marks the tokens. */
    method FirstLook(id: Id, seenAt: real)
      requires manager.Valid() && Remembers() && Awaits(id, seenAt)
      modifies this, manager`sessions, manager`order, manager`recoveryRequired, manager.journal`rows, manager.journal`doubts, manager.device`table
      ensures manager.Valid() && Remembers() && !manager.recoveryRequired && Untaken(manager.sessions, manager.device.foreign)
      ensures id in manager.sessions && Find(seen, id) == Some(Mark(old(TokensOf(id)), seenAt))
      ensures manager.sessions.Keys <= old(manager.sessions).Keys && |manager.sessions| <= maxRemovals
      ensures forall other :: other in manager.sessions ==> manager.sessions[other] == old(manager.sessions)[other]
    {
      hide SM.Manager.Valid, SM.Clear, Remembered, Silent, ReadingsOf, Lowest, Ascending, Tallied, Verdicts, SM.Free;
      UntakenIsClear(manager);
      ghost var sessions, before, due := manager.sessions, seen, RipeAt(seenAt);
      var report, alive := Sweep(seenAt);
      LowestWithin(report.expired, due);
      FewerRecords(sessions, manager.sessions);
    }

    predicate Has(id: Id, s: SM.Session)
      reads manager
    {
      id in manager.sessions && manager.sessions[id] == s
    }

    /** The tokens that the session under an ID shows now. */
    function TokensOf(id: Id): Option<Tokens>
      reads manager, probe
    {
      if id in manager.sessions then Read(probe.activity, manager.sessions[id]) else None
    }

    /** Calls work, the cap is no obstacle, and the ID carries a mark that is not the session's own. */
    ghost predicate Marked(id: Id, later: SM.Session, tokens: Option<Tokens>, seenAt: real)
      reads this, manager, manager.journal, manager.device
    {
      && !manager.recoveryRequired && manager.journal.healthy && manager.device.healthy
      && Untaken(manager.sessions, manager.device.foreign) && |manager.sessions| <= maxRemovals
      && id in manager.sessions && manager.sessions[id] == later && Aged(timeouts, later)
      && tokens.Some? && Find(seen, id) == Some(Mark(tokens, seenAt))
    }

    /** The sweep that finds another session under the ID. */
    method LastLook(id: Id, later: SM.Session, ghost tokens: Option<Tokens>, seenAt: real, now: real) returns (report: Report)
      requires Marked(id, later, tokens, seenAt) && manager.Valid() && Remembers()
      modifies this, manager`sessions, manager`order, manager`recoveryRequired, manager.journal`rows, manager.journal`doubts, manager.device`table
      ensures id in report.expired <==> Read(probe.activity, later) == tokens && Overdue(timeouts, later, seenAt, now)
      ensures id !in report.expired ==> Has(id, later)
    {
      hide SM.Manager.Valid, SM.Clear, Remembered, Silent, ReadingsOf, Lowest, Ascending, Tallied, Verdicts, SM.Free, Untaken;
      UntakenIsClear(manager);
      ghost var sessions, due := manager.sessions, RipeAt(now);
      var alive;
      report, alive := Sweep(now);
      LowestWithin(report.expired, due);
      WithinCap(due, sessions);
      NoneLeft(report.expired, due);
    }

    lemma RipeIsBacklog(left: set<Id>, now: real, last: real)
      requires now <= last && Backlog(timeouts, probe.activity, manager.sessions, seen, left, now, last)
      ensures RipeAt(now) == left
    {
    }
  }

  /** Sessions and marks after an undisturbed sweep at `now` that expired `gone`. */
  ghost predicate Aftermath(
    timeouts: map<int, real>, activity: map<Entry, int>, sessions: SM.Records, before: map<Id, Mark>,
    left: SM.Records, after: map<Id, Mark>, now: real, gone: seq<Id>)
  {
    && (forall id :: id in left <==> id in sessions && id !in gone)
    && (forall id :: id in left ==>
          && left[id] == sessions[id]
          && Find(after, id) == NextMark(Judge(timeouts, activity, sessions[id], Find(before, id), now), Find(before, id), now))
  }

  lemma FewerRecords(sessions: SM.Records, left: SM.Records)
    requires forall id :: id in left ==> id in sessions
    ensures left.Keys <= sessions.Keys && |left| <= |sessions|
  {
    Fewer(left.Keys, sessions.Keys);
    assert |left.Keys| == |left| && |sessions.Keys| == |sessions|;
  }

  lemma WithinCap(due: set<Id>, sessions: SM.Records)
    requires forall id :: id in due ==> id in sessions
    ensures |due| <= |sessions|
  {
    Fewer(due, sessions.Keys);
    assert |sessions.Keys| == |sessions|;
  }

  lemma {:induction false} Fewer(some: set<Id>, all: set<Id>)
    requires some <= all
    ensures |some| <= |all|
    decreases |some|
  {
    if some == {} {
    } else {
      var id :| id in some;
      Fewer(some - {id}, all - {id});
    }
  }

  /** The sessions whose IDs are no higher. */
  ghost function UpTo(id: Id, sessions: SM.Records): set<Id> {
    set other | other in sessions && other <= id
  }

  lemma ItselfUpTo(id: Id, sessions: SM.Records)
    requires id in sessions
    ensures |UpTo(id, sessions)| >= 1
  {
    assert id in UpTo(id, sessions);
  }

  lemma StaysRipe(timeouts: map<int, real>, read: map<Entry, int>, read': map<Entry, int>, s: SM.Session, mark: Option<Mark>, now: real, next: real)
    requires Judge(timeouts, read, s, mark, now).Ripe? && Read(read', s) == Read(read, s) && now <= next
    ensures Judge(timeouts, read', s, mark, next).Ripe?
  {
  }

  /** A ripe session that a sweep leaves in place keeps its mark. */
  lemma Passed(
    timeouts: map<int, real>, activity: map<Entry, int>, sessions: SM.Records, before: map<Id, Mark>,
    left: SM.Records, after: map<Id, Mark>, now: real, gone: seq<Id>, id: Id)
    requires Aftermath(timeouts, activity, sessions, before, left, after, now, gone) && id in left
    requires id in sessions ==> Judge(timeouts, activity, sessions[id], Find(before, id), now).Ripe?
    ensures id in sessions && left[id] == sessions[id] && Find(after, id) == Find(before, id) && id !in gone
    ensures forall other :: other in left <==> other in sessions && other !in gone
  {
  }

  lemma NoneLeft(ids: seq<Id>, all: set<Id>)
    requires Ascending(ids) && (forall id :: id in ids ==> id in all) && |all| == |ids|
    ensures forall id :: id in all ==> id in ids
  {
    AscendingCount(ids, all);
    assert all - (set id | id in ids) == {};
  }

  lemma FewerUpTo(id: Id, sessions: SM.Records, left: SM.Records, gone: seq<Id>, due: set<Id>)
    requires Lowest(gone, due) && id in due && id !in gone && forall other :: other in due ==> other in sessions
    requires forall other :: other in left <==> other in sessions && other !in gone
    ensures |UpTo(id, left)| + |gone| == |UpTo(id, sessions)|
  {
    AscendingCount(gone, UpTo(id, sessions));
    assert UpTo(id, left) == UpTo(id, sessions) - (set other | other in gone);
  }

  /** What a sweep did, in numbers: those whose time had come went first, the lowest IDs up to the cap, and the others are as
      they were and marked. */
  ghost predicate InNumbers(timeouts: map<int, real>, activity: map<Entry, int>, sessions: SM.Records, before: map<Id, Mark>,
                            left: SM.Records, after: map<Id, Mark>, now: real, expired: seq<Id>, deferred: nat, cap: nat)
  {
    var due := Due(timeouts, activity, sessions, before, now);
    && Lowest(expired, due) && |due| == |expired| + deferred && |expired| <= cap && (deferred > 0 ==> |expired| == cap)
    && (forall id :: id in left <==> id in sessions && id !in expired)
    && forall id :: id in left ==> left[id] == sessions[id] && Remarked(timeouts, activity, left[id], Find(before, id), Find(after, id), now)
  }

  lemma SweptInNumbers(timeouts: map<int, real>, activity: map<Entry, int>, sessions: SM.Records, before: map<Id, Mark>,
                       left: SM.Records, after: map<Id, Mark>, now: real, expired: seq<Id>, deferred: nat, cap: nat, ripe: set<Id>)
    requires Aftermath(timeouts, activity, sessions, before, left, after, now, expired)
    requires forall id :: id in ripe <==> id in sessions && Judge(timeouts, activity, sessions[id], Find(before, id), now).Ripe?
    requires Lowest(expired, ripe) && |ripe| == |expired| + deferred && |expired| <= cap && (deferred > 0 ==> |expired| == cap)
    ensures InNumbers(timeouts, activity, sessions, before, left, after, now, expired, deferred, cap)
  {
    hide Judge, Lowest, Remarked, NextMark;
    DueIsRipe(timeouts, activity, sessions, before, now);
    assert ripe == Due(timeouts, activity, sessions, before, now);
  }

  lemma JudgedThenExpired(
    timeouts: map<int, real>, activity: map<Entry, int>, sessions: SM.Records, before: map<Id, Mark>, judged: map<Id, Mark>,
    left: SM.Records, after: map<Id, Mark>, now: real, gone: seq<Id>)
    requires Judged(timeouts, activity, sessions, before, judged, now)
    requires forall id :: Find(after, id) == if id in gone then None else Find(judged, id)
    requires forall id :: id in left <==> id in sessions && id !in gone
    requires forall id :: id in left ==> left[id] == sessions[id]
    ensures Aftermath(timeouts, activity, sessions, before, left, after, now, gone)
  {
  }

  /** A session that no sweep from `first` to `last` will find ripe while its tokens stay as they are. */
  ghost predicate Quiet(timeouts: map<int, real>, activity: map<Entry, int>, s: SM.Session, mark: Option<Mark>, first: real, last: real) {
    Aged(timeouts, s) && Read(activity, s).Some? ==>
      var since := if mark.Some? && mark.value.tokens == Read(activity, s) then mark.value.at else first;
      last - since < TimeoutFor(timeouts, s).value
  }

  /** The sessions of `due` are ripe at `first`, and no other becomes so by `last`. */
  ghost predicate Backlog(timeouts: map<int, real>, activity: map<Entry, int>, sessions: SM.Records, seen: map<Id, Mark>, due: set<Id>, first: real, last: real) {
    && (forall id :: id in due ==> id in sessions && Judge(timeouts, activity, sessions[id], Find(seen, id), first).Ripe?)
    && (forall id :: id in sessions && id !in due ==> Quiet(timeouts, activity, sessions[id], Find(seen, id), first, last))
  }

  lemma WithinSessions(timeouts: map<int, real>, activity: map<Entry, int>, sessions: SM.Records, seen: map<Id, Mark>, due: set<Id>, first: real, last: real)
    requires Backlog(timeouts, activity, sessions, seen, due, first, last)
    ensures forall id :: id in due ==> id in sessions
  {
  }

  lemma BacklogNext(
    timeouts: map<int, real>, activity: map<Entry, int>, sessions: SM.Records, seen: map<Id, Mark>, due: set<Id>, now: real, next: real, last: real,
    left: SM.Records, after: map<Id, Mark>, gone: seq<Id>)
    requires now <= next <= last && Backlog(timeouts, activity, sessions, seen, due, now, last)
    requires Aftermath(timeouts, activity, sessions, seen, left, after, now, gone) && forall id :: id in gone ==> id in due
    ensures Backlog(timeouts, activity, left, after, due - (set id | id in gone), next, last)
  {
  }

  lemma {:induction false} AscendingCount(ids: seq<Id>, all: set<Id>)
    requires Ascending(ids) && forall id :: id in ids ==> id in all
    ensures |all - (set id | id in ids)| == |all| - |ids|
    decreases |ids|
  {
    if ids == [] {
      assert all - (set id | id in ids) == all;
    } else {
      var n := |ids| - 1;
      assert forall id :: id in ids <==> id in ids[..n] || id == ids[n];
      AscendingCount(ids[..n], all);
      var rest := all - (set id | id in ids[..n]);
      assert ids[n] in rest;
      assert all - (set id | id in ids) == rest - {ids[n]};
    }
  }

  lemma Product(i: int, cap: int)
    ensures (i + 1) * cap == i * cap + cap
  {
  }

  /** `ids` are the lowest members of `all`, in order. */
  ghost predicate Lowest(ids: seq<Id>, all: set<Id>) {
    && Ascending(ids) && (forall id :: id in ids ==> id in all)
    && forall x, y :: x in ids && y in all && y !in ids ==> x < y
  }

  lemma LowestNone(all: set<Id>)
    ensures Lowest([], all)
  {
  }

  lemma LowestWithin(ids: seq<Id>, all: set<Id>)
    requires Lowest(ids, all)
    ensures Ascending(ids) && forall id :: id in ids ==> id in all
  {
  }

  lemma LowestNext(ids: seq<Id>, all: set<Id>, x: Id)
    requires Lowest(ids, all) && x in all && x !in ids && forall y :: y in all && y !in ids ==> x <= y
    ensures Lowest(ids + [x], all)
  {
    assert forall y :: y in ids + [x] <==> y in ids || y == x;
    forall i | 0 <= i < |ids|
      ensures ids[i] < x
    {
      assert ids[i] in ids;
    }
  }

  lemma RememberedFewer(history: seq<Pass>, began: map<Id, nat>, seen: map<Id, Mark>, id: Id)
    requires Remembered(history, began, seen)
    ensures Remembered(history, began, seen - {id})
  {
  }

  method Smallest(s: set<Id>) returns (x: Id)
    requires s != {}
    ensures x in s && forall y :: y in s ==> x <= y
  {
    x := Pick(s);
    var todo := s - {x};
    while todo != {}
      invariant todo <= s && x in s && forall y :: y in s && y !in todo ==> x <= y
    {
      var y := Pick(todo);
      todo := todo - {y};
      if y < x {
        x := y;
      }
    }
  }

  // ------------------------------------------------- two limits of the design

  /** Both directions are readable and show these tokens, a timeout after they were marked. */
  predicate StillSilent(timeouts: map<int, real>, read: map<Entry, int>, s: SM.Session, tokens: Option<Tokens>, since: real, now: real) {
    && tokens.Some? && s.forward in read && s.backward in read && (read[s.forward], read[s.backward]) == tokens.value
    && s.forward.key.protocol in timeouts && now - since >= timeouts[s.forward.key.protocol]
  }

  lemma StillSilentIs(timeouts: map<int, real>, read: map<Entry, int>, s: SM.Session, tokens: Option<Tokens>, since: real, now: real)
    requires tokens.Some?
    ensures StillSilent(timeouts, read, s, tokens, since, now) <==> Read(read, s) == tokens && Overdue(timeouts, s, since, now)
  {
  }

  /** Nobody else stands under a recorded key. */
  ghost predicate Untaken(sessions: SM.Records, foreign: SM.Table) {
    forall id :: id in sessions ==> SM.Free(sessions[id], foreign)
  }

  lemma UntakenIsClear(m: SM.Manager)
    requires m.Valid() && !m.recoveryRequired && Untaken(m.sessions, m.device.foreign)
    ensures SM.Clear(m.sessions, m.device.table)
  {
    hide SM.Consistent, SM.Suspected, SM.Settled, SM.Listed, SM.Clear, Untaken;
    SettledIsClear(m.sessions, m.journal.rows, m.device.table, m.device.foreign);
  }

  lemma SettledIsClear(sessions: SM.Records, rows: SM.Records, table: SM.Table, foreign: SM.Table)
    requires SM.Settled(sessions, rows, table, foreign) && Untaken(sessions, foreign)
    ensures SM.Clear(sessions, table)
  {
  }

  /** Keys that no session uses and that are not foreign are not in the table. */
  lemma UnusedIsFree(m: SM.Manager, s: SM.Session)
    requires m.Valid() && SM.Free(s, m.device.foreign) && forall other :: other in m.sessions ==> SM.Apart(s, m.sessions[other])
    ensures SM.Free(s, m.device.table)
  {
    hide SM.Settled, SM.Suspected, SM.Listed, FlowTable.IsVariant;
  }

  /** Removes a session that is in place. */
  method Retire(m: SM.Manager, id: Id)
    requires m.Valid() && !m.recoveryRequired && Untaken(m.sessions, m.device.foreign) && id in m.sessions && m.journal.healthy && m.device.healthy
    modifies m`sessions, m`order, m`recoveryRequired, m.journal`rows, m.journal`doubts, m.device`table
    ensures m.Valid() && !m.recoveryRequired && m.sessions == old(m.sessions) - {id}
  {
    hide SM.Manager.Valid, SM.Manager.Durable, SM.Shrinks, SM.AgreeExcept, SM.Session.SameIntent, SM.Session.Owns, SM.OnlyDoubts, SM.Without, SM.Free, Untaken;
    UntakenIsClear(m);
    var r := m.Remove(id);
  }

  /** Installs a session whose keys nobody uses. */
  method Enlist(m: SM.Manager, id: Id, s: SM.Session, zones: seq<int>)
    requires m.Valid() && !m.recoveryRequired && id !in m.sessions && SM.Free(s, m.device.foreign)
    requires m.journal.healthy && m.device.healthy && m.device.ready && m.device.natQualified
    requires s.stage.Installed? && SM.Acceptable([s.forward, s.backward], Some(zones))
    requires forall other :: other in m.sessions ==> SM.Apart(s, m.sessions[other])
    modifies m`sessions, m`order, m`recoveryRequired, m.journal`rows, m.journal`doubts, m.device`table
    ensures m.Valid() && !m.recoveryRequired && m.sessions == old(m.sessions)[id := s]
  {
    hide SM.Manager.Valid, SM.Manager.Durable, SM.InstallEffect, SM.Acceptable, SM.OnlyDoubts, SM.Apart;
    UnusedIsFree(m, s);
    var r := m.Install(id, [s.forward, s.backward], s.revision, Some(zones));
    assert s == SM.Session(s.forward, s.backward, s.revision, SM.Installed);
  }

  /** Outside of sweeps a session is removed and another one, with keys of its own, is installed under the same ID. */
  method Succeed(m: SM.Manager, id: Id, later: SM.Session, zones: seq<int>)
    requires m.Valid() && !m.recoveryRequired && Untaken(m.sessions, m.device.foreign) && id in m.sessions
    requires m.journal.healthy && m.device.healthy && m.device.ready && m.device.natQualified
    requires later.stage.Installed? && SM.Acceptable([later.forward, later.backward], Some(zones)) && SM.Free(later, m.device.foreign)
    requires forall other :: other in m.sessions && other != id ==> SM.Apart(later, m.sessions[other])
    modifies m`sessions, m`order, m`recoveryRequired, m.journal`rows, m.journal`doubts, m.device`table
    ensures m.Valid() && !m.recoveryRequired && m.sessions == old(m.sessions)[id := later] && Untaken(m.sessions, m.device.foreign)
  {
    hide SM.Manager.Valid, SM.Acceptable, SM.Free, SM.Apart;
    Retire(m, id);
    Enlist(m, id, later, zones);
  }

  /** The mark belongs to the ID, not to the session.  A session that takes over an ID between two sweeps is expired by the
      first sweep that sees it, exactly when its tokens equal those of the session before it and the mark they left is a
      timeout old: no reading of its own has been compared with any other. */
  method Takeover(a: SessionAging, id: Id, later: SM.Session, zones: seq<int>, seenAt: real, now: real, read: map<Entry, int>) returns (report: Report)
    requires id in a.manager.sessions && a.Awaits(id, seenAt) && a.Succeeds(id, later, zones) && a.manager.Valid() && a.Remembers()
    modifies a, a.probe, a.manager`sessions, a.manager`order, a.manager`recoveryRequired, a.manager.journal`rows, a.manager.journal`doubts, a.manager.device`table
    ensures id in report.expired <==>
              StillSilent(a.timeouts, read, later, old(a.TokensOf(id)), seenAt, now)
    ensures id !in report.expired ==> a.Has(id, later)
  {
    hide SM.Manager.Valid, SM.Clear, Remembered, Silent, ReadingsOf, Lowest, Ascending, Tallied, Verdicts, SM.Acceptable, SM.Free, SM.Apart, Read, Untaken, StillSilent, Overdue;
    ghost var tokens := a.TokensOf(id);
    a.FirstLook(id, seenAt);
    Succeed(a.manager, id, later, zones);
    a.probe.activity := read;
    StillSilentIs(a.timeouts, read, later, tokens, seenAt, now);
    report := a.LastLook(id, later, tokens, seenAt, now);
  }

  /** The activity token of the native counter stream: a count, while its last increment is recent enough. */
  function Token(f: Counters.Flow, freshness: real, now: real): Option<int> {
    if f.at.None? || now - f.at.value < 0.0 || now - f.at.value > freshness then None else Some(f.totals.activity)
  }

  function After(f: Counters.Flow, reports: seq<(Counters.Record, real)>): Counters.Flow
    decreases |reports|
  {
    if reports == [] then f else After(f, reports[..|reports| - 1]).Count(reports[|reports| - 1].0, reports[|reports| - 1].1)
  }

  /** An unchanged count means that the last increment is still the same one. */
  lemma {:induction false} SameCountSameTime(f: Counters.Flow, reports: seq<(Counters.Record, real)>)
    ensures After(f, reports).totals.activity >= f.totals.activity
    ensures After(f, reports).totals.activity == f.totals.activity ==> After(f, reports).at == f.at
    decreases |reports|
  {
    if reports == [] {
      assert After(f, reports) == f;
    } else {
      SameCountSameTime(f, reports[..|reports| - 1]);
    }
  }

  /** A flow shows the same token at two times a timeout apart, whatever was reported between them. */
  predicate ShowsSilence(f: Counters.Flow, reports: seq<(Counters.Record, real)>, freshness: real, timeout: real, first: real, last: real) {
    Token(f, freshness, first).Some? && Token(After(f, reports), freshness, last) == Token(f, freshness, first) && last - first >= timeout
  }

  /** Fed by the native counter stream, whose token turns unreadable once it is no longer fresh, aging can see silence
      for a whole timeout exactly when the timeout is no longer than the freshness window. */
  lemma SilenceVisibleWithinFreshness(freshness: real, timeout: real)
    requires freshness > 0.0
    ensures (exists f, reports, first, last :: ShowsSilence(f, reports, freshness, timeout, first, last)) <==> timeout <= freshness
  {
    forall f, reports, first, last | ShowsSilence(f, reports, freshness, timeout, first, last)
      ensures timeout <= freshness
    {
      SameCountSameTime(f, reports);
    }
    if timeout <= freshness {
      var e := Entry(Key(17, 0, 0, 0, 0, 0), 1, Drop);
      var f := Counters.Flow(e, Counters.Totals(1, 0, 1), Some(0.0), Some(0.0));
      assert After(f, []) == f;
      assert ShowsSilence(f, [], freshness, timeout, 0.0, freshness);
    }
  }

  /** So a session that is timed by such tokens is never found ripe under a longer timeout. */
  lemma StaleCountersNeverRipen(
    timeouts: map<int, real>, activity: map<Entry, int>, s: SM.Session, mark: Mark, now: real,
    f: Counters.Flow, reports: seq<(Counters.Record, real)>, freshness: real)
    requires freshness > 0.0 && Aged(timeouts, s) && TimeoutFor(timeouts, s).value > freshness
    requires mark.tokens.Some? && Token(f, freshness, mark.at) == Some(mark.tokens.value.0)
    requires Read(activity, s).Some? ==> Token(After(f, reports), freshness, now) == Some(Read(activity, s).value.0)
    ensures !Judge(timeouts, activity, s, Some(mark), now).Ripe?
  {
    var timeout := TimeoutFor(timeouts, s).value;
    SilenceVisibleWithinFreshness(freshness, timeout);
    assert !ShowsSilence(f, reports, freshness, timeout, mark.at, now);
  }
}
