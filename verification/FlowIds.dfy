/** Durable, never-reused flow IDs: the allocator, and its commissioning once per hardware boot. */
module FlowIds {
  import opened Outcomes
  import opened FlowCodec

  type Boot = nat
  type Domain = string

  datatype Generation = Generation(boot: Boot, owner: string, domain: Domain, first: int, last: int)
  datatype Counter = Counter(first: int, last: int, domain: Domain, next: int)

  predicate StrictlyIncreasing(ids: seq<int>) {
    forall i, j :: 0 <= i < j < |ids| ==> ids[i] < ids[j]
  }

  /** The two single-row tables, and what has been handed out since the hardware last booted. */
  class IdJournal {
    var generation: Option<Generation>
    var counter: Option<Counter>
    var healthy: bool
    var omens: seq<Fate>       // while not healthy, what befalls the next transactions
    ghost var hardwareBoot: Boot
    ghost var issued: seq<int>

    /** IDs handed out in this boot lie below the counter of this boot's generation, inside its range, in order. */
    ghost predicate Valid()
      reads this
    {
      && StrictlyIncreasing(issued)
      && (issued != [] ==>
            && generation.Some? && generation.value.boot == hardwareBoot && counter.Some?
            && forall i :: 0 <= i < |issued| ==> counter.value.first <= issued[i] <= counter.value.last && issued[i] < counter.value.next)
    }

    constructor (boot: Boot)
      ensures Valid() && issued == [] && generation.None? && counter.None? && hardwareBoot == boot
    {
      generation, counter, healthy, omens := None, None, true, [];
      hardwareBoot, issued := boot, [];
    }

    /** A new boot clears the hardware tables, and with them every ID in use. */
    ghost method Reboot(boot: Boot)
      requires boot != hardwareBoot
      modifies this`hardwareBoot, this`issued
      ensures Valid() && hardwareBoot == boot && issued == []
    {
      hardwareBoot, issued := boot, [];
    }

    /** One transaction over both rows. */
    method Commit(generation': Option<Generation>, counter': Option<Counter>) returns (r: Outcome)
      modifies this`generation, this`counter, this`omens
      ensures (generation == old(generation) && counter == old(counter)) || (generation == generation' && counter == counter')
      ensures r.Done? ==> generation == generation' && counter == counter'
      ensures healthy ==> r.Done?
      ensures !healthy && old(omens) != [] ==>
                && r == old(omens)[0].Ending() && omens == old(omens)[1..]
                && (if old(omens)[0].TakesEffect() then generation == generation' && counter == counter'
                    else generation == old(generation) && counter == old(counter))
    {
      var fate: Fate := *;
      if healthy {
        fate := Acknowledged;
      } else if omens != [] {
        fate, omens := omens[0], omens[1..];
      }
      if fate.TakesEffect() {
        generation, counter := generation', counter';
      }
      return fate.Ending();
    }
  }

  class Allocator {
    const db: IdJournal
    const first: int
    const last: int
    const domain: Domain
    var failed: bool

    constructor (db: IdJournal, first: int, last: int, domain: Domain)
      ensures this.db == db && this.first == first && this.last == last && this.domain == domain && !failed
    {
      this.db, this.first, this.last, this.domain := db, first, last, domain;
      failed := false;
    }

    /** The journal row belongs to this pool and its counter is in range. */
    predicate Accepts(row: Option<Counter>) {
      && row.Some?
      && row.value.first == first && row.value.last == last && row.value.domain == domain
      && first <= row.value.next <= last + 1
    }

    /** Reserves two consecutive IDs; the reservation is durable before either is used, and a failed one is burnt. */
    method ReservePair() returns (r: Outcome, a: int, b: int)
      requires db.Valid()
      requires db.generation.Some? && db.generation.value.boot == db.hardwareBoot
      modifies this`failed, db`counter, db`generation, db`omens, db`issued
      ensures db.Valid() && db.generation == old(db.generation)
      ensures r.Done? ==> db.issued == old(db.issued) + [a, b] && b == a + 1 && first <= a && b <= last
      ensures !r.Done? ==> db.issued == old(db.issued)
      ensures r.Raised? ==> failed
      ensures r.Done? <==> !failed && !r.Crashed?
      ensures old(failed) ==> !r.Done?
      ensures db.healthy && !old(failed) && Accepts(old(db.counter)) && old(db.counter).value.next + 1 <= last ==> r.Done?
    {
      a, b := 0, 0;
      if failed {
        return Raised, a, b;
      }
      var row := db.counter;
      if !Accepts(row) || row.value.next + 1 > last {
        failed := true;
        return Raised, a, b;
      }
      r := db.Commit(db.generation, Some(row.value.(next := row.value.next + 2)));
      if r.Raised? {
        failed := true;
      }
      if r.Done? {
        a, b := row.value.next, row.value.next + 1;
        db.issued := db.issued + [a, b];
      }
    }
  }

  /** What a range probe reports about the hardware. */
  datatype Report = Report(boot: Boot, owner: string, initialized: bool, proved: bool, cleanupVerified: bool)

  const RETRY_SECONDS: real := 60.0

  class Namespace {
    const db: IdJournal
    const boot: Boot
    const first: int
    const last: int
    const domainDigest: (Boot, string, int, int) -> Domain   // a digest; nothing about it is used but that it is a function
    var attempted: Option<real>

    constructor (db: IdJournal, boot: Boot, first: int, last: int, domainDigest: (Boot, string, int, int) -> Domain)
      ensures this.db == db && this.boot == boot && this.first == first && this.last == last && attempted == None
      ensures this.domainDigest == domainDigest
    {
      this.db, this.boot, this.first, this.last, this.domainDigest := db, boot, first, last, domainDigest;
      attempted := None;
    }

    /** A probe is due and proves the range for this boot. */
    predicate Probing(now: real, report: Option<Report>)
      reads this`attempted
    {
      && !(attempted.Some? && now - attempted.value < RETRY_SECONDS)
      && report.Some? && report.value.boot == boot && report.value.initialized && report.value.proved && report.value.cleanupVerified
    }

    function Proved(report: Report): Generation {
      Generation(boot, report.owner, domainDigest(boot, report.owner, first, last), first, last)
    }

    /** The rows are this owner's of this boot with a counter in range; or a probe proves the range for this boot and what it
        finds is another boot's, which goes, or a counter without a generation, which must be this owner's too. */
    predicate Commissionable(now: real, report: Option<Report>)
      reads this`attempted, db
    {
      if db.generation.Some? && db.generation.value.boot == boot then
        var g := db.generation.value;
        g == Proved(Report(boot, g.owner, true, true, true)) && InRange(db.counter, g.domain)
      else
        Probing(now, report) && (db.generation.Some? || db.counter.None? || InRange(db.counter, Proved(report.value).domain))
    }

    predicate InRange(row: Option<Counter>, domain: Domain) {
      row.Some? && row.value.first == first && row.value.last == last && row.value.domain == domain && first <= row.value.next <= last + 1
    }

    /** The allocator for this boot, commissioned when the hardware allows; None otherwise.
        Only another boot's generation is ever archived, and no counter of this boot is ever reset. */
    method Ensure(now: real, report: Option<Report>) returns (r: Outcome, allocator: Option<Allocator>)
      requires db.Valid() && boot == db.hardwareBoot && 0 < first && first + 1 <= last < U32
      modifies this`attempted, db`generation, db`counter, db`omens
      ensures db.Valid()
      ensures old(db.generation).Some? && old(db.generation).value.boot == boot
              ==> db.generation == old(db.generation) && db.counter == old(db.counter)
      ensures allocator.Some? ==>
                && r.Done? && fresh(allocator.value) && allocator.value.db == db && !allocator.value.failed
                && allocator.value.first == first && allocator.value.last == last
                && db.generation.Some? && db.generation.value.boot == db.hardwareBoot && allocator.value.Accepts(db.counter)
      // with a working journal it yields an allocator exactly when the rows or the probe allow one
      ensures db.healthy ==> (allocator.Some? <==> old(Commissionable(now, report)))
      // the two rows of a first commissioning are two transactions
      ensures !db.healthy && old(|db.omens| == 2 && db.omens[0].Acknowledged? && Probing(now, report) && db.generation.None? && db.counter.None?) ==>
                && r == old(db.omens)[1].Ending() && (r.Done? <==> allocator.Some?) && db.generation == Some(Proved(report.value))
                && db.counter == if old(db.omens)[1].TakesEffect() then Some(Counter(first, last, Proved(report.value).domain, first)) else None
    {
      allocator := None;
      var g := db.generation;
      if g.Some? && g.value.boot == boot {
        var expected := domainDigest(boot, g.value.owner, first, last);
        if g.value.domain != expected || g.value.first != first || g.value.last != last {
          return Done, None;
        }
        var candidate := new Allocator(db, first, last, g.value.domain);
        if candidate.Accepts(db.counter) {
          allocator := Some(candidate);
        }
        return Done, allocator;
      }
      if attempted.Some? && now - attempted.value < RETRY_SECONDS {
        return Done, None;
      }
      attempted := Some(now);
      if report.None? || report.value.boot != boot || !report.value.initialized || !report.value.proved || !report.value.cleanupVerified {
        return Done, None;
      }
      if g.Some? {
        r := db.Commit(None, None);   // archive the previous boot's rows
        if r.IsFailure() {
          return r, None;
        }
      }
      var domain := domainDigest(boot, report.value.owner, first, last);
      r := db.Commit(Some(Generation(boot, report.value.owner, domain, first, last)), db.counter);
      if r.IsFailure() {
        return r, None;
      }
      var candidate := new Allocator(db, first, last, domain);
      if db.counter.None? {
        r := db.Commit(db.generation, Some(Counter(first, last, domain, first)));
        if r.IsFailure() {
          return r, None;
        }
      } else if !candidate.Accepts(db.counter) {
        return Raised, None;
      }
      return Done, Some(candidate);
    }
  }

  /** The first commissioning of a boot writes the generation and then the counter.  If the second transaction takes no effect,
      no later attempt in this boot yields an allocator, whatever the hardware proves; if it does, every one does. */
  method Interrupted(db: IdJournal, boot: Boot, first: int, last: int, digest: (Boot, string, int, int) -> Domain,
                     report: Report, fate: Fate, now: real, restarts: seq<(real, Option<Report>)>) returns (later: seq<bool>)
    requires db.Valid() && db.hardwareBoot == boot && 0 < first && first + 1 <= last < U32 && db.generation.None? && db.counter.None?
    requires report.boot == boot && report.initialized && report.proved && report.cleanupVerified
    modifies db`generation, db`counter, db`omens, db`healthy
    ensures |later| == |restarts| && forall i :: 0 <= i < |later| ==> (later[i] <==> fate.TakesEffect())
  {
    var namespace := new Namespace(db, boot, first, last, digest);
    db.healthy, db.omens := false, [Acknowledged, fate];
    var r, allocator := namespace.Ensure(now, Some(report));
    db.healthy := true;
    later := [];
    ghost var generation, counter := db.generation, db.counter;
    assert generation == Some(Generation(boot, report.owner, digest(boot, report.owner, first, last), first, last));
    assert counter == if fate.TakesEffect() then Some(Counter(first, last, generation.value.domain, first)) else None;
    for i := 0 to |restarts|
      invariant db.Valid() && db.healthy && db.generation == generation && db.counter == counter
      invariant |later| == i && forall j :: 0 <= j < i ==> (later[j] <==> fate.TakesEffect())
    {
      namespace := new Namespace(db, boot, first, last, digest);
      r, allocator := namespace.Ensure(restarts[i].0, restarts[i].1);
      later := later + [allocator.Some?];
    }
  }

  datatype Event = Reserve | Restart(now: real, report: Option<Report>) | Reboot(boot: Boot) | Weather(healthy: bool)

  /** Any history of reservations, failures, process deaths, restarts and reboots: within each boot the IDs handed
      out are strictly increasing, so all distinct. */
  method Run(db: IdJournal, first: int, last: int, digest: (Boot, string, int, int) -> Domain, events: seq<Event>, boot: Boot)
    requires db.Valid() && 0 < first && first + 1 <= last < U32 && db.hardwareBoot == boot
    modifies db
    ensures db.Valid() && StrictlyIncreasing(db.issued)
  {
    var current := boot;
    var namespace := new Namespace(db, boot, first, last, digest);
    var allocator: Option<Allocator> := None;
    for i := 0 to |events|
      invariant db.Valid() && db.hardwareBoot == current == namespace.boot
      invariant fresh(namespace) && namespace.db == db && namespace.first == first && namespace.last == last
      invariant allocator.Some? ==> fresh(allocator.value) && allocator.value.db == db
      invariant allocator.Some? ==> db.generation.Some? && db.generation.value.boot == db.hardwareBoot
    {
      match events[i] {
        case Reserve =>
          if allocator.Some? {
            var r, a, b := allocator.value.ReservePair();
            if r.Crashed? { allocator := None; }
          }
        case Restart(now, report) =>
          namespace := new Namespace(db, current, first, last, digest);
          var r;
          r, allocator := namespace.Ensure(now, report);
          if r.IsFailure() { allocator := None; }
        case Reboot(next) =>
          if next != current {
            db.Reboot(next);
            current, allocator := next, None;
            namespace := new Namespace(db, current, first, last, digest);
          }
        case Weather(healthy) =>
          db.healthy := healthy;
      }
    }
  }
}
