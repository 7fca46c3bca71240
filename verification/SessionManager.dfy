/** Transactional ownership of bidirectional flow entries: write-ahead journal, two-key
    preflight, readback, rollback, and recovery by exact ownership. */
module SessionManager {
  import opened Outcomes
  import opened FlowCodec
  import opened NatPair
  import opened FlowTable

  type SessionId = n: int | 0 <= n < U32
  type Revision = n: int | 0 <= n < 0x1_0000_0000_0000_0000

  datatype Stage = Installing | Installed | Removing | Unknown

  datatype Session = Session(forward: Entry, backward: Entry, revision: Revision, stage: Stage) {
    predicate Uses(k: Key) {
      k == forward.key || k == backward.key
    }
    /** This cell, under this key, is one of the forms in which the session's own entries appear. */
    predicate Owns(k: Key, c: Cell) {
      (k == forward.key && IsVariant(c, forward)) || (k == backward.key && IsVariant(c, backward))
    }
    /** Nothing but the session's own entries stands under its keys. */
    predicate ClearIn(table: map<Key, Cell>) {
      && (forward.key in table ==> IsVariant(table[forward.key], forward))
      && (backward.key in table ==> IsVariant(table[backward.key], backward))
    }
    /** Withdrawing the session empties this key of this cell: the forward entry goes first. */
    predicate Clears(k: Key, c: Cell) {
      (k == forward.key && IsVariant(c, forward)) || (k == backward.key && k != forward.key && IsVariant(c, backward))
    }
    /** Withdrawing the session meets nothing but its own entries. */
    predicate Removable(table: map<Key, Cell>) {
      && (forward.key in table ==> IsVariant(table[forward.key], forward))
      && (backward.key in table && backward.key != forward.key ==> IsVariant(table[backward.key], backward))
    }
    /** Same entries under the same policy revision: the stage is bookkeeping. */
    predicate SameIntent(other: Session) {
      forward == other.forward && backward == other.backward && revision == other.revision
    }
  }

  type Records = map<SessionId, Session>
  type Table = map<Key, Cell>

  /** Every entry that is in the table and not foreign is a recorded session's own. */
  ghost predicate Covers(recs: Records, table: Table, foreign: Table) {
    forall k :: k in table && k !in foreign ==> exists sid :: sid in recs && recs[sid].Owns(k, table[k])
  }

  /** No other party forges a recorded entry, flow ID included. */
  ghost predicate Unforged(recs: Records, foreign: Table) {
    forall sid, k :: sid in recs && k in foreign ==> !recs[sid].Owns(k, foreign[k])
  }

  /** Memory agrees with the journal on intent; a session the journal has lost holds nothing in the table. */
  ghost predicate Backed(sessions: Records, rows: Records, table: Table, foreign: Table) {
    forall sid :: sid in sessions ==>
      if sid in rows then rows[sid].SameIntent(sessions[sid]) else Vacant(sessions[sid], table, foreign)
  }

  ghost predicate Vacant(s: Session, table: Table, foreign: Table) {
    forall k :: s.Uses(k) && k in table ==> k in foreign
  }

  /** Both directions are in the table byte for byte, unless another party has taken the key since. */
  ghost predicate InPlace(s: Session, table: Table, foreign: Table) {
    && (s.forward.key in foreign || (s.forward.key in table && table[s.forward.key] == Flow(s.forward)))
    && (s.backward.key in foreign || (s.backward.key in table && table[s.backward.key] == Flow(s.backward)))
  }

  predicate Apart(a: Session, b: Session) {
    !b.Uses(a.forward.key) && !b.Uses(a.backward.key)
  }

  /** Quiescent agreement of memory, journal and hardware. */
  ghost predicate Settled(sessions: Records, rows: Records, table: Table, foreign: Table) {
    && (forall sid :: sid in sessions ==>
          sid in rows && rows[sid] == sessions[sid] && sessions[sid].stage.Installed? && InPlace(sessions[sid], table, foreign))
    && (forall a, b :: a in sessions && b in sessions && a != b ==> Apart(sessions[a], sessions[b]))
  }

  /** A withdrawal in progress, cut anywhere: the table only shrinks, and a row leaves the journal
      only once its keys are free. */
  ghost predicate Shrinks(rows: Records, table: Table, rows': Records, table': Table, foreign: Table) {
    && (forall k :: k in table' ==> k in table && table'[k] == table[k])
    && (forall sid :: sid in rows ==>
          (sid in rows' && rows'[sid].SameIntent(rows[sid])) || Vacant(rows[sid], table', foreign))
  }

  lemma ShrinksCompose(r0: Records, t0: Table, r1: Records, t1: Table, r2: Records, t2: Table, foreign: Table)
    requires Shrinks(r0, t0, r1, t1, foreign) && Shrinks(r1, t1, r2, t2, foreign)
    ensures Shrinks(r0, t0, r2, t2, foreign)
  {
  }

  /** The table still holds everything foreign, and otherwise nothing that was not there before. */
  ghost predicate Thinner(table: Table, table': Table, foreign: Table) {
    && (forall k :: k in table' ==> k in table && table'[k] == table[k])
    && (forall k :: k in foreign ==> k in table' && table'[k] == foreign[k])
  }

  /** What memory, journal and table agree on at every step, settled or not. */
  ghost predicate Consistent(sessions: Records, rows: Records, table: Table, foreign: Table) {
    && Covers(rows, table, foreign) && Unforged(rows, foreign)
    && Covers(sessions, table, foreign) && Unforged(sessions, foreign)
    && Backed(sessions, rows, table, foreign)
  }

  ghost predicate AgreeExcept(a: Records, b: Records, sid: SessionId) {
    forall other :: other != sid ==> (other in a <==> other in b) && (other in a ==> a[other] == b[other])
  }

  /** Where a removal stands, wherever it is cut: one session's records may have changed stage, or be gone
      from journal or memory once its keys are free. */
  ghost predicate Removing1(sid: SessionId, sessions: Records, rows: Records, table: Table,
                            sessions': Records, rows': Records, table': Table, foreign: Table)
  {
    && sid in sessions
    && AgreeExcept(sessions, sessions', sid) && AgreeExcept(rows, rows', sid)
    && Thinner(table, table', foreign)
    && (if sid in sessions' then sessions'[sid].SameIntent(sessions[sid]) else Vacant(sessions[sid], table', foreign))
    && (if sid in rows' then rows'[sid].SameIntent(sessions[sid]) else Vacant(sessions[sid], table', foreign))
  }

  lemma AgreeRefl(a: Records, sid: SessionId)
    ensures AgreeExcept(a, a, sid)
  {
  }

  lemma AgreeKeys(a: Records, b: Records, sid: SessionId)
    requires AgreeExcept(a, b, sid)
    ensures forall other :: other in b ==> other in a || other == sid
  {
  }

  lemma AgreeTrans(a: Records, b: Records, c: Records, sid: SessionId)
    requires AgreeExcept(a, b, sid) && AgreeExcept(b, c, sid)
    ensures AgreeExcept(a, c, sid)
  {
  }

  lemma ThinnerRefl(table: Table, foreign: Table)
    requires forall k :: k in foreign ==> k in table && table[k] == foreign[k]
    ensures Thinner(table, table, foreign)
  {
  }

  lemma CoversAfterRemoval(sid: SessionId, s: Session, recs: Records, recs': Records, table: Table, table': Table, foreign: Table)
    requires Covers(recs, table, foreign) && Thinner(table, table', foreign) && AgreeExcept(recs, recs', sid)
    requires sid in recs ==> recs[sid].SameIntent(s)
    requires if sid in recs' then recs'[sid].SameIntent(s) else Vacant(s, table', foreign)
    ensures Covers(recs', table', foreign)
  {
  }

  lemma UnforgedAfterRemoval(sid: SessionId, s: Session, recs: Records, recs': Records, foreign: Table)
    requires Unforged(recs, foreign) && AgreeExcept(recs, recs', sid)
    requires forall k :: k in foreign ==> !s.Owns(k, foreign[k])
    requires sid in recs' ==> recs'[sid].SameIntent(s)
    ensures Unforged(recs', foreign)
  {
  }

  lemma BackedAfterRemoval(sid: SessionId, sessions: Records, rows: Records, table: Table,
                           sessions': Records, rows': Records, table': Table, foreign: Table)
    requires Backed(sessions, rows, table, foreign)
    requires Removing1(sid, sessions, rows, table, sessions', rows', table', foreign)
    ensures Backed(sessions', rows', table', foreign)
  {
  }

  lemma ShrinksByRemoval(sid: SessionId, sessions: Records, rows: Records, table: Table,
                         sessions': Records, rows': Records, table': Table, foreign: Table)
    requires Backed(sessions, rows, table, foreign)
    requires Removing1(sid, sessions, rows, table, sessions', rows', table', foreign)
    ensures Shrinks(rows, table, rows', table', foreign)
  {
  }

  lemma RemovalConsistent(sid: SessionId, sessions: Records, rows: Records, table: Table,
                          sessions': Records, rows': Records, table': Table, foreign: Table)
    requires Consistent(sessions, rows, table, foreign)
    requires Removing1(sid, sessions, rows, table, sessions', rows', table', foreign)
    ensures Consistent(sessions', rows', table', foreign) && Shrinks(rows, table, rows', table', foreign)
  {
    var s := sessions[sid];
    assert sid in rows ==> rows[sid].SameIntent(s);
    assert forall k :: k in foreign ==> !s.Owns(k, foreign[k]);
    BackedAfterRemoval(sid, sessions, rows, table, sessions', rows', table', foreign);
    ShrinksByRemoval(sid, sessions, rows, table, sessions', rows', table', foreign);
    hide Covers, Unforged, Vacant, Shrinks, Backed, Thinner;
    CoversAfterRemoval(sid, s, sessions, sessions', table, table', foreign);
    CoversAfterRemoval(sid, s, rows, rows', table, table', foreign);
    UnforgedAfterRemoval(sid, s, sessions, sessions', foreign);
    UnforgedAfterRemoval(sid, s, rows, rows', foreign);
  }

  lemma RemovalResult(sid: SessionId, sessions: Records, rows: Records, table: Table,
                      sessions': Records, rows': Records, table': Table, foreign: Table,
                      doubts: set<SessionId>, doubts': set<SessionId>, ids: seq<SessionId>)
    requires Removing1(sid, sessions, rows, table, sessions', rows', table', foreign) && Listed(ids, sessions)
    ensures sid in sessions' ==> Listed(ids, sessions')
    ensures AgreeExcept(sessions, sessions', sid) && AgreeExcept(rows, rows', sid) && Thinner(table, table', foreign)
    ensures sid in sessions' ==> sessions'[sid].SameIntent(sessions[sid]) && sessions'.Keys == sessions.Keys
    ensures sid !in sessions' ==> sessions' == sessions - {sid}
    ensures sid !in rows' ==> rows' == rows - {sid}
    ensures forall other :: other in sessions' ==> other in sessions && sessions'[other].SameIntent(sessions[other])
    ensures Suspected(sessions, rows, doubts) && OnlyDoubts(sid, doubts, doubts') && (sid in rows' ==> sid in sessions')
            ==> Suspected(sessions', rows', doubts')
  {
    if Suspected(sessions, rows, doubts) && OnlyDoubts(sid, doubts, doubts') && (sid in rows' ==> sid in sessions') {
      SuspectedNext(sid, sessions, rows, doubts, sessions', rows', doubts');
    }
  }

  lemma SettledWithout(sid: SessionId, sessions: Records, rows: Records, table: Table, table': Table, foreign: Table)
    requires Settled(sessions, rows, table, foreign) && sid in sessions
    requires Thinner(table, table', foreign)
    requires forall k :: k in table && k !in table' ==> sessions[sid].Uses(k)
    ensures Settled(sessions - {sid}, rows - {sid}, table', foreign)
  {
  }

  /** Where an install stands, wherever it is cut: whatever is under its keys is its own, and is written
      only while both journal and memory record it. */
  ghost predicate Installing1(sid: SessionId, s: Session, sessions: Records, rows: Records, table: Table,
                              sessions': Records, rows': Records, table': Table)
  {
    && AgreeExcept(sessions, sessions', sid) && AgreeExcept(rows, rows', sid)
    && (sid in sessions' ==> sessions'[sid].SameIntent(s))
    && (sid in sessions' && sid in rows' ==> rows'[sid].SameIntent(s))
    && (forall k :: k in table && !s.Uses(k) ==> k in table' && table'[k] == table[k])
    && (forall k :: k in table' && !s.Uses(k) ==> k in table)
    && (forall k :: k in table' && s.Uses(k) ==> s.Owns(k, table'[k]) && sid in sessions' && sid in rows')
  }

  /** An install either changes nothing or stands somewhere in between, on a session not recorded before. */
  ghost predicate InstallEffect(sid: SessionId, s: Session, sessions: Records, rows: Records, table: Table,
                                sessions': Records, rows': Records, table': Table)
  {
    || (sessions' == sessions && rows' == rows && table' == table)
    || (sid !in sessions && Installing1(sid, s, sessions, rows, table, sessions', rows', table'))
  }

  lemma InstallConsistent(sid: SessionId, s: Session, sessions: Records, rows: Records, table: Table,
                          sessions': Records, rows': Records, table': Table, foreign: Table)
    requires Consistent(sessions, rows, table, foreign) && Settled(sessions, rows, table, foreign)
    requires sid !in sessions && (forall k :: s.Uses(k) ==> k !in foreign)
    requires Installing1(sid, s, sessions, rows, table, sessions', rows', table')
    requires sid in rows' ==> rows'[sid].SameIntent(s) || (sid in rows && rows'[sid] == rows[sid])
    ensures Consistent(sessions', rows', table', foreign)
  {
    InstallCovers(sid, s, sessions, sessions', table, table', foreign);
    InstallCovers(sid, s, sessions, rows', table, table', foreign);
    forall other, k | other in rows' && k in foreign
      ensures !rows'[other].Owns(k, foreign[k])
    {
      if other == sid && rows'[sid].SameIntent(s) {
        assert !s.Uses(k);
      } else {
        assert !rows[other].Owns(k, foreign[k]);
      }
    }
    forall other, k | other in sessions' && k in foreign
      ensures !sessions'[other].Owns(k, foreign[k])
    {
      if other != sid {
        assert !sessions[other].Owns(k, foreign[k]);
      } else {
        assert !s.Uses(k);
      }
    }
    hide Covers, Unforged;
  }

  lemma SuspectedAfterInstall(sid: SessionId, s: Session, sessions: Records, rows: Records, doubts: set<SessionId>, table: Table,
                              sessions': Records, rows': Records, doubts': set<SessionId>, table': Table)
    requires Suspected(sessions, rows, doubts) && OnlyDoubts(sid, doubts, doubts')
    requires Installing1(sid, s, sessions, rows, table, sessions', rows', table')
    ensures (sid in rows' ==> sid in sessions' || sid in doubts') ==> Suspected(sessions', rows', doubts')
  {
    if sid in rows' ==> sid in sessions' || sid in doubts' {
      SuspectedNext(sid, sessions, rows, doubts, sessions', rows', doubts');
    }
  }

  lemma SuspectedNext(sid: SessionId, sessions: Records, rows: Records, doubts: set<SessionId>, sessions': Records, rows': Records, doubts': set<SessionId>)
    requires Suspected(sessions, rows, doubts) && OnlyDoubts(sid, doubts, doubts')
    requires AgreeExcept(sessions, sessions', sid) && AgreeExcept(rows, rows', sid)
    requires sid in rows' ==> sid in sessions' || sid in doubts'
    ensures Suspected(sessions', rows', doubts')
  {
    forall other | other in rows'
      ensures other in sessions' || other in doubts'
    {
      if other != sid {
        assert other in sessions || other in doubts - {sid};
      }
    }
  }

  lemma InstallCovers(sid: SessionId, s: Session, base: Records, recs: Records, table: Table, table': Table, foreign: Table)
    requires Covers(base, table, foreign) && sid !in base
    requires forall other :: other in base ==> other in recs && recs[other] == base[other]
    requires forall k :: k in table' && !s.Uses(k) ==> k in table && table'[k] == table[k]
    requires forall k :: k in table' && s.Uses(k) ==> s.Owns(k, table'[k]) && sid in recs && recs[sid].SameIntent(s)
    ensures Covers(recs, table', foreign)
  {
  }

  lemma SettledWith(sid: SessionId, s: Session, sessions: Records, rows: Records, table: Table,
                    sessions': Records, rows': Records, table': Table, foreign: Table)
    requires Settled(sessions, rows, table, foreign) && (forall k :: k in foreign ==> k in table)
    requires sid !in sessions && s.stage.Installed?
    requires s.forward.key !in table && s.backward.key !in table
    requires AgreeExcept(sessions, sessions', sid) && AgreeExcept(rows, rows', sid)
    requires sid in sessions' && sid in rows' && sessions'[sid] == rows'[sid] == s
    requires forall k :: k in table && !s.Uses(k) ==> k in table' && table'[k] == table[k]
    requires InPlace(s, table', foreign)
    ensures Settled(sessions', rows', table', foreign)
  {
    forall other | other in sessions
      ensures Apart(sessions[other], s) && Apart(s, sessions[other]) && InPlace(sessions[other], table', foreign)
    {
      assert InPlace(sessions[other], table, foreign);
    }
  }

  lemma InstallResult(sid: SessionId, s: Session, sessions: Records, rows: Records, table: Table,
                      sessions': Records, rows': Records, table': Table)
    requires sid !in sessions && Installing1(sid, s, sessions, rows, table, sessions', rows', table')
    ensures AgreeExcept(sessions, sessions', sid) && AgreeExcept(rows, rows', sid)
    ensures forall k :: k in table && !s.Uses(k) ==> k in table' && table'[k] == table[k]
    ensures sid in sessions' ==> sessions' == sessions[sid := sessions'[sid]]
    ensures sid !in sessions' ==> sessions' == sessions
  {
  }

  lemma BothInPlace(sid: SessionId, s: Session, sessions: Records, rows: Records, table: Table,
                    sessions': Records, rows': Records, table': Table, foreign: Table)
    requires Installing1(sid, s, sessions, rows, table, sessions', rows', table') && InPlace(s, table', foreign)
    requires s.forward.key !in table && s.backward.key !in table && s.forward.key != s.backward.key && forall k :: k in foreign ==> k in table
    ensures table' == table[s.forward.key := Flow(s.forward)][s.backward.key := Flow(s.backward)]
  {
    hide Session.Owns, AgreeExcept;
  }

  lemma StillSettled(sid: SessionId, sessions: Records, rows: Records, rows': Records, table: Table, foreign: Table)
    requires Settled(sessions, rows, table, foreign) && sid !in sessions && AgreeExcept(rows, rows', sid)
    ensures Settled(sessions, rows', table, foreign)
  {
  }

  ghost predicate Clear(recs: Records, table: Table) {
    forall sid :: sid in recs ==> recs[sid].ClearIn(table)
  }

  /** The checks an install makes on its two entries and the commissioned lookup zones. */
  predicate Acceptable(entries: seq<Entry>, zones: Option<seq<int>>) {
    && |entries| == 2 && entries[0].Valid() && entries[1].Valid()
    && Paired(entries[0], entries[1])
    && if zones.None? then entries[0].key.zone == entries[1].key.zone
       else zones.value == [entries[0].key.zone, entries[1].key.zone]
  }

  /** The checks are those that the install makes on the bytes. */
  lemma AcceptableIsInstallCheck(a: Entry, b: Entry, zones: Option<seq<int>>)
    requires a.Valid() && b.Valid()
    ensures a.Encode().Ok? && b.Encode().Ok?
    ensures Acceptable([a, b], zones) <==> InstallAccepts([a.Encode().value, b.Encode().value], zones)
  {
    hide Entry.Encode, Entry.Valid, InstallAccepts, Paired;
    InstallCheckIsPaired(a, b, zones);
  }

  lemma IntentRefl(recs: Records)
    ensures forall sid :: sid in recs ==> recs[sid].SameIntent(recs[sid])
  {
  }

  lemma ShrinksRefl(rows: Records, table: Table, foreign: Table)
    ensures Shrinks(rows, table, rows, table, foreign)
  {
  }

  predicate Free(s: Session, table: Table) {
    s.forward.key !in table && s.backward.key !in table
  }

  lemma FreeIsVacant(s: Session, t: Session, table: Table, foreign: Table)
    requires t.SameIntent(s) && Free(t, table)
    ensures Free(s, table) && Vacant(s, table, foreign)
  {
  }

  lemma StageOnly(s: Session, t: Session, table: Table, foreign: Table)
    requires t.SameIntent(s)
    ensures forall k, c :: s.Owns(k, c) <==> t.Owns(k, c)
    ensures s.Removable(table) <==> t.Removable(table)
    ensures Vacant(s, table, foreign) <==> Vacant(t, table, foreign)
  {
  }

  lemma NothingRecorded(rows: Records, table: Table, foreign: Table)
    requires Consistent(map[], rows, table, foreign)
    requires forall k :: k in foreign ==> k in table && table[k] == foreign[k]
    ensures table == foreign
    ensures Settled(map[], rows, table, foreign)
  {
  }

  /** `ids` lists the recorded sessions, each once. */
  ghost predicate Listed(ids: seq<SessionId>, recs: Records) {
    && (forall sid :: sid in recs <==> sid in ids)
    && forall i, j :: 0 <= i < j < |ids| ==> ids[i] != ids[j]
  }

  predicate Ascending(ids: seq<SessionId>) {
    forall i, j :: 0 <= i < j < |ids| ==> ids[i] < ids[j]
  }

  /** A row that memory lacks is one whose last journal call was not acknowledged. */
  ghost predicate Suspected(sessions: Records, rows: Records, doubts: set<SessionId>) {
    forall sid :: sid in rows ==> sid in sessions || sid in doubts
  }

  /** The calls in between concerned recorded sessions only. */
  ghost predicate DoubtsWithin(recs: Records, doubts: set<SessionId>, doubts': set<SessionId>) {
    forall sid :: sid !in recs ==> (sid in doubts <==> sid in doubts')
  }

  lemma DoubtsWithinNone(recs: Records, doubts: set<SessionId>)
    ensures DoubtsWithin(recs, doubts, doubts)
  {
  }

  lemma DoubtsWithinNext(recs: Records, doubts: set<SessionId>, doubts1: set<SessionId>, doubts2: set<SessionId>, sid: SessionId)
    requires DoubtsWithin(recs, doubts, doubts1) && OnlyDoubts(sid, doubts1, doubts2) && sid in recs
    ensures DoubtsWithin(recs, doubts, doubts2)
  {
    forall other | other !in recs
      ensures other in doubts <==> other in doubts2
    {
      assert other in doubts1 - {sid} <==> other in doubts2 - {sid};
    }
  }

  ghost predicate OnlyDoubts(sid: SessionId, doubts: set<SessionId>, doubts': set<SessionId>) {
    doubts - {sid} == doubts' - {sid}
  }

  function Without(ids: seq<SessionId>, sid: SessionId): seq<SessionId> {
    if ids == [] then [] else if ids[0] == sid then Without(ids[1..], sid) else [ids[0]] + Without(ids[1..], sid)
  }

  lemma {:induction false} WithoutElements(ids: seq<SessionId>, sid: SessionId)
    ensures forall x :: x in Without(ids, sid) <==> x in ids && x != sid
  {
    if ids == [] {
    } else {
      assert ids == [ids[0]] + ids[1..];
      WithoutElements(ids[1..], sid);
    }
  }

  lemma {:induction false} WithoutDistinct(ids: seq<SessionId>, sid: SessionId)
    requires forall i, j :: 0 <= i < j < |ids| ==> ids[i] != ids[j]
    ensures forall i, j :: 0 <= i < j < |Without(ids, sid)| ==> Without(ids, sid)[i] != Without(ids, sid)[j]
    ensures ids != [] && ids[0] == sid ==> Without(ids, sid) == ids[1..]
    ensures sid !in ids ==> Without(ids, sid) == ids
  {
    if ids == [] {
    } else {
      WithoutDistinct(ids[1..], sid);
      WithoutElements(ids[1..], sid);
      if ids[0] != sid {
        assert ids[0] !in Without(ids[1..], sid);
      } else {
        assert sid !in ids[1..];
      }
    }
  }

  lemma ListedWithout(ids: seq<SessionId>, recs: Records, sid: SessionId)
    requires Listed(ids, recs)
    ensures Listed(Without(ids, sid), recs - {sid})
  {
    WithoutElements(ids, sid);
    WithoutDistinct(ids, sid);
  }

  lemma {:induction false} LineLength(ids: seq<SessionId>, recs: Records)
    requires Listed(ids, recs)
    ensures |ids| == |recs|
  {
    if ids == [] {
      assert recs == map[];
    } else {
      var n := |ids| - 1;
      var rest := recs - {ids[n]};
      ButLast(ids, recs, n);
      hide Listed;
      LineLength(ids[..n], rest);
      assert recs.Keys == rest.Keys + {ids[n]};
      assert |recs| == |recs.Keys| && |rest| == |rest.Keys|;
    }
  }

  lemma ButLast(ids: seq<SessionId>, recs: Records, n: nat)
    requires Listed(ids, recs) && n + 1 == |ids|
    ensures ids[n] in recs && Listed(ids[..n], recs - {ids[n]})
  {
    assert ids == ids[..n] + [ids[n]];
  }

  /** The order in which the journal's rows are read. */
  method RowOrder(keys: set<SessionId>) returns (ids: seq<SessionId>)
    ensures Ascending(ids) && forall sid :: sid in ids <==> sid in keys
  {
    ids := [];
    var todo := keys;
    while todo != {}
      invariant Ascending(ids) && todo <= keys && forall sid :: sid in ids <==> sid in keys && sid !in todo
      invariant forall x, y :: x in ids && y in todo ==> x < y
    {
      var least := Pick(todo);
      var others := todo - {least};
      while others != {}
        invariant least in todo && others <= todo && forall y :: y in todo && y !in others ==> least <= y
      {
        var y := Pick(others);
        others := others - {y};
        if y < least {
          least := y;
        }
      }
      AppendsAscending(ids, least);
      ids, todo := ids + [least], todo - {least};
    }
  }

  lemma AppendsAscending(ids: seq<SessionId>, sid: SessionId)
    requires Ascending(ids) && forall x :: x in ids ==> x < sid
    ensures Ascending(ids + [sid])
  {
    forall i | 0 <= i < |ids|
      ensures ids[i] < sid
    {
      assert ids[i] in ids;
    }
  }

  /** Under every key the first session in line that uses it owns what stands there. */
  ghost predicate Orderly(ids: seq<SessionId>, recs: Records, table: Table)
    requires forall sid :: sid in ids ==> sid in recs
  {
    OrderlyUpTo(ids, |ids|, recs, table)
  }

  ghost predicate OrderlyUpTo(ids: seq<SessionId>, n: nat, recs: Records, table: Table)
    requires n <= |ids| && forall sid :: sid in ids ==> sid in recs
  {
    forall i, k :: 0 <= i < n && recs[ids[i]].Uses(k) && k in table ==> exists j :: 0 <= j <= i && recs[ids[j]].Clears(k, table[k])
  }

  /** What is left of the table once the first `n` sessions in line are withdrawn. */
  ghost predicate Remains(ids: seq<SessionId>, n: nat, recs: Records, table: Table, table': Table)
    requires n <= |ids| && forall sid :: sid in ids ==> sid in recs
  {
    && (forall k :: k in table' ==> k in table && table'[k] == table[k])
    && forall k :: k in table ==> (k in table' <==> forall i :: 0 <= i < n ==> !recs[ids[i]].Uses(k))
  }

  lemma OrderlyStep(ids: seq<SessionId>, n: nat, recs: Records, table: Table, table': Table)
    requires n < |ids| && (forall sid :: sid in ids ==> sid in recs)
    requires Remains(ids, n, recs, table, table') && OrderlyUpTo(ids, n, recs, table)
    ensures recs[ids[n]].Removable(table') <==> OrderlyUpTo(ids, n + 1, recs, table)
  {
    hide IsVariant;
    if recs[ids[n]].Removable(table') {
      RemovableNext(ids, n, recs, table, table');
    } else if OrderlyUpTo(ids, n + 1, recs, table) {
      OnlyOneself(ids, n, recs, table, table');
    }
  }

  lemma RemovableNext(ids: seq<SessionId>, n: nat, recs: Records, table: Table, table': Table)
    requires n < |ids| && (forall sid :: sid in ids ==> sid in recs)
    requires Remains(ids, n, recs, table, table') && OrderlyUpTo(ids, n, recs, table) && recs[ids[n]].Removable(table')
    ensures OrderlyUpTo(ids, n + 1, recs, table)
  {
    hide Session.Uses, Session.Clears, Remains, Session.Removable;
    forall k | recs[ids[n]].Uses(k) && k in table
      ensures exists j :: 0 <= j <= n && recs[ids[j]].Clears(k, table[k])
    {
      RemovableNextAt(ids, n, recs, table, table', k);
    }
  }

  lemma RemovableNextAt(ids: seq<SessionId>, n: nat, recs: Records, table: Table, table': Table, k: Key)
    requires n < |ids| && (forall sid :: sid in ids ==> sid in recs)
    requires Remains(ids, n, recs, table, table') && OrderlyUpTo(ids, n, recs, table) && recs[ids[n]].Removable(table')
    requires recs[ids[n]].Uses(k) && k in table
    ensures exists j :: 0 <= j <= n && recs[ids[j]].Clears(k, table[k])
  {
    hide IsVariant;
    if k in table' {
      assert recs[ids[n]].Clears(k, table[k]);
    } else {
      var i :| 0 <= i < n && recs[ids[i]].Uses(k);
      hide Session.Clears, Session.Removable;
      var j :| 0 <= j <= i && recs[ids[j]].Clears(k, table[k]);
    }
  }

  /** Once its predecessors are gone, only a session itself can clear its keys. */
  lemma OnlyOneself(ids: seq<SessionId>, n: nat, recs: Records, table: Table, table': Table)
    requires n < |ids| && (forall sid :: sid in ids ==> sid in recs)
    requires Remains(ids, n, recs, table, table') && OrderlyUpTo(ids, n + 1, recs, table)
    ensures recs[ids[n]].Removable(table')
  {
    hide IsVariant;
    var s := recs[ids[n]];
    forall k | s.Uses(k) && k in table'
      ensures s.Clears(k, table'[k])
    {
      var j :| 0 <= j <= n && recs[ids[j]].Clears(k, table[k]);
      assert recs[ids[j]].Uses(k);
    }
    assert s.forward.key in table' ==> s.Clears(s.forward.key, table'[s.forward.key]);
    assert s.backward.key in table' ==> s.Clears(s.backward.key, table'[s.backward.key]);
  }

  /** Every entry that is gone was the own one of a session whose predecessors could all be withdrawn. */
  ghost predicate InTurn(ids: seq<SessionId>, recs: Records, table: Table, table': Table)
    requires forall sid :: sid in ids ==> sid in recs
  {
    forall k :: k in table && k !in table' ==> exists i :: 0 <= i < |ids| && OrderlyUpTo(ids, i, recs, table) && recs[ids[i]].Owns(k, table[k])
  }

  lemma InTurnNext(ids: seq<SessionId>, n: nat, recs: Records, rows: Records, table: Table, recs1: Records, rows1: Records, table1: Table, table2: Table, foreign: Table)
    requires Withdrawn(ids, n, recs, rows, table, recs1, rows1, table1, foreign) && n < |ids| && ids[n] in recs1
    requires OrderlyUpTo(ids, n, recs, table) && InTurn(ids, recs, table, table1)
    requires forall k :: k in table1 && k !in table2 ==> recs1[ids[n]].Owns(k, table1[k])
    ensures InTurn(ids, recs, table, table2)
  {
    hide Shrinks, Free, Session.Owns, OrderlyUpTo;
    forall k | k in table && k !in table2
      ensures exists i :: 0 <= i < |ids| && OrderlyUpTo(ids, i, recs, table) && recs[ids[i]].Owns(k, table[k])
    {
      if k in table1 {
        assert recs[ids[n]].Owns(k, table[k]);
      }
    }
  }

  lemma NotYetOrderly(ids: seq<SessionId>, n: nat, recs: Records, table: Table)
    requires n <= |ids| && forall sid :: sid in ids ==> sid in recs
    ensures Orderly(ids, recs, table) ==> OrderlyUpTo(ids, n, recs, table)
  {
  }

  lemma RemainsNext(ids: seq<SessionId>, n: nat, recs: Records, table: Table, table': Table, table'': Table)
    requires n < |ids| && (forall sid :: sid in ids ==> sid in recs) && Remains(ids, n, recs, table, table')
    requires forall k :: k in table'' ==> k in table' && table''[k] == table'[k]
    requires forall k :: k in table' && k !in table'' ==> recs[ids[n]].Uses(k)
    requires Free(recs[ids[n]], table'')
    ensures Remains(ids, n + 1, recs, table, table'')
  {
  }

  /** Where a recovery stands after the first `n` sessions in line. */
  ghost predicate Withdrawn(ids: seq<SessionId>, n: nat, recs: Records, rows: Records, table: Table,
                            recs': Records, rows': Records, table': Table, foreign: Table)
  {
    && n <= |ids| && Listed(ids, recs) && Remains(ids, n, recs, table, table') && Shrinks(rows, table, rows', table', foreign)
    && Fewer(recs, rows, recs', rows') && (forall sid :: sid in recs && sid !in recs' ==> Free(recs[sid], foreign))
  }

  /** Some sessions are gone from memory and, with them, from the journal. */
  ghost predicate Fewer(recs: Records, rows: Records, recs': Records, rows': Records) {
    && (forall sid :: sid in recs' ==> sid in recs && recs'[sid] == recs[sid])
    && (forall sid :: sid in rows' <==> sid in rows && (sid in recs ==> sid in recs'))
    && (forall sid :: sid in rows' ==> rows'[sid] == rows[sid])
  }

  /** Where a recovery may have stopped. */
  ghost predicate Partly(recs: Records, rows: Records, table: Table, recs': Records, rows': Records, table': Table, foreign: Table) {
    && Shrinks(rows, table, rows', table', foreign) && (forall sid :: sid in recs' ==> sid in recs && recs'[sid].SameIntent(recs[sid]))
    && forall sid :: sid in rows' ==> sid in rows || sid in recs
  }

  lemma WithdrawnNone(ids: seq<SessionId>, recs: Records, rows: Records, table: Table, foreign: Table)
    requires Listed(ids, recs)
    ensures Withdrawn(ids, 0, recs, rows, table, recs, rows, table, foreign) && OrderlyUpTo(ids, 0, recs, table) && InTurn(ids, recs, table, table)
    ensures Listed(ids, recs) && ids[0..] == ids
  {
  }

  lemma WithdrawnSoFar(ids: seq<SessionId>, n: nat, recs: Records, rows: Records, table: Table,
                       recs1: Records, rows1: Records, table1: Table, recs2: Records, rows2: Records, table2: Table, foreign: Table)
    requires Withdrawn(ids, n, recs, rows, table, recs1, rows1, table1, foreign) && Shrinks(rows1, table1, rows2, table2, foreign)
    ensures Shrinks(rows, table, rows2, table2, foreign)
    ensures Partly(recs1, rows1, table1, recs2, rows2, table2, foreign) ==> Partly(recs, rows, table, recs2, rows2, table2, foreign)
  {
    hide Remains, Listed, Free;
    ShrinksCompose(rows, table, rows1, table1, rows2, table2, foreign);
    hide Shrinks;
  }

  lemma NextInLine(ids: seq<SessionId>, n: nat, line: seq<SessionId>, recs: Records)
    requires n < |ids| && line == ids[n..] && Listed(line, recs)
    ensures ids[n] in recs && Without(line, ids[n]) == ids[n + 1..]
  {
    WithoutDistinct(line, ids[n]);
    assert line[0] in recs;
  }

  lemma WithdrawnFacts(ids: seq<SessionId>, n: nat, recs: Records, rows: Records, table: Table, recs1: Records, rows1: Records, table1: Table, foreign: Table)
    requires Withdrawn(ids, n, recs, rows, table, recs1, rows1, table1, foreign) && n < |ids|
    ensures Listed(ids, recs) && ids[n] in recs && (Orderly(ids, recs, table) ==> OrderlyUpTo(ids, n + 1, recs, table))
  {
  }

  lemma WithdrawnOrderly(ids: seq<SessionId>, n: nat, recs: Records, rows: Records, table: Table, recs1: Records, rows1: Records, table1: Table, foreign: Table)
    requires Withdrawn(ids, n, recs, rows, table, recs1, rows1, table1, foreign) && n < |ids| && OrderlyUpTo(ids, n, recs, table)
    requires ids[n] in recs1
    ensures ids[n] in recs && recs1[ids[n]] == recs[ids[n]]
    ensures recs1[ids[n]].Removable(table1) <==> OrderlyUpTo(ids, n + 1, recs, table)
    ensures Listed(ids, recs) && (Orderly(ids, recs, table) ==> OrderlyUpTo(ids, n + 1, recs, table))
  {
    hide Shrinks, Free, Session.Removable, Session.Clears, Session.Uses, OrderlyUpTo, Orderly;
    OrderlyStep(ids, n, recs, table, table1);
    NotYetOrderly(ids, n + 1, recs, table);
  }

  lemma WithdrawnNext(ids: seq<SessionId>, n: nat, recs: Records, rows: Records, table: Table,
                      recs1: Records, rows1: Records, table1: Table, recs2: Records, rows2: Records, table2: Table, foreign: Table)
    requires Withdrawn(ids, n, recs, rows, table, recs1, rows1, table1, foreign) && Shrinks(rows1, table1, rows2, table2, foreign)
    requires n < |ids| && ids[n] in recs1 && recs2 == recs1 - {ids[n]} && rows2 == rows1 - {ids[n]}
    requires forall k :: k in table2 ==> k in table1 && table2[k] == table1[k]
    requires forall k :: k in table1 && k !in table2 ==> recs1[ids[n]].Uses(k)
    requires Free(recs1[ids[n]], table2) && Free(recs1[ids[n]], foreign)
    ensures Withdrawn(ids, n + 1, recs, rows, table, recs2, rows2, table2, foreign)
  {
    WithdrawnSoFar(ids, n, recs, rows, table, recs1, rows1, table1, recs2, rows2, table2, foreign);
    RemainsNext(ids, n, recs, table, table1, table2);
    FewerNext(recs, rows, recs1, rows1, ids[n]);
    hide Shrinks, Free, Session.Uses, Remains, Fewer, Listed;
  }

  lemma FewerNext(recs: Records, rows: Records, recs1: Records, rows1: Records, sid: SessionId)
    requires Fewer(recs, rows, recs1, rows1) && sid in recs1
    ensures Fewer(recs, rows, recs1 - {sid}, rows1 - {sid}) && recs1[sid] == recs[sid]
  {
  }

  lemma WithdrawnIsAll(ids: seq<SessionId>, recs: Records, rows: Records, table: Table,
                       recs': Records, rows': Records, table': Table, foreign: Table)
    requires Withdrawn(ids, |ids|, recs, rows, table, recs', rows', table', foreign) && Listed([], recs')
    ensures recs' == map[] && Shrinks(rows, table, rows', table', foreign) && Listed(ids, recs)
    ensures forall sid :: sid in rows' <==> sid in rows && sid !in recs
    ensures forall sid :: sid in rows' ==> rows'[sid] == rows[sid]
    ensures forall sid :: sid in recs ==> Free(recs[sid], foreign)
  {
    hide Shrinks, Remains, Free;
    assert forall sid :: sid !in recs';
  }

  lemma AllInLine(ids: seq<SessionId>, recs: Records, table: Table)
    ensures Listed(ids, recs) ==> (Orderly(ids, recs, table) <==> OrderlyUpTo(ids, |ids|, recs, table))
  {
  }

  lemma ClearIsOrderly(ids: seq<SessionId>, recs: Records, table: Table)
    requires forall sid :: sid in ids ==> sid in recs
    ensures Clear(recs, table) ==> Orderly(ids, recs, table)
  {
    hide IsVariant;
    if Clear(recs, table) {
      forall i, k | 0 <= i < |ids| && recs[ids[i]].Uses(k) && k in table
        ensures exists j :: 0 <= j <= i && recs[ids[j]].Clears(k, table[k])
      {
        assert recs[ids[i]].ClearIn(table) && recs[ids[i]].Clears(k, table[k]);
      }
    }
  }

  class Manager {
    const device: Adapter
    const journal: Store<SessionId, Session>
    var sessions: Records
    var order: seq<SessionId>      // the recorded sessions as the dictionary lists them
    var recoveryRequired: bool

    /** What survives process death at any point. */
    ghost predicate Durable()
      reads device, journal
    {
      && device.Valid()
      && Covers(journal.rows, device.table, device.foreign)
      && Unforged(journal.rows, device.foreign)
    }

    ghost predicate Valid()
      reads this, device, journal
    {
      && Durable()
      && Consistent(sessions, journal.rows, device.table, device.foreign)
      && Listed(order, sessions) && Suspected(sessions, journal.rows, journal.doubts)
      && (!recoveryRequired ==> Settled(sessions, journal.rows, device.table, device.foreign))
    }

    /** A restart trusts nothing it finds in the journal.  The rows come in the order of their keys. */
    constructor (device: Adapter, journal: Store<SessionId, Session>)
      requires device.Valid()
      requires Covers(journal.rows, device.table, device.foreign) && Unforged(journal.rows, device.foreign)
      modifies journal`doubts
      ensures Valid() && this.device == device && this.journal == journal
      ensures sessions == journal.rows && (recoveryRequired <==> sessions != map[])
      ensures journal.doubts == {} && Ascending(order)
    {
      var rows := journal.Load();
      var ids := RowOrder(rows.Keys);
      this.device, this.journal := device, journal;
      sessions, order := rows, ids;
      recoveryRequired := rows != map[];
    }

    method Save(sid: SessionId, s: Session) returns (r: Outcome)
      requires Listed(order, sessions)
      modifies this`sessions, this`order, this`recoveryRequired, journal`rows, journal`doubts
      ensures AgreeExcept(old(journal.rows), journal.rows, sid) && AgreeExcept(old(sessions), sessions, sid)
      ensures journal.rows == old(journal.rows) || (sid in journal.rows && journal.rows[sid] == s)
      ensures r.Done? ==> sid in journal.rows && journal.rows[sid] == s && sid in sessions && sessions[sid] == s
      ensures r.Done? ==> recoveryRequired == old(recoveryRequired)
      ensures Listed(order, sessions) && order == if r.Done? && sid !in old(sessions) then old(order) + [sid] else old(order)
      ensures !r.Done? ==> sessions == old(sessions)
      ensures r.Raised? ==> recoveryRequired
      ensures OnlyDoubts(sid, old(journal.doubts), journal.doubts) && (sid in journal.doubts <==> !r.Done?)
      ensures journal.healthy ==> r.Done?
      ensures !journal.healthy && journal.omen.Some? ==>
                r == journal.omen.value.Ending()
                && journal.rows == if journal.omen.value.TakesEffect() then old(journal.rows)[sid := s] else old(journal.rows)
    {
      r := journal.Put(sid, s);
      if r.Raised? {
        recoveryRequired := true;
      }
      :- r;
      sessions := sessions[sid := s];
      if sid !in order {
        order := order + [sid];
      }
      return Done;
    }

    method Forget(sid: SessionId) returns (r: Outcome)
      requires Listed(order, sessions)
      modifies this`sessions, this`order, this`recoveryRequired, journal`rows, journal`doubts
      ensures AgreeExcept(old(journal.rows), journal.rows, sid) && AgreeExcept(old(sessions), sessions, sid)
      ensures journal.rows == old(journal.rows) || sid !in journal.rows
      ensures r.Done? ==> sid !in journal.rows && sid !in sessions
      ensures r.Done? ==> recoveryRequired == old(recoveryRequired)
      ensures Listed(order, sessions) && order == if r.Done? then Without(old(order), sid) else old(order)
      ensures !r.Done? ==> sessions == old(sessions)
      ensures r.Raised? ==> recoveryRequired
      ensures OnlyDoubts(sid, old(journal.doubts), journal.doubts) && (sid in journal.doubts <==> !r.Done?)
      ensures journal.healthy ==> r.Done?
    {
      ListedWithout(order, sessions, sid);
      r := journal.Delete(sid);
      if r.Raised? {
        recoveryRequired := true;
      }
      :- r;
      sessions, order := sessions - {sid}, Without(order, sid);
      return Done;
    }

    /** Removes one entry if it is recognisably one's own, and confirms that it is gone. */
    method Withdraw(e: Entry) returns (r: Outcome)
      requires device.Valid()
      requires e.key in device.foreign ==> !IsVariant(device.foreign[e.key], e)
      modifies device`table
      ensures device.Valid()
      ensures device.table == old(device.table)
              || (e.key in old(device.table) && IsVariant(old(device.table)[e.key], e) && device.table == old(device.table) - {e.key})
      ensures r.Done? ==> e.key !in device.table
      ensures e.key in old(device.table) && !IsVariant(old(device.table)[e.key], e) ==> r.Raised?
      ensures device.healthy && (e.key in old(device.table) ==> IsVariant(old(device.table)[e.key], e)) ==> r.Done?
    {
      var found := device.Fetch(e.key);
      match found {
        case Unreadable =>
          return Raised;
        case Absent =>
        case Found(actual) =>
          if !IsVariant(Flow(actual), e) {
            return Raised;
          }
          :- device.Delete(e.key);
      }
      var after := device.Fetch(e.key);
      return if after.Absent? then Done else Raised;
    }

    /** Writes both entries in order, reading each back; `touched` of them may be in the table afterwards. */
    method Program(entries: seq<Entry>) returns (r: Outcome, touched: nat)
      requires device.Valid() && |entries| == 2 && entries[0].key != entries[1].key
      requires entries[0].key !in device.table && entries[1].key !in device.table
      modifies device`table
      ensures device.Valid()
      ensures touched <= 2
      ensures forall k :: k != entries[0].key && k != entries[1].key ==>
                (k in device.table <==> k in old(device.table)) && (k in device.table ==> device.table[k] == old(device.table)[k])
      ensures forall i :: 0 <= i < 2 && entries[i].key in device.table ==> i < touched && IsVariant(device.table[entries[i].key], entries[i])
      ensures r.Done? ==> forall i :: 0 <= i < 2 ==> entries[i].key in device.table && device.table[entries[i].key] == Flow(entries[i])
      ensures device.healthy && device.ready && (device.natQualified || !(entries[0].Translates() || entries[1].Translates())) ==> r.Done?
      ensures device.healthy ==> !r.Crashed?
    {
      touched := 0;
      while touched < 2
        invariant touched <= 2 && device.Valid()
        invariant forall k :: k != entries[0].key && k != entries[1].key ==>
                    (k in device.table <==> k in old(device.table)) && (k in device.table ==> device.table[k] == old(device.table)[k])
        invariant forall i :: 0 <= i < touched ==> entries[i].key in device.table && device.table[entries[i].key] == Flow(entries[i])
        invariant forall i :: touched <= i < 2 ==> entries[i].key !in device.table
      {
        var e := entries[touched];
        touched := touched + 1;
        r := device.Insert(e);
        if r.IsFailure() {
          return r, touched;
        }
        var after := device.Fetch(e.key);
        if after != Found(e) {
          return Raised, touched;
        }
      }
      return Done, touched;
    }

    /** Undoes the touched entries in reverse.  `clean` means every removal was confirmed. */
    method Rollback(entries: seq<Entry>, touched: nat) returns (r: Outcome, clean: bool)
      requires device.Valid() && |entries| == 2 && entries[0].key != entries[1].key && touched <= 2
      requires forall i :: 0 <= i < 2 ==> entries[i].key !in device.foreign
      requires forall i :: 0 <= i < 2 && entries[i].key in device.table ==> i < touched && IsVariant(device.table[entries[i].key], entries[i])
      modifies device`table
      ensures device.Valid()
      ensures !r.Raised?
      ensures forall k :: k in device.table ==> k in old(device.table) && device.table[k] == old(device.table)[k]
      ensures forall k :: k in old(device.table) && k != entries[0].key && k != entries[1].key ==> k in device.table
      ensures r.Done? && clean ==> entries[0].key !in device.table && entries[1].key !in device.table
      ensures device.healthy ==> r.Done? && clean
    {
      clean := true;
      var n: nat := touched;
      while n > 0
        invariant 0 <= n <= touched && device.Valid()
        invariant forall k :: k in device.table ==> k in old(device.table) && device.table[k] == old(device.table)[k]
        invariant forall k :: k in old(device.table) && k != entries[0].key && k != entries[1].key ==> k in device.table
        invariant clean ==> forall i :: n <= i < 2 ==> entries[i].key !in device.table
        invariant device.healthy ==> clean
      {
        n := n - 1;
        r := Withdraw(entries[n]);
        if r.Crashed? {
          return Crashed, false;
        }
        if r.Raised? {
          clean := false;
        }
      }
      return Done, clean;
    }

    method WithdrawBoth(s: Session) returns (r: Outcome)
      requires device.Valid()
      requires forall k :: k in device.foreign ==> !s.Owns(k, device.foreign[k])
      modifies device`table
      ensures device.Valid() && Thinner(old(device.table), device.table, device.foreign)
      ensures forall k :: k in old(device.table) && k !in device.table ==> s.Owns(k, old(device.table)[k])
      ensures r.Done? ==> Free(s, device.table)
      ensures (r.Done? ==> s.Removable(old(device.table))) && (device.healthy ==> !r.Crashed? && (s.Removable(old(device.table)) ==> r.Done?))
    {
      var entries := [s.forward, s.backward];
      for i := 0 to 2
        invariant device.table == if i == 0 then old(device.table) else if i == 1 then old(device.table) - {s.forward.key} else old(device.table) - {s.forward.key} - {s.backward.key}
        invariant i > 0 && entries[0].key in old(device.table) ==> IsVariant(old(device.table)[entries[0].key], entries[0])
        invariant device.Valid() && Thinner(old(device.table), device.table, device.foreign)
        invariant forall k :: k in old(device.table) && k !in device.table ==> s.Owns(k, old(device.table)[k])
        invariant forall j :: 0 <= j < i ==> entries[j].key !in device.table
      {
        :- Withdraw(entries[i]);
      }
      assert entries[0].key !in device.table && entries[1].key !in device.table;
      return Done;
    }

    /** The removal itself, with what can be said of it wherever it stops. */
    method RemoveRecorded(sid: SessionId) returns (r: Outcome)
      requires device.Valid() && sid in sessions && Listed(order, sessions)
      requires forall k :: k in device.foreign ==> !sessions[sid].Owns(k, device.foreign[k])
      requires if sid in journal.rows then journal.rows[sid].SameIntent(sessions[sid])
               else Vacant(sessions[sid], device.table, device.foreign)
      modifies this`sessions, this`order, this`recoveryRequired, journal`rows, journal`doubts, device`table
      ensures device.Valid()
      ensures Removing1(sid, old(sessions), old(journal.rows), old(device.table),
                        sessions, journal.rows, device.table, device.foreign)
      ensures forall k :: k in old(device.table) && k !in device.table ==> old(sessions)[sid].Owns(k, old(device.table)[k])
      ensures r.Done? ==> sid !in sessions && sid !in journal.rows && recoveryRequired == old(recoveryRequired)
      ensures r.Done? ==> Free(old(sessions)[sid], device.table)
      ensures r.Raised? ==> recoveryRequired && sid in sessions
      ensures !r.Crashed? && sid in journal.rows ==> sid in sessions
      ensures OnlyDoubts(sid, old(journal.doubts), journal.doubts)
      ensures order == if sid in sessions then old(order) else Without(old(order), sid)
      ensures r.Done? ==> old(sessions)[sid].Removable(old(device.table))
      ensures journal.healthy && device.healthy ==> !r.Crashed? && (old(sessions)[sid].Removable(old(device.table)) ==> r.Done?)
    {
      hide Listed, Without, Thinner, Vacant, AgreeExcept, IsVariant, Session.Owns, Session.Removable, Free;
      var s := sessions[sid].(stage := Removing);
      ghost var recs, rows := sessions, journal.rows;
      AgreeRefl(recs, sid);
      AgreeRefl(rows, sid);
      ThinnerRefl(device.table, device.foreign);
      StageOnly(recs[sid], s, device.table, device.foreign);
      r := Save(sid, s);
      var saved := r.Done?;
      if saved {
        r := WithdrawBoth(s);
        if r.Done? {
          FreeIsVacant(recs[sid], s, device.table, device.foreign);
          ghost var recs1, rows1 := sessions, journal.rows;
          r := Forget(sid);
          AgreeTrans(recs, recs1, sessions, sid);
          AgreeTrans(rows, rows1, journal.rows, sid);
          return;
        }
      }
      if r.Raised? {
        ghost var recs1, rows1 := sessions, journal.rows;
        r := GiveUp(sid, s, saved);
        AgreeTrans(recs, recs1, sessions, sid);
        AgreeTrans(rows, rows1, journal.rows, sid);
      }
    }

    /** Fences after a failed removal and records the session as unknown; a record that memory shares with the removal is
        updated in place. */
    method GiveUp(sid: SessionId, s: Session, shared: bool) returns (r: Outcome)
      requires Listed(order, sessions) && sid in sessions && s.SameIntent(sessions[sid])
      modifies this`sessions, this`order, this`recoveryRequired, journal`rows, journal`doubts
      ensures !r.Done? && (r.Raised? ==> recoveryRequired) && Listed(order, sessions) && order == old(order)
      ensures sid in sessions && sessions[sid].SameIntent(old(sessions)[sid]) && (sid in journal.rows ==> journal.rows[sid].SameIntent(old(sessions)[sid]) || (sid in old(journal.rows) && journal.rows[sid] == old(journal.rows)[sid]))
      ensures sid in old(journal.rows) ==> sid in journal.rows
      ensures AgreeExcept(old(sessions), sessions, sid) && AgreeExcept(old(journal.rows), journal.rows, sid)
      ensures OnlyDoubts(sid, old(journal.doubts), journal.doubts)
      ensures journal.healthy ==> r.Raised?
    {
      recoveryRequired := true;
      if shared {
        sessions := sessions[sid := s.(stage := Unknown)];
      }
      r := Save(sid, s.(stage := Unknown));
      r := if r.Crashed? then Crashed else Raised;
    }

    method Remove(sid: SessionId) returns (r: Outcome)
      requires Valid()
      modifies this`sessions, this`order, this`recoveryRequired, journal`rows, journal`doubts, device`table
      ensures r.Crashed? ==> Durable()
      ensures !r.Crashed? ==> Valid()
      ensures Shrinks(old(journal.rows), old(device.table), journal.rows, device.table, device.foreign)
      ensures forall k :: k in old(device.table) && k !in device.table ==>
                sid in old(sessions) && old(sessions)[sid].Owns(k, old(device.table)[k])
      ensures AgreeExcept(old(journal.rows), journal.rows, sid) && AgreeExcept(old(sessions), sessions, sid)
      ensures sid !in old(sessions) ==> r.Raised? && sessions == old(sessions) && recoveryRequired == old(recoveryRequired)
      ensures sid !in old(sessions) ==> journal.rows == old(journal.rows) && device.table == old(device.table)
      ensures r.Done? ==> sessions == old(sessions) - {sid} && journal.rows == old(journal.rows) - {sid}
      ensures r.Done? ==> recoveryRequired == old(recoveryRequired)
      ensures r.Done? ==> Free(old(sessions)[sid], device.table)
      ensures r.Raised? && sid in old(sessions) ==> recoveryRequired && sid in sessions && sessions[sid].SameIntent(old(sessions)[sid])
      ensures !r.Crashed? ==> forall other :: other in sessions ==> other in old(sessions) && sessions[other].SameIntent(old(sessions)[other])
      ensures order == if sid in old(sessions) && sid !in sessions then Without(old(order), sid) else old(order)
      ensures OnlyDoubts(sid, old(journal.doubts), journal.doubts)
      ensures r.Done? ==> old(sessions)[sid].Removable(old(device.table))
      ensures journal.healthy && device.healthy && sid in old(sessions) ==>
                !r.Crashed? && (old(sessions)[sid].Removable(old(device.table)) ==> r.Done?)
    {
      if sid !in sessions {
        return Raised;
      }
      ListedWithout(order, sessions, sid);
      ghost var recs, rows, table, doubts := sessions, journal.rows, device.table, journal.doubts;
      r := RemoveRecorded(sid);
      hide Covers, Unforged, Settled, Shrinks, Backed, Removing1, AgreeExcept, Vacant, Session.Owns, IsVariant, Session.Removable, Without, OnlyDoubts, Suspected,
        Listed, Thinner, Free, Session.SameIntent;
      RemovalConsistent(sid, recs, rows, table, sessions, journal.rows, device.table, device.foreign);
      RemovalResult(sid, recs, rows, table, sessions, journal.rows, device.table, device.foreign, doubts, journal.doubts, old(order));
      if r.Done? && !recoveryRequired {
        SettledWithout(sid, recs, rows, table, device.table, device.foreign);
      }
    }

    /** Looks up both keys before either direction is touched. */
    method Preflight(entries: seq<Entry>) returns (free: bool)
      requires device.Valid() && |entries| == 2
      ensures free ==> entries[0].key !in device.table && entries[1].key !in device.table
      ensures device.healthy && entries[0].key !in device.table && entries[1].key !in device.table ==> free
    {
      for i := 0 to 2
        invariant forall j :: 0 <= j < i ==> entries[j].key !in device.table
      {
        var found := device.Fetch(entries[i].key);
        if !found.Absent? {
          return false;
        }
      }
      return true;
    }

    /** Programs both directions, or undoes what was touched.  `clean` means the table is as it was. */
    method ProgramOrUndo(s: Session) returns (r: Outcome, clean: bool)
      requires device.Valid()
      requires s.forward.key != s.backward.key && s.forward.key !in device.table && s.backward.key !in device.table
      modifies device`table
      ensures device.Valid()
      ensures forall k :: k in old(device.table) ==> k in device.table && device.table[k] == old(device.table)[k]
      ensures forall k :: k in device.table && k !in old(device.table) ==> s.Uses(k) && s.Owns(k, device.table[k])
      ensures r.Done? ==> InPlace(s, device.table, device.foreign)
      ensures r.Raised? && clean ==> device.table == old(device.table)
      ensures device.healthy ==> r.Done? || (r.Raised? && clean)
      ensures device.healthy && device.ready && (device.natQualified || !(s.forward.Translates() || s.backward.Translates())) ==> r.Done?
    {
      var touched;
      var entries := [s.forward, s.backward];
      r, touched := Program(entries);
      assert entries[0] == s.forward && entries[1] == s.backward;
      clean := true;
      if r.Raised? {
        r, clean := Rollback(entries, touched);
        r := if r.Crashed? then Crashed else Raised;
      }
    }

    /** Records how the programming of a journaled session ended. */
    method Conclude(sid: SessionId, s: Session, programmed: bool, clean: bool) returns (r: Outcome)
      requires sid in sessions && sid in journal.rows && !recoveryRequired && Listed(order, sessions)
      requires sessions[sid].SameIntent(s) && journal.rows[sid].SameIntent(s)
      modifies this`sessions, this`order, this`recoveryRequired, journal`rows, journal`doubts
      ensures AgreeExcept(old(sessions), sessions, sid) && AgreeExcept(old(journal.rows), journal.rows, sid)
      ensures sid in sessions ==> sessions[sid].SameIntent(s)
      ensures sid in journal.rows ==> journal.rows[sid].SameIntent(s)
      ensures programmed || !clean ==> sid in sessions && sid in journal.rows
      ensures r.Done? ==> programmed && !recoveryRequired && sessions[sid] == journal.rows[sid] == s.(stage := Installed)
      ensures r.Raised? && !recoveryRequired ==> !programmed && clean && sid !in sessions && sid !in journal.rows
      ensures r.Raised? && sid in journal.rows ==> sid in sessions
      ensures OnlyDoubts(sid, old(journal.doubts), journal.doubts)
      ensures Listed(order, sessions) && (r.Done? ==> order == old(order))
      ensures journal.healthy ==> if programmed then r.Done? else r.Raised? && (recoveryRequired <==> !clean)
    {
      hide Listed, Without, AgreeExcept;
      if programmed {
        r := Save(sid, s.(stage := Installed));
      } else {
        if clean {
          r := Forget(sid);
        } else {
          recoveryRequired := true;
          r := Save(sid, s.(stage := Unknown));
        }
        r := if r.Crashed? then Crashed else Raised;
      }
    }

    /** The part of an install after its preflight: write intent, program, read back, roll back. */
    method InstallPrepared(sid: SessionId, s: Session) returns (r: Outcome)
      requires device.Valid() && sid !in sessions && !recoveryRequired && Listed(order, sessions)
      requires s.forward.key != s.backward.key && s.forward.key !in device.table && s.backward.key !in device.table
      modifies this`sessions, this`order, this`recoveryRequired, journal`rows, journal`doubts, device`table
      ensures device.Valid()
      ensures Installing1(sid, s, old(sessions), old(journal.rows), old(device.table), sessions, journal.rows, device.table)
      ensures sid in journal.rows ==> journal.rows[sid].SameIntent(s) || (sid in old(journal.rows) && journal.rows[sid] == old(journal.rows)[sid])
      ensures r.Done? ==> !recoveryRequired && sid in sessions && sid in journal.rows && sessions[sid] == journal.rows[sid] == s.(stage := Installed)
      ensures r.Done? ==> InPlace(s, device.table, device.foreign)
      ensures !r.Crashed? && sid in journal.rows ==> sid in sessions || sid in journal.doubts
      ensures OnlyDoubts(sid, old(journal.doubts), journal.doubts)
      ensures Listed(order, sessions) && (r.Done? ==> order == old(order) + [sid])
      ensures !journal.healthy && journal.omen.Some? ==>
                if journal.omen.value.Ending().Done? then true
                else r == journal.omen.value.Ending() && sessions == old(sessions) && device.table == old(device.table)
                     && (r.Raised? ==> recoveryRequired && sid in journal.doubts)
                     && journal.rows == if journal.omen.value.TakesEffect() then old(journal.rows)[sid := s.(stage := Installing)] else old(journal.rows)
      ensures r.Raised? && !recoveryRequired ==> device.table == old(device.table) && sid !in sessions && sid !in journal.rows
      ensures journal.healthy && device.healthy && device.ready && (device.natQualified || !(s.forward.Translates() || s.backward.Translates()))
              ==> r.Done?
      ensures journal.healthy && device.healthy ==> r.Done? || (r.Raised? && !recoveryRequired)
    {
      hide Session.Owns, InPlace, Entry.Translates, Listed, IsVariant;
      :- Save(sid, s.(stage := Installing));
      var clean;
      r, clean := ProgramOrUndo(s);
      if r.Crashed? {
        return;
      }
      r := Conclude(sid, s, r.Done?, clean);
    }

    method Install(sid: int, entries: seq<Entry>, revision: int, zones: Option<seq<int>>) returns (r: Outcome)
      requires Valid()
      modifies this`sessions, this`order, this`recoveryRequired, journal`rows, journal`doubts, device`table
      ensures r.Crashed? ==> Durable()
      ensures !r.Crashed? ==> Valid()
      // nothing happens unless every check passes
      ensures !(Uint(sid, U32) && Uint(revision, U32 * U32) && Acceptable(entries, zones)) || old(recoveryRequired) || sid in old(sessions)
              ==> r.Raised? && sessions == old(sessions) && journal.rows == old(journal.rows) && device.table == old(device.table)
      // whatever changes is this session's, and is recorded before it is written
      ensures Uint(sid, U32) && Uint(revision, U32 * U32) && |entries| == 2
              ==> InstallEffect(sid, Session(entries[0], entries[1], revision, Installed),
                                old(sessions), old(journal.rows), old(device.table), sessions, journal.rows, device.table)
      ensures r.Done? ==> Uint(sid, U32) && Uint(revision, U32 * U32) && Acceptable(entries, zones)
      ensures r.Done? ==> !recoveryRequired && sid !in old(sessions) && sessions == old(sessions)[sid := Session(entries[0], entries[1], revision, Installed)]
      // both entries are in hardware as given, and nothing else has changed there
      ensures r.Done? ==> device.table == old(device.table)[entries[0].key := Flow(entries[0])][entries[1].key := Flow(entries[1])]
      ensures !device.ready || (|entries| == 2 && (entries[0].key in old(device.table) || entries[1].key in old(device.table)))
              ==> r.Raised? && sessions == old(sessions) && journal.rows == old(journal.rows) && device.table == old(device.table)
      // all or nothing
      ensures r.Raised? && !recoveryRequired ==> device.table == old(device.table) && sessions == old(sessions)
      ensures r.Raised? && sid !in old(sessions) && Uint(sid, U32) && sid in sessions ==> recoveryRequired
      // and it does succeed
      ensures journal.healthy && device.healthy && device.ready && device.natQualified && !old(recoveryRequired)
              && Uint(sid, U32) && Uint(revision, U32 * U32) && Acceptable(entries, zones) && sid !in old(sessions)
              && entries[0].key !in old(device.table) && entries[1].key !in old(device.table)
              ==> r.Done?
      ensures r.Done? ==> order == old(order) + [sid]
      ensures if Uint(sid, U32) then OnlyDoubts(sid, old(journal.doubts), journal.doubts) else journal.doubts == old(journal.doubts)
      // a journal that raises leaves the manager fenced and in doubt about this row alone, written or not
      ensures !journal.healthy && (journal.omen == Some(LostBefore) || journal.omen == Some(LostAfter))
              && device.healthy && device.ready && !old(recoveryRequired)
              && Uint(sid, U32) && Uint(revision, U32 * U32) && Acceptable(entries, zones) && sid !in old(sessions)
              && entries[0].key !in old(device.table) && entries[1].key !in old(device.table)
              ==> r.Raised? && recoveryRequired && sessions == old(sessions) && device.table == old(device.table) && sid in journal.doubts
                  && journal.rows == if journal.omen == Some(LostAfter)
                                     then old(journal.rows)[sid := Session(entries[0], entries[1], revision, Installing)] else old(journal.rows)
    {
      if !Uint(sid, U32) || !Uint(revision, U32 * U32) || recoveryRequired || !device.ready {
        return Raised;
      }
      if sid in sessions || !Acceptable(entries, zones) {
        return Raised;
      }
      assert |entries| == 2 && entries[0].key != entries[1].key;
      hide Covers, Unforged, Settled, Backed, Acceptable, Installing1, InPlace, AgreeExcept, Listed, Suspected;
      var free := Preflight(entries);
      if !free {
        return Raised;
      }
      var s := Session(entries[0], entries[1], revision, Installed);
      ghost var recs, rows, table, doubts := sessions, journal.rows, device.table, journal.doubts;
      r := InstallPrepared(sid, s);
      SuspectedAfterInstall(sid, s, recs, rows, doubts, table, sessions, journal.rows, journal.doubts, device.table);
      InstallConsistent(sid, s, recs, rows, table, sessions, journal.rows, device.table, device.foreign);
      InstallResult(sid, s, recs, rows, table, sessions, journal.rows, device.table);
      if r.Done? {
        SettledWith(sid, s, recs, rows, table, sessions, journal.rows, device.table, device.foreign);
        BothInPlace(sid, s, recs, rows, table, sessions, journal.rows, device.table, device.foreign);
      } else if r.Raised? && !recoveryRequired {
        StillSettled(sid, recs, rows, journal.rows, table, device.foreign);
      }
    }

    /** The same, for a session given as a whole. */
    method InstallSession(sid: SessionId, s: Session, zones: seq<int>) returns (r: Outcome)
      requires Valid() && s.stage.Installed?
      modifies this`sessions, this`order, this`recoveryRequired, journal`rows, journal`doubts, device`table
      ensures r.Crashed? ==> Durable()
      ensures !r.Crashed? ==> Valid()
      ensures InstallEffect(sid, s, old(sessions), old(journal.rows), old(device.table), sessions, journal.rows, device.table)
      ensures r.Done? ==> !recoveryRequired && sid !in old(sessions) && sessions == old(sessions)[sid := s]
      ensures r.Done? ==> device.table == old(device.table)[s.forward.key := Flow(s.forward)][s.backward.key := Flow(s.backward)]
      ensures r.Raised? && !recoveryRequired ==> device.table == old(device.table) && sessions == old(sessions)
      ensures journal.healthy && device.healthy && device.ready && device.natQualified && !old(recoveryRequired)
              && Acceptable([s.forward, s.backward], Some(zones)) && sid !in old(sessions) && Free(s, old(device.table))
              ==> r.Done?
    {
      hide Valid, Durable, InstallEffect, Acceptable;
      r := Install(sid, [s.forward, s.backward], s.revision, Some(zones));
      assert s == Session(s.forward, s.backward, s.revision, Installed);
    }

    /** Removes every recorded session by exact ownership; conflicts stop it and keep the manager fenced. */
    method Recover() returns (r: Outcome)
      requires Valid()
      modifies this`sessions, this`order, this`recoveryRequired, journal`rows, journal`doubts, device`table
      ensures r.Crashed? ==> Durable()
      ensures !r.Crashed? ==> Valid()
      ensures Shrinks(old(journal.rows), old(device.table), journal.rows, device.table, device.foreign)
      ensures !r.Crashed? ==> forall sid :: sid in sessions ==> sid in old(sessions) && sessions[sid].SameIntent(old(sessions)[sid])
      ensures r.Raised? ==> recoveryRequired && forall sid :: sid in journal.rows ==> sid in old(journal.rows) || sid in old(sessions)
      ensures DoubtsWithin(old(sessions), old(journal.doubts), journal.doubts)
      ensures r.Done? ==> !recoveryRequired && sessions == map[]
      ensures r.Done? ==> forall sid :: sid in journal.rows <==> sid in old(journal.rows) && sid !in old(sessions)
      ensures r.Done? ==> forall sid :: sid in journal.rows ==> journal.rows[sid] == old(journal.rows)[sid]
      // a completed recovery leaves exactly what others wrote, and none of it stood under a recorded key
      ensures r.Done? ==> device.table == device.foreign
      ensures r.Done? ==> forall sid :: sid in old(sessions) ==> Free(old(sessions)[sid], device.foreign)
      // it completes only if nobody stands in line before the owner of an entry, and with working calls whenever that is so
      ensures Listed(old(order), old(sessions)) && InTurn(old(order), old(sessions), old(device.table), device.table)
      ensures r.Done? ==> Orderly(old(order), old(sessions), old(device.table))
      ensures journal.healthy && device.healthy ==> !r.Crashed? && (Orderly(old(order), old(sessions), old(device.table)) ==> r.Done?)
      ensures journal.healthy && device.healthy && Clear(old(sessions), old(device.table)) ==> r.Done?
    {
      ghost var recs, rows, table := sessions, journal.rows, device.table;
      ClearIsOrderly(order, recs, table);
      hide Valid, Durable, Orderly, Session.ClearIn, Clear, IsVariant, Withdrawn, Listed, Free, Shrinks, InTurn, DoubtsWithin;
      SetFence(true);
      r := WithdrawAll(order);
      if r.Done? {
        WithdrawnIsAll(old(order), recs, rows, table, sessions, journal.rows, device.table, device.foreign);
        SetFence(false);
      }
    }

    /** The fence may always be set, and lifted once nothing is recorded. */
    method SetFence(fence: bool)
      requires Valid() && (!fence ==> sessions == map[])
      modifies this`recoveryRequired
      ensures Valid() && recoveryRequired == fence
      ensures Listed(order, sessions) && (!fence ==> device.table == device.foreign)
    {
      if !fence {
        NothingRecorded(journal.rows, device.table, device.foreign);
      }
      hide Consistent, Settled, Suspected, Listed;
      recoveryRequired := fence;
    }

    /** The removals of a recovery, in line. */
    method WithdrawAll(ids: seq<SessionId>) returns (r: Outcome)
      requires Valid() && recoveryRequired && ids == order
      modifies this`sessions, this`order, this`recoveryRequired, journal`rows, journal`doubts, device`table
      ensures r.Crashed? ==> Durable()
      ensures !r.Crashed? ==> Valid() && recoveryRequired
      ensures Listed(ids, old(sessions)) && DoubtsWithin(old(sessions), old(journal.doubts), journal.doubts)
      ensures if r.Done? then Listed([], sessions) && Withdrawn(ids, |ids|, old(sessions), old(journal.rows), old(device.table), sessions, journal.rows, device.table, device.foreign)
              else Shrinks(old(journal.rows), old(device.table), journal.rows, device.table, device.foreign)
      ensures r.Raised? ==> Partly(old(sessions), old(journal.rows), old(device.table), sessions, journal.rows, device.table, device.foreign)
      ensures InTurn(ids, old(sessions), old(device.table), device.table)
      ensures r.Done? ==> Orderly(ids, old(sessions), old(device.table))
      ensures journal.healthy && device.healthy ==> !r.Crashed? && (Orderly(ids, old(sessions), old(device.table)) ==> r.Done?)
    {
      ghost var recs, rows, table := sessions, journal.rows, device.table;
      InLine();
      hide Valid, Durable, Listed, Withdrawn, Orderly, OrderlyUpTo, Shrinks, Session.Removable, Without, Free, Partly, OnlyDoubts, DoubtsWithin, InTurn;
      DoubtsWithinNone(recs, journal.doubts);
      WithdrawnNone(ids, recs, rows, table, device.foreign);
      for n := 0 to |ids|
        invariant recoveryRequired && Valid() && order == ids[n..]
        invariant DoubtsWithin(recs, old(journal.doubts), journal.doubts)
        invariant Withdrawn(ids, n, recs, rows, table, sessions, journal.rows, device.table, device.foreign)
        invariant Listed(ids, recs) && OrderlyUpTo(ids, n, recs, table) && InTurn(ids, recs, table, device.table)
      {
        ghost var doubts := journal.doubts;
        r := WithdrawNext(ids, n, recs, rows, table);
        DoubtsWithinNext(recs, old(journal.doubts), doubts, journal.doubts, ids[n]);
        if r.IsFailure() {
          return;
        }
      }
      AllInLine(ids, recs, table);
      InLine();
      r := Done;
    }

    lemma InLine()
      requires Valid()
      ensures Listed(order, sessions)
    {
    }

    /** The next removal of a recovery that began with these records and this table. */
    method WithdrawNext(ids: seq<SessionId>, n: nat, ghost recs: Records, ghost rows: Records, ghost table: Table) returns (r: Outcome)
      requires Valid() && recoveryRequired && n < |ids| && order == ids[n..]
      requires Withdrawn(ids, n, recs, rows, table, sessions, journal.rows, device.table, device.foreign)
      requires Listed(ids, recs) && OrderlyUpTo(ids, n, recs, table) && InTurn(ids, recs, table, device.table)
      modifies this`sessions, this`order, this`recoveryRequired, journal`rows, journal`doubts, device`table
      ensures r.Crashed? ==> Durable()
      ensures !r.Crashed? ==> Valid() && recoveryRequired
      ensures ids[n] in recs && OnlyDoubts(ids[n], old(journal.doubts), journal.doubts)
      ensures Listed(ids, recs) && Shrinks(rows, table, journal.rows, device.table, device.foreign)
      ensures r.Raised? ==> Partly(recs, rows, table, sessions, journal.rows, device.table, device.foreign)
      ensures r.Done? ==> order == ids[n + 1..] && Withdrawn(ids, n + 1, recs, rows, table, sessions, journal.rows, device.table, device.foreign)
      ensures InTurn(ids, recs, table, device.table) && (r.Done? ==> OrderlyUpTo(ids, n + 1, recs, table))
      ensures journal.healthy && device.healthy ==> !r.Crashed? && (OrderlyUpTo(ids, n + 1, recs, table) ==> r.Done?)
      ensures Orderly(ids, recs, table) ==> OrderlyUpTo(ids, n + 1, recs, table)
    {
      hide Consistent, Settled, Suspected, Withdrawn, Orderly, OrderlyUpTo, Shrinks, Session.Removable, Without, Free, Covers, Unforged, Partly, InTurn, Session.Owns,
        OnlyDoubts;
      NextInLine(ids, n, order, sessions);
      hide Valid, Listed, Durable;
      ghost var recs1, rows1, table1 := sessions, journal.rows, device.table;
      WithdrawnFacts(ids, n, recs, rows, table, recs1, rows1, table1, device.foreign);
      r := Recovered(ids[n]);
      WithdrawnSoFar(ids, n, recs, rows, table, recs1, rows1, table1, sessions, journal.rows, device.table, device.foreign);
      WithdrawnOrderly(ids, n, recs, rows, table, recs1, rows1, table1, device.foreign);
      InTurnNext(ids, n, recs, rows, table, recs1, rows1, table1, device.table, device.foreign);
      if r.Done? {
        WithdrawnNext(ids, n, recs, rows, table, recs1, rows1, table1, sessions, journal.rows, device.table, device.foreign);
      }
    }

    /** One removal of a recovery. */
    method Recovered(sid: SessionId) returns (r: Outcome)
      requires Valid() && sid in sessions && recoveryRequired
      modifies this`sessions, this`order, this`recoveryRequired, journal`rows, journal`doubts, device`table
      ensures r.Crashed? ==> Durable()
      ensures !r.Crashed? ==> Valid() && recoveryRequired
      ensures Shrinks(old(journal.rows), old(device.table), journal.rows, device.table, device.foreign)
      ensures forall k :: k in device.table ==> k in old(device.table) && device.table[k] == old(device.table)[k]
      ensures forall k :: k in old(device.table) && k !in device.table ==> old(sessions)[sid].Uses(k) && old(sessions)[sid].Owns(k, old(device.table)[k])
      ensures r.Done? ==> sessions == old(sessions) - {sid} && journal.rows == old(journal.rows) - {sid} && order == Without(old(order), sid)
      ensures r.Done? ==> Free(old(sessions)[sid], device.table) && Free(old(sessions)[sid], device.foreign)
      ensures r.Raised? ==> Partly(old(sessions), old(journal.rows), old(device.table), sessions, journal.rows, device.table, device.foreign)
      ensures OnlyDoubts(sid, old(journal.doubts), journal.doubts)
      ensures r.Done? ==> old(sessions)[sid].Removable(old(device.table))
      ensures journal.healthy && device.healthy ==> !r.Crashed? && (old(sessions)[sid].Removable(old(device.table)) ==> r.Done?)
    {
      hide Consistent, Settled, Suspected, Listed, Covers, Unforged, Vacant, AgreeExcept, IsVariant, Without, Session.Removable, OnlyDoubts;
      ghost var rows := journal.rows;
      r := Remove(sid);
      hide Shrinks;
      AgreeKeys(rows, journal.rows, sid);
    }

    /** Removes the sessions of every other policy revision. */
    method InvalidatePolicy(revision: Revision) returns (r: Outcome)
      requires Valid()
      modifies this`sessions, this`order, this`recoveryRequired, journal`rows, journal`doubts, device`table
      ensures r.Crashed? ==> Durable()
      ensures !r.Crashed? ==> Valid()
      ensures Shrinks(old(journal.rows), old(device.table), journal.rows, device.table, device.foreign)
      ensures r.Done? ==> sessions == map sid | sid in old(sessions) && old(sessions)[sid].revision == revision :: old(sessions)[sid]
      ensures r.Done? ==> recoveryRequired == old(recoveryRequired)
      ensures r.Raised? ==> recoveryRequired
    {
      var ids := order;
      ghost var recs, rows, table := sessions, journal.rows, device.table;
      ShrinksRefl(rows, table, device.foreign);
      SiftedNone(ids, recs, revision);
      hide Valid, Durable, Shrinks, Sifted, AgreeExcept, OnlyDoubts, Without, Free, Session.Removable, Session.Owns, Session.SameIntent;
      for n := 0 to |ids|
        invariant Valid() && recoveryRequired == old(recoveryRequired)
        invariant Sifted(ids, n, recs, sessions, revision) && Shrinks(rows, table, journal.rows, device.table, device.foreign)
      {
        var sid := ids[n];
        SiftedNext(ids, n, recs, sessions, revision);
        if sid in sessions && sessions[sid].revision != revision {
          ghost var rows1, table1 := journal.rows, device.table;
          r := Remove(sid);
          ShrinksCompose(rows, table, rows1, table1, journal.rows, device.table, device.foreign);
          if r.IsFailure() {
            return;
          }
        }
      }
      SiftedAll(ids, recs, sessions, revision);
      r := Done;
    }
  }

  /** Of the sessions listed so far those of one revision are left, and all others. */
  ghost predicate Sifted(ids: seq<SessionId>, n: nat, recs: Records, recs': Records, revision: Revision) {
    && n <= |ids| && Listed(ids, recs)
    && (forall sid :: sid in recs' ==> sid in recs && recs'[sid] == recs[sid])
    && forall i :: 0 <= i < |ids| ==> (ids[i] in recs' <==> i >= n || recs[ids[i]].revision == revision)
  }

  lemma SiftedNone(ids: seq<SessionId>, recs: Records, revision: Revision)
    ensures Listed(ids, recs) ==> Sifted(ids, 0, recs, recs, revision)
  {
  }

  lemma SiftedNext(ids: seq<SessionId>, n: nat, recs: Records, recs': Records, revision: Revision)
    requires Sifted(ids, n, recs, recs', revision) && n < |ids|
    ensures ids[n] in recs'
    ensures Sifted(ids, n + 1, recs, if recs'[ids[n]].revision == revision then recs' else recs' - {ids[n]}, revision)
  {
  }

  lemma SiftedAll(ids: seq<SessionId>, recs: Records, recs': Records, revision: Revision)
    requires Sifted(ids, |ids|, recs, recs', revision)
    ensures recs' == map sid | sid in recs && recs[sid].revision == revision :: recs[sid]
  {
    forall sid | sid in recs
      ensures sid in recs' <==> recs[sid].revision == revision
    {
      var i :| 0 <= i < |ids| && ids[i] == sid;
    }
  }

  // ------------------------------------------------------------------ whole runs

  /** The table and its foreign part after another party's write or removal under one key. */
  ghost predicate Outsided(k: Key, table: Table, foreign: Table, table': Table, foreign': Table) {
    && (forall j :: j != k ==> (j in table <==> j in table') && (j in table ==> table'[j] == table[j]))
    && (forall j :: j != k ==> (j in foreign <==> j in foreign') && (j in foreign ==> foreign'[j] == foreign[j]))
    && (if k in table' then k in foreign' && table'[k] == foreign'[k] else k in foreign && k !in foreign')
  }

  lemma OutsideConsistent(k: Key, sessions: Records, rows: Records, table: Table, foreign: Table, table': Table, foreign': Table)
    requires Consistent(sessions, rows, table, foreign) && Outsided(k, table, foreign, table', foreign')
    requires k in foreign' ==> forall sid :: sid in sessions ==> !sessions[sid].Owns(k, foreign'[k])
    requires k in foreign' ==> forall sid :: sid in rows ==> !rows[sid].Owns(k, foreign'[k])
    ensures Consistent(sessions, rows, table', foreign')
  {
  }

  lemma OutsideSettled(k: Key, sessions: Records, rows: Records, table: Table, foreign: Table, table': Table, foreign': Table)
    requires Settled(sessions, rows, table, foreign) && Outsided(k, table, foreign, table', foreign')
    requires k in foreign' || forall sid :: sid in sessions ==> !sessions[sid].Uses(k)
    ensures Settled(sessions, rows, table', foreign')
  {
  }

  datatype Call =
    | InstallCall(sid: int, entries: seq<Entry>, revision: int, zones: Option<seq<int>>)
    | RemoveCall(id: SessionId)
    | RecoverCall
    | InvalidateCall(keep: Revision)
    | RestartCall
    | OutsideCall(key: Key, cell: Option<Cell>)
    | WeatherCall(healthy: bool, ready: bool, natQualified: bool)

  /** The outside party's write is one it may make: it forges no entry, deletes only its own, and does not
      clear a key that it took from a recorded session. */
  predicate FairWrite(m: Manager, k: Key, c: Option<Cell>)
    reads m, m.device, m.journal
  {
    match c
    case None => k in m.device.foreign && forall sid :: sid in m.sessions ==> !m.sessions[sid].Uses(k)
    case Some(cell) =>
      && (cell.Flow? ==> cell.entry.key == k)
      && (forall sid :: sid in m.sessions ==> !m.sessions[sid].Owns(k, cell))
      && (forall sid :: sid in m.journal.rows ==> !m.journal.rows[sid].Owns(k, cell))
  }

  /** One call, restarting the manager when the process died in it. */
  method Step(m: Manager, call: Call) returns (next: Manager)
    requires m.Valid()
    modifies m, m.device, m.journal
    ensures next.device == m.device && next.journal == m.journal && next.Valid()
    ensures next == m || fresh(next)
  {
    var r := Done;
    next := m;
    match call {
      case InstallCall(sid, entries, revision, zones) => r := m.Install(sid, entries, revision, zones);
      case RemoveCall(sid) => r := m.Remove(sid);
      case RecoverCall => r := m.Recover();
      case InvalidateCall(revision) => r := m.InvalidatePolicy(revision);
      case RestartCall => r := Crashed;
      case OutsideCall(k, c) => OutsideWrite(m, k, c);
      case WeatherCall(healthy, ready, qualified) =>
        m.device.healthy, m.device.ready, m.device.natQualified, m.journal.healthy := healthy, ready, qualified, healthy;
    }
    if r.Crashed? {
      next := new Manager(m.device, m.journal);
    }
  }

  /** Another party's write, when it is a fair one. */
  method OutsideWrite(m: Manager, k: Key, c: Option<Cell>)
    requires m.Valid()
    modifies m.device
    ensures m.Valid()
  {
    if FairWrite(m, k, c) {
      ghost var table, foreign := m.device.table, m.device.foreign;
      m.device.Outside(k, c);
      OutsideConsistent(k, m.sessions, m.journal.rows, table, foreign, m.device.table, m.device.foreign);
      if !m.recoveryRequired {
        OutsideSettled(k, m.sessions, m.journal.rows, table, foreign, m.device.table, m.device.foreign);
      }
    }
  }

  /** Any run from an empty journal over any table, with faults, deaths and outside writers anywhere. */
  method Run(device: Adapter, journal: Store<SessionId, Session>, calls: seq<Call>) returns (m: Manager)
    requires device.Valid() && device.table == device.foreign && journal.rows == map[]
    modifies device, journal
    ensures m.device == device && m.journal == journal && m.Valid()
  {
    m := new Manager(device, journal);
    for i := 0 to |calls|
      invariant fresh(m) && m.device == device && m.journal == journal && m.Valid()
    {
      m := Step(m, calls[i]);
    }
  }

  /** After process death at any point: if the restarted manager's recovery completes, the table holds exactly
      what others wrote and the journal is empty.  With working calls it completes exactly when, in row order, nobody
      stands before the owner of an entry. */
  method RestartAndRecover(device: Adapter, journal: Store<SessionId, Session>) returns (m: Manager, r: Outcome, ghost line: seq<SessionId>)
    requires device.Valid()
    requires Covers(journal.rows, device.table, device.foreign) && Unforged(journal.rows, device.foreign)
    modifies device`table, journal`rows, journal`doubts
    ensures m.device == device && m.journal == journal
    ensures r.Crashed? ==> m.Durable()
    ensures !r.Crashed? ==> m.Valid() && forall sid :: sid in journal.rows ==> sid in old(journal.rows)
    ensures r.Done? ==> device.table == device.foreign && journal.rows == map[] && !m.recoveryRequired
    ensures forall k :: k in device.foreign ==> k in device.table && device.table[k] == device.foreign[k]
    ensures Listed(line, old(journal.rows)) && Ascending(line) && InTurn(line, old(journal.rows), old(device.table), device.table)
    ensures r.Done? ==> Orderly(line, old(journal.rows), old(device.table))
    ensures journal.healthy && device.healthy ==> !r.Crashed? && (Orderly(line, old(journal.rows), old(device.table)) ==> r.Done?)
    ensures Shrinks(old(journal.rows), old(device.table), journal.rows, device.table, device.foreign)
  {
    m := new Manager(device, journal);
    line := m.order;
    hide Covers, Unforged, Consistent, Settled, Suspected, Shrinks, Orderly, InTurn, DoubtsWithin;
    r := m.Recover();
    assert r.Done? ==> forall sid :: sid !in journal.rows;
  }

  // --------------------------------------------------------- agreement at rest

  /** At rest every recorded session is installed and in place, apart from all others, and memory is the journal exactly
      when no row is left of a call that was not acknowledged: with no call in doubt at all, or after looking up the
      rows of those that are. */
  lemma QuiescentAgreement(m: Manager)
    requires m.Valid() && !m.recoveryRequired
    ensures m.sessions == m.journal.rows <==> forall sid :: sid in m.journal.doubts && sid in m.journal.rows ==> sid in m.sessions
    ensures m.journal.doubts == {} ==> m.sessions == m.journal.rows
    ensures forall sid :: sid in m.sessions ==> m.sessions[sid].stage.Installed? && InPlace(m.sessions[sid], m.device.table, m.device.foreign)
    ensures forall a, b :: a in m.sessions && b in m.sessions && a != b ==> Apart(m.sessions[a], m.sessions[b])
    ensures Covers(m.sessions, m.device.table, m.device.foreign)
  {
  }

  /** What the caller has seen cannot decide it: after an install whose first journal call raises, and a completed
      recovery, a process has seen the same and remembers the same whether or not the row was written. */
  method InstallInDoubt(m: Manager, sid: SessionId, entries: seq<Entry>, revision: Revision, zones: Option<seq<int>>, written: bool)
      returns (installed: Outcome, recovered: Outcome)
    requires m.Valid() && !m.recoveryRequired && m.sessions == m.journal.rows == map[] && m.journal.doubts == {}
    requires m.device.healthy && m.device.ready && Acceptable(entries, zones)
    requires entries[0].key !in m.device.table && entries[1].key !in m.device.table
    modifies m, m.journal, m.device`table
    ensures m.Valid() && installed.Raised? && recovered.Done?
    ensures !m.recoveryRequired && m.sessions == map[] && m.order == [] && m.journal.doubts == {sid} && m.device.table == old(m.device.table)
    ensures m.journal.rows == if written then map[sid := Session(entries[0], entries[1], revision, Installing)] else map[]
    ensures m.sessions == m.journal.rows <==> !written
    ensures m.journal.healthy
  {
    NothingToWithdraw(m);
    ghost var doubts := m.journal.doubts;
    installed := RaiseInstall(m, sid, entries, revision, zones, if written then LostAfter else LostBefore);
    hide *;
    NothingToWithdraw(m);
    ghost var rows := m.journal.rows;
    recovered := m.Recover();
    Emptied(m, sid, rows, doubts);
  }

  /** An install whose first journal call raises. */
  method RaiseInstall(m: Manager, sid: SessionId, entries: seq<Entry>, revision: Revision, zones: Option<seq<int>>, fate: Fate) returns (r: Outcome)
    requires m.Valid() && !m.recoveryRequired && sid !in m.sessions && fate.Ending().Raised?
    requires m.device.healthy && m.device.ready && Acceptable(entries, zones)
    requires entries[0].key !in m.device.table && entries[1].key !in m.device.table
    modifies m, m.journal, m.device`table
    ensures m.Valid() && r.Raised? && m.recoveryRequired && m.sessions == old(m.sessions) && m.device.table == old(m.device.table)
    ensures sid in m.journal.doubts && OnlyDoubts(sid, old(m.journal.doubts), m.journal.doubts) && m.journal.healthy
    ensures m.journal.rows == if fate.TakesEffect() then old(m.journal.rows)[sid := Session(entries[0], entries[1], revision, Installing)] else old(m.journal.rows)
  {
    hide Consistent, Settled, Suspected, Covers, Unforged, Acceptable, Listed, OnlyDoubts, InstallEffect;
    m.journal.healthy, m.journal.omen := false, Some(fate);
    r := m.Install(sid, entries, revision, zones);
    m.journal.healthy := true;
  }

  lemma NothingToWithdraw(m: Manager)
    requires m.Valid() && m.sessions == map[]
    ensures m.order == [] && Listed(m.order, m.sessions) && Orderly(m.order, m.sessions, m.device.table) && Clear(m.sessions, m.device.table)
  {
    LineLength(m.order, m.sessions);
  }

  lemma Emptied(m: Manager, sid: SessionId, rows: Records, doubts: set<SessionId>)
    requires m.Valid() && m.sessions == map[] && OnlyDoubts(sid, doubts, m.journal.doubts) && doubts == {} && sid in m.journal.doubts
    requires forall x :: x in m.journal.rows <==> x in rows
    requires forall x :: x in m.journal.rows ==> m.journal.rows[x] == rows[x]
    ensures m.order == [] && m.journal.doubts == {sid} && m.journal.rows == rows
  {
    NothingToWithdraw(m);
    assert forall x :: x in m.journal.doubts && x != sid ==> x in doubts - {sid};
  }

  /** A stale row and a live one share a key. */
  predicate Shares(a: Session, b: Session) {
    a.Uses(b.forward.key) || a.Uses(b.backward.key)
  }

  /** Sessions that were live when the process ended: journaled, in place and apart. */
  ghost predicate Standing(sessions: Records, rows: Records, table: Table) {
    && (forall sid :: sid in sessions ==> sid in rows && rows[sid].SameIntent(sessions[sid]))
    && (forall sid, k :: sid in sessions && sessions[sid].Uses(k) ==> k in table && sessions[sid].Clears(k, table[k]))
    && (forall a, b, k :: a in sessions && b in sessions && a != b && sessions[a].Uses(k) ==> !sessions[b].Uses(k))
  }

  /** Rows that memory had lost: no entry is theirs, and no entry of others stands under a recorded key. */
  ghost predicate Stale(sessions: Records, rows: Records, table: Table) {
    && (forall sid, k :: sid in rows && sid !in sessions && k in table ==> !rows[sid].Owns(k, table[k]))
    && (forall sid, k :: sid in rows && rows[sid].Uses(k) && k in table ==> exists b :: b in sessions && sessions[b].Uses(k))
  }

  /** What a restart makes of such rows: its recovery finds every owner in line before the rows that only share its keys,
      and so completes, exactly when each such row has the higher ID. */
  lemma RestartCompletesIff(sessions: Records, rows: Records, table: Table, ids: seq<SessionId>)
    requires Standing(sessions, rows, table) && Stale(sessions, rows, table) && Listed(ids, rows) && Ascending(ids)
    ensures Orderly(ids, rows, table)
            <==> forall a, b :: a in rows && a !in sessions && b in sessions && Shares(rows[a], sessions[b]) ==> b < a
  {
    AllListed(ids, rows);
    hide Standing, Stale, Session.Uses, Session.Clears, Shares, Session.Owns, Listed, Ascending;
    if Orderly(ids, rows, table) {
      forall a, b | a in rows && a !in sessions && b in sessions && Shares(rows[a], sessions[b])
        ensures b < a
      {
        OwnerGoesFirst(sessions, rows, table, ids, a, b);
      }
    }
    if forall a, b :: a in rows && a !in sessions && b in sessions && Shares(rows[a], sessions[b]) ==> b < a {
      forall i, k | 0 <= i < |ids| && rows[ids[i]].Uses(k) && k in table
        ensures exists j :: 0 <= j <= i && rows[ids[j]].Clears(k, table[k])
      {
        OwnerInLine(sessions, rows, table, ids, i, k);
      }
    }
  }

  lemma AllListed(ids: seq<SessionId>, rows: Records)
    requires Listed(ids, rows)
    ensures forall sid :: sid in ids ==> sid in rows
  {
  }

  /** The owner of an entry is the only one who clears it. */
  lemma Holder(sessions: Records, rows: Records, table: Table, b: SessionId, k: Key)
    requires Standing(sessions, rows, table) && Stale(sessions, rows, table) && b in sessions && sessions[b].Uses(k)
    ensures b in rows && k in table && rows[b].Clears(k, table[k])
    ensures forall c :: c in rows && rows[c].Clears(k, table[k]) ==> c == b
  {
    hide IsVariant;
    forall c | c in rows && rows[c].Clears(k, table[k])
      ensures c == b
    {
      assert rows[c].Owns(k, table[k]);
      assert c in sessions && sessions[c].Uses(k);
    }
  }

  lemma OwnerGoesFirst(sessions: Records, rows: Records, table: Table, ids: seq<SessionId>, a: SessionId, b: SessionId)
    requires Standing(sessions, rows, table) && Stale(sessions, rows, table) && Listed(ids, rows) && Ascending(ids) && Orderly(ids, rows, table)
    requires a in rows && a !in sessions && b in sessions && Shares(rows[a], sessions[b])
    ensures b < a
  {
    var s := sessions[b];
    var k := if rows[a].Uses(s.forward.key) then s.forward.key else s.backward.key;
    assert rows[a].Uses(k) && s.Uses(k);
    hide Shares, Session.Uses;
    Holder(sessions, rows, table, b, k);
    hide Standing, Stale, Session.Clears;
    FirstInLine(ids, rows, table, a, b, k);
  }

  lemma FirstInLine(ids: seq<SessionId>, rows: Records, table: Table, a: SessionId, b: SessionId, k: Key)
    requires Listed(ids, rows) && Ascending(ids) && Orderly(ids, rows, table) && a in rows && rows[a].Uses(k) && k in table && a != b
    requires forall c :: c in rows && rows[c].Clears(k, table[k]) ==> c == b
    ensures b < a
  {
    hide Session.Uses, Session.Clears;
    var i :| 0 <= i < |ids| && ids[i] == a;
    var j :| 0 <= j <= i && rows[ids[j]].Clears(k, table[k]);
  }

  lemma OwnerInLine(sessions: Records, rows: Records, table: Table, ids: seq<SessionId>, i: nat, k: Key)
    requires Standing(sessions, rows, table) && Stale(sessions, rows, table) && Listed(ids, rows) && Ascending(ids)
    requires forall a, b :: a in rows && a !in sessions && b in sessions && Shares(rows[a], sessions[b]) ==> b < a
    requires i < |ids| && rows[ids[i]].Uses(k) && k in table
    ensures exists j :: 0 <= j <= i && rows[ids[j]].Clears(k, table[k])
  {
    var b :| b in sessions && sessions[b].Uses(k);
    Holder(sessions, rows, table, b, k);
    var j :| 0 <= j < |ids| && ids[j] == b;
    hide IsVariant, Session.Clears;
    if ids[i] in sessions {
      assert sessions[ids[i]].Uses(k);
    } else {
      assert Shares(rows[ids[i]], sessions[b]);
    }
  }

  /** A stale row beside one live session on the same keys. */
  ghost predicate Wedge(rows: Records, table: Table, foreign: Table, stale: SessionId, s: Session, live: SessionId, t: Session) {
    && rows.Keys == {stale, live} && rows[stale].SameIntent(s) && rows[live].SameIntent(t)
    && (forall k :: k in table && k !in foreign ==> t.Uses(k)) && (forall k :: k in foreign ==> k in table && !t.Uses(k))
    && t.forward.key in table && table[t.forward.key] == Flow(t.forward) && t.backward.key in table && table[t.backward.key] == Flow(t.backward)
  }

  /** The two sessions share both keys, and no flow ID. */
  predicate Successive(s: Session, t: Session) {
    && t.forward.key == s.forward.key && t.backward.key == s.backward.key && t.forward.key != t.backward.key
    && s.forward.flowId != t.forward.flowId && s.backward.flowId != t.backward.flowId
  }

  lemma WedgedIff(rows: Records, table: Table, foreign: Table, stale: SessionId, s: Session, live: SessionId, t: Session, ids: seq<SessionId>)
    requires Wedge(rows, table, foreign, stale, s, live, t) && stale != live && Successive(s, t) && Listed(ids, rows) && Ascending(ids)
    ensures Orderly(ids, rows, table) <==> live < stale
  {
    var sessions := map[live := t];
    assert Shares(rows[stale], sessions[live]);
    assert Standing(sessions, rows, table);
    assert Stale(sessions, rows, table);
    RestartCompletesIff(sessions, rows, table, ids);
  }

  /** A recovery that meets the stale row first changes neither the table nor what the rows stand for. */
  lemma StillWedged(rows: Records, table: Table, rows': Records, table': Table, foreign: Table, stale: SessionId, s: Session, live: SessionId, t: Session, ids: seq<SessionId>)
    requires Wedge(rows, table, foreign, stale, s, live, t) && stale < live && Successive(s, t) && Listed(ids, rows) && Ascending(ids)
    requires Shrinks(rows, table, rows', table', foreign) && InTurn(ids, rows, table, table') && rows'.Keys <= rows.Keys
    ensures Wedge(rows', table', foreign, stale, s, live, t)
  {
    WedgedIff(rows, table, foreign, stale, s, live, t, ids);
    NothingInTurn(rows, table, table', foreign, stale, s, live, t, ids);
  }

  lemma NothingInTurn(rows: Records, table: Table, table': Table, foreign: Table, stale: SessionId, s: Session, live: SessionId, t: Session, ids: seq<SessionId>)
    requires Wedge(rows, table, foreign, stale, s, live, t) && stale < live && Successive(s, t) && Listed(ids, rows) && Ascending(ids)
    requires InTurn(ids, rows, table, table')
    ensures forall k :: k in table ==> k in table'
  {
    hide Wedge, Successive, Listed, OrderlyUpTo, Session.Owns;
    BlockedAtOnce(rows, table, foreign, stale, s, live, t, ids);
  }

  /** The stale row comes first and cannot clear what stands under its keys. */
  lemma BlockedAtOnce(rows: Records, table: Table, foreign: Table, stale: SessionId, s: Session, live: SessionId, t: Session, ids: seq<SessionId>)
    requires Wedge(rows, table, foreign, stale, s, live, t) && stale < live && Successive(s, t) && Listed(ids, rows) && Ascending(ids)
    ensures ids == [stale, live] && stale in rows && live in rows
    ensures !OrderlyUpTo(ids, 1, rows, table) && forall k :: k in table ==> !rows[stale].Owns(k, table[k])
  {
    TwoInOrder(ids, rows, stale, live);
    hide Listed;
    var k := t.forward.key;
    assert rows[ids[0]].Uses(k) && k in table && !rows[ids[0]].Clears(k, table[k]);
  }

  lemma TwoInOrder(ids: seq<SessionId>, rows: Records, a: SessionId, b: SessionId)
    requires Listed(ids, rows) && Ascending(ids) && rows.Keys == {a, b} && a < b
    ensures ids == [a, b]
  {
    LineLength(ids, rows);
    assert |rows| == |rows.Keys|;
    var i :| 0 <= i < |ids| && ids[i] == a;
    var j :| 0 <= j < |ids| && ids[j] == b;
  }

  /** The run that leaves such a row: an install in doubt, a recovery, another install on the same keys, a restart.
      The restarted recovery completes exactly when the stale row's ID is the higher one; otherwise it never does, however
      often the process is restarted. */
  method StaleRowWedgesRestart(device: Adapter, journal: Store<SessionId, Session>, stale: SessionId, first: seq<Entry>,
                               live: SessionId, second: seq<Entry>, revision: Revision, zones: Option<seq<int>>, retries: nat)
      returns (recovered: Outcome)
    requires device.Valid() && device.table == device.foreign && journal.rows == map[] && device.healthy && device.ready && device.natQualified
    requires stale != live && Acceptable(first, zones) && Acceptable(second, zones)
    requires Successive(Session(first[0], first[1], revision, Installed), Session(second[0], second[1], revision, Installed))
    requires second[0].key !in device.table && second[1].key !in device.table
    modifies device, journal
    ensures recovered.Done? <==> live < stale
    ensures if recovered.Done? then device.table == device.foreign && journal.rows == map[]
            else recovered.Raised? && Wedge(journal.rows, device.table, device.foreign, stale, Session(first[0], first[1], revision, Installed),
                                            live, Session(second[0], second[1], revision, Installed))
  {
    ghost var s, t := Session(first[0], first[1], revision, Installed), Session(second[0], second[1], revision, Installed);
    var ended := LeaveStaleRow(device, journal, stale, first, live, second, revision, zones);
    hide *;
    ValidLasts(ended);
    recovered := Retry(device, journal, stale, s, live, t);
    for n := 0 to retries
      invariant device.Valid() && Covers(journal.rows, device.table, device.foreign) && Unforged(journal.rows, device.foreign)
      invariant device.healthy && journal.healthy && (recovered.Done? <==> live < stale)
      invariant if recovered.Done? then device.table == device.foreign && journal.rows == map[]
                else recovered.Raised? && Wedge(journal.rows, device.table, device.foreign, stale, s, live, t)
    {
      if !recovered.Done? {
        recovered := Retry(device, journal, stale, s, live, t);
      }
    }
  }

  /** One restart beside a stale row. */
  method Retry(device: Adapter, journal: Store<SessionId, Session>, ghost stale: SessionId, ghost s: Session, ghost live: SessionId, ghost t: Session) returns (r: Outcome)
    requires device.Valid() && Covers(journal.rows, device.table, device.foreign) && Unforged(journal.rows, device.foreign)
    requires device.healthy && journal.healthy && stale != live && Successive(s, t)
    requires Wedge(journal.rows, device.table, device.foreign, stale, s, live, t)
    modifies device`table, journal`rows, journal`doubts
    ensures device.Valid() && Covers(journal.rows, device.table, device.foreign) && Unforged(journal.rows, device.foreign)
    ensures r.Done? <==> live < stale
    ensures if r.Done? then device.table == device.foreign && journal.rows == map[]
            else r.Raised? && Wedge(journal.rows, device.table, device.foreign, stale, s, live, t)
  {
    hide *;
    ghost var rows, table := journal.rows, device.table;
    var m;
    ghost var line;
    m, r, line := RestartAndRecover(device, journal);
    ValidLasts(m);
    WedgedIff(rows, table, device.foreign, stale, s, live, t, line);
    if !r.Done? {
      StillWedged(rows, table, journal.rows, device.table, device.foreign, stale, s, live, t, line);
    }
  }

  lemma ValidLasts(m: Manager)
    requires m.Valid()
    ensures m.Durable()
    ensures m.device.Valid() && Covers(m.journal.rows, m.device.table, m.device.foreign) && Unforged(m.journal.rows, m.device.foreign)
  {
  }

  method LeaveStaleRow(device: Adapter, journal: Store<SessionId, Session>, stale: SessionId, first: seq<Entry>,
                       live: SessionId, second: seq<Entry>, revision: Revision, zones: Option<seq<int>>) returns (m: Manager)
    requires device.Valid() && device.table == device.foreign && journal.rows == map[] && device.healthy && device.ready && device.natQualified
    requires stale != live && Acceptable(first, zones) && Acceptable(second, zones)
    requires Successive(Session(first[0], first[1], revision, Installed), Session(second[0], second[1], revision, Installed))
    requires second[0].key !in device.table && second[1].key !in device.table
    modifies device, journal
    ensures m.device == device && m.journal == journal && m.Valid() && !m.recoveryRequired && device.healthy && journal.healthy
    ensures device.foreign == old(device.foreign)
    ensures Wedge(journal.rows, device.table, device.foreign, stale, Session(first[0], first[1], revision, Installed),
                  live, Session(second[0], second[1], revision, Installed))
  {
    hide Consistent, Suspected, Settled, Listed, Orderly, Wedge, InstallEffect;
    ghost var t := Session(second[0], second[1], revision, Installed);
    assert first[0].key !in device.table && first[1].key !in device.table;
    hide Acceptable, Successive;
    m := new Manager(device, journal);
    var raised, emptied := InstallInDoubt(m, stale, first, revision, zones, true);
    ghost var rows := journal.rows;
    var installed := m.Install(live, second, revision, zones);
    InstalledBeside(m, stale, Session(first[0], first[1], revision, Installing), rows, live, t, old(device.table));
  }

  lemma InstalledBeside(m: Manager, stale: SessionId, s: Session, rows: Records, live: SessionId, t: Session, table: Table)
    requires m.Valid() && !m.recoveryRequired && stale != live && rows == map[stale := s] && m.sessions == map[live := t]
    requires InstallEffect(live, t, map[], rows, table, m.sessions, m.journal.rows, m.device.table)
    requires table == m.device.foreign && t.forward.key !in table && t.backward.key !in table
    ensures forall first: Session :: s.SameIntent(first) ==> Wedge(m.journal.rows, m.device.table, m.device.foreign, stale, first, live, t)
  {
    hide Consistent, Suspected, Listed, IsVariant, Session.Owns;
    assert live in m.sessions && m.sessions[live] == t;
    assert InPlace(t, m.device.table, m.device.foreign) && m.journal.rows[live] == t;
    assert m.journal.rows.Keys == {stale, live};
  }
}
