# A verified model of the FE100 hardware-session owner

The FE100 controller is a single owner of an ASIC flow table. It installs bidirectional flow entries, keeps a
write-ahead journal, and has to stay right when any call raises, when a write is ambiguous, and when the process dies
between two steps. This project models that owner layer by layer in Dafny and proves what the layers promise together,
over whole runs. A second, smaller part models the host side of the OCTEON boot mailbox and the u-boot environment block
of `ffn_oct.py`.

How failure is modelled: a call that changes hardware or storage ends `Done`, `Raised` or `Crashed`, and the last two
happen with or without effect. No write acknowledgement of the hardware is trusted; only a read that answers is. Process
death ends the current call at once, and a restart rebuilds memory from the journal. The `doubts` of a durable table are
the keys whose last call was not acknowledged to this process; whether such a call took effect is the one thing a process
cannot see about its own journal, so a caller can keep that set but not decide it. `healthy` means that calls work, and
`omen` (the next fates of an unhealthy table) lets a run say which call raises and whether it had effect.

| module | what it models |
|---|---|
| `Outcomes` | outcomes of calls, and the durable tables |
| `FlowCodec`, `NativeCodec`, `NatPair` | the 64-byte wire entry, the 144-byte native entry, the paired NAT encoder |
| `FlowTable`, `SessionManager` | the native adapter and the transactional session manager above it |
| `FlowIds` | the durable flow-ID allocator and its commissioning per boot |
| `Paths`, `Policy`, `PathSessions` | next-hop and source-MAC slots, policy generations, and their coupling |
| `Attachments` | ingress selectors and LIF/LEF slots |
| `Lifecycle`, `OwnerStack` | producer leases, and whole runs of all session layers together |
| `Aging` | idle expiry |
| `Counters`, `Accounting` | counter deltas and their delivery to a kernel connection |
| `Guard` | the supervisor, child and control-group protocol |
| `Mailbox`, `UbootEnv` | the boot mailbox as a two-process protocol, and the environment block |

`dafny verify dfyconfig.toml` verifies the project.

## What the proofs found

Each of these is stated for all inputs, with the condition under which the code does meet the property. Where the code
fails, a method of the model runs it into the failure.

- **A child can outlive the guardian's cleanup.** The guardian turns SIGTERM into an ordinary exception at any point, and so also
  between the fork and the assignment of the child. Nothing is killed then, the group is still empty, and the final recovery
  runs while the bootstrap can join the group and start an owner (`Guard.LostChildOverlaps`). Recovery stays exclusive in every
  continuation without another such failure exactly when every spawned process is held, in the group or dead
  (`Guard.RecoveryExclusiveIff`), and a failure of that kind is the only step that ends this (`Guard.HandledIff`). Without one
  recovery is always exclusive (`Guard.HeldRunIsExclusive`). Startup recovery, a single lineage and the report of it do not
  depend on it (`Guard.SingleOwner`, `Guard.SingleLineage`).
- **Quiescent agreement ends with an unacknowledged row.** A commit that raises after taking effect leaves a journal row that
  memory never saw, and no recovery in the same process removes it. At rest memory equals the journal exactly when no row left
  of an unacknowledged call is missing from memory, and always when every call was acknowledged
  (`SessionManager.QuiescentAgreement`); the process has seen the same either way (`SessionManager.InstallInDoubt`). A later
  session on the same keys can then wedge every restart: recovery goes through the rows in ascending order, and completes
  exactly when each stale row has a higher ID than the sessions it shares keys with (`SessionManager.RestartCompletesIff`,
  `SessionManager.StaleRowWedgesRestart`).
- **The same row gives slots away twice.** Allocation looks only at memory. After an unacknowledged save and a recovery, the next
  attachment or path is put on the very slots that the stale row names, exactly when that save took effect
  (`Attachments.SlotsTwice`, `Paths.SlotsTwice`). An attachment owner then refuses to restart; a path owner restarts over two
  rows on four slots, and can reclaim the stale one exactly when both plans write the same frames. A restart also accepts two
  attachments with one selector (`Attachments.SelectorTwice`). Whatever becomes of journal writes, memory stays apart in slots
  and selectors while the process lives, every slot in use belongs to one row of a set that shares none, and in the hardware no
  next hop stands without the source MAC it refers to (`Attachments.Run`, `Paths.AcquireTracked`, `Paths.ReclaimTracked`,
  `Paths.NoHopWithoutMac`). The rows themselves are apart exactly when no row left of an unacknowledged call overlaps another
  (`Attachments.JournalApartIff`, `Paths.RowsApartIff`).
- **`session_pair4` accepts pairs that `install` refuses.** When original and reply are the same tuple in the same zone, both
  directions get one key. The install check passes in every other case and in no such case
  (`NatPair.PairInstallsUnlessKeysCoincide`, `NatPair.EqualKeysAreRefused`).
- **`PolicyOwner.activate` adopts whatever is recorded.** It succeeds or not without a look at the sessions
  (`Policy.PolicyOwner.Activate`), and some are recorded only if the last save of the generation was not acknowledged
  (`Policy.AdoptsOnlyInDoubt`). `Policy.Reactivate` is the run: the attachments change, the
  reconciliation cannot announce its drain, and the next activation enables admission over every session of the old
  attachments. If the announcement is acknowledged all of them are gone. `SessionLifecycle.start` drains first and activates
  only on an empty table (`Lifecycle.SessionLifecycle.Start`).
- **The aging clock belongs to the session ID.** A session that takes over an ID between two sweeps is expired by the first sweep
  that sees it, exactly when its tokens equal those of the session before it and that mark is a timeout old (`Aging.Takeover`).
- **The native counter token cannot show long silence.** It turns unreadable once it is older than the freshness window, and an
  unreadable token restarts the aging clock. A session timed by it can be found idle exactly when its timeout is no longer than
  the window (`Aging.SilenceVisibleWithinFreshness`). With the default five seconds, neither default timeout is ever reached
  (`Aging.StaleCountersNeverRipen`).
- **Commissioning flow IDs is two transactions.** If the process dies after the generation row and the counter row is not there,
  nothing yields an allocator again in that boot (`FlowIds.Interrupted`). `FlowIds.Namespace.Ensure` says exactly when one is
  yielded.
- **A delivery without `force` on a live window does write.** `oct_send_bootcmd` reports a dry run, but the command is
  published whenever the window itself is not in dry-run mode (`Mailbox.BootBar.Send`).
- **The environment block loses text that is not ASCII.** It is printed as UTF-8 and read as ASCII with replacement, so the round
  trip gives back the same environment exactly when every key and value is ASCII (`UbootEnv.RoundTrip`).

## Model

| member | source | states |
|---|---|---|
| `FlowCodec.EncodeLayout` | fe100/ffn_fe100_sessions.py:28-78 | every valid entry encodes, and its bytes are key, flags, override, flow ID and rewrite at their fixed offsets, zero elsewhere |
| `FlowCodec.WireBytes` | fe100/ffn_fe100_sessions.py:14-78 | the 64 bytes of any valid entry one by one, as numbers: 0x40, protocol, zone, ports, addresses, the flag byte of its action (0x84, TTL 0x10, NAT of addresses 0x20 or of ports 0x40, drop 0x08), next hop, flow ID and rewrite in network byte order, zero elsewhere |
| `FlowCodec.EncodeInjective` | fe100/ffn_fe100_sessions.py:28-78 | different entries, NAT mode included, encode differently |
| `FlowCodec.ValidatorAcceptsEncodings` | fe100/ffn_fe100_sessions.py:89-115 | the validator returns every encoding unchanged |
| `FlowCodec.ValidatorAcceptsExactlyTheImage` | fe100/ffn_fe100_sessions.py:89-115 | a byte string passes the validator if and only if it encodes some identity, drop, forward or NAT entry |
| `FlowCodec.OutputKeyAgrees` | fe100/ffn_fe100_sessions.py:81-86 | the output key of an encoding is the encoding of the translated key |
| `NativeCodec.NativeRoundTrip` | fe100/ffn_fe100_session_adapter.py:26-52 | decoding an encoded valid entry gives it back |
| `NativeCodec.NativeFields` | fe100/ffn_fe100_session_adapter.py:26-38 | where each part of the wire entry stands in the 144 native bytes, NAT ports before addresses and only when a mode bit is set, zero elsewhere |
| `NativeCodec.DecodeIsExact` | fe100/ffn_fe100_session_adapter.py:39-52 | whatever decodes has the meaning of the native encoding of the result |
| `NativeCodec.DecodeIgnoresInactiveStorage` | fe100/ffn_fe100_session_adapter.py:39-52 | two native entries that differ only in inactive NAT storage decode alike |
| `NatPair.InstallCheckIsPaired` | fe100/ffn_fe100_sessions.py:193-212 | the byte-level install check holds if and only if the entries answer each other, with different keys and the commissioned zones |
| `NatPair.WireFacts` | fe100/ffn_fe100_sessions.py:81-115 | what the install and accounting checks read out of an encoding is the entry's own key, zone, flow ID and output key |
| `NatPair.PairInstallsUnlessKeysCoincide` | fe100/ffn_fe100_nat.py:33-60 | a pair the encoder accepts, once labelled, passes the install check if and only if its two keys differ |
| `NatPair.PairSatisfiesAccounting` | fe100/ffn_fe100_accounting.py:24-32 | a labelled pair always passes the accounting session's check against its conntrack object |
| `NatPair.AccountingCheckIsMatches` | fe100/ffn_fe100_accounting.py:24-32 | the byte-level accounting check holds if and only if the entries are the two directions of the connection |
| `NatPair.PairTranslatesTogether` | fe100/ffn_fe100_nat.py:33-60 | both directions translate or neither, in one NAT mode, exactly when conntrack translated |
| `NatPair.LabellingNeedsTwoIds` | fe100/ffn_fe100_flow_ids.py:56-66 | labelling an accepted pair succeeds if and only if the two IDs are distinct, nonzero and 32 bits wide |
| `NatPair.EqualKeysAreRefused` | fe100/ffn_fe100_nat.py:33-60 | a concrete accepted pair that the install check refuses |
| `FlowTable.Adapter.Call` | fe100/ffn_fe100_session_adapter.py:83-90 | one native command changes at most its own key, with or without effect whatever it reports |
| `FlowTable.Adapter.Fetch` | fe100/ffn_fe100_session_adapter.py:92-94 | an answered lookup tells what the table holds under the key |
| `FlowTable.Adapter.Insert` | fe100/ffn_fe100_session_adapter.py:96-110 | any prefix of FLOWADD and FLOWUPDATE leaves the key absent, bare or complete, and changes nothing else |
| `FlowTable.Adapter.Delete` | fe100/ffn_fe100_session_adapter.py:112-117 | a delete removes at most the one key, and on healthy hardware does remove a readable entry |
| `Outcomes.Store.Put` | fe100/ffn_fe100_journal.py:35-39 | an atomic row write, with or without effect when it is not acknowledged; the key is in doubt until a later call on it is |
| `Outcomes.Store.Delete` | fe100/ffn_fe100_journal.py:41-43 | an atomic row removal, with the same failure rule |
| `SessionManager.Manager.constructor` | fe100/ffn_fe100_sessions.py:151-156 | a restart over any covering journal is valid, holds the rows in ascending order, is in doubt about none, and is fenced exactly when the journal is not empty |
| `SessionManager.Manager.Save` | fe100/ffn_fe100_sessions.py:158-166 | the journal is written before memory; a failure fences the manager |
| `SessionManager.Manager.Forget` | fe100/ffn_fe100_sessions.py:168-174 | the journal row goes before the memory of it; a failure fences the manager |
| `SessionManager.Manager.Withdraw` | fe100/ffn_fe100_sessions.py:253-258 | deletes only an entry recognised as one of its own variants, and confirms absence |
| `SessionManager.Manager.Program` | fe100/ffn_fe100_sessions.py:218-224 | both directions are written and read back; what was touched is reported |
| `SessionManager.Manager.Rollback` | fe100/ffn_fe100_sessions.py:225-235 | undoes the touched directions, or says that it could not |
| `SessionManager.Manager.ProgramOrUndo` | fe100/ffn_fe100_sessions.py:218-240 | every entry added is the session's own; a clean failure leaves the table as it was |
| `SessionManager.Manager.Preflight` | fe100/ffn_fe100_sessions.py:213-216 | both keys were looked up and found free before either is written |
| `SessionManager.AcceptableIsInstallCheck` | fe100/ffn_fe100_sessions.py:193-212 | the check of an install on the entries holds if and only if the byte-level check holds on their encodings |
| `SessionManager.Manager.Install` | fe100/ffn_fe100_sessions.py:187-245 | refused without effect unless every check passes, the device is ready and both keys are free; otherwise all or nothing, every written entry journaled first; a completed one has changed exactly its two keys, to its two flows; it succeeds whenever hardware and journal do, and a journal that raises leaves it fenced and in doubt about this row alone |
| `SessionManager.Manager.Remove` | fe100/ffn_fe100_sessions.py:247-268 | deletes only the session's own entries, changes no other session, and forgets it only once both keys are free |
| `SessionManager.Manager.Recover` | fe100/ffn_fe100_sessions.py:176-185 | a completed recovery leaves exactly what others wrote and exactly the rows memory did not have; with working calls it completes if and only if, in the order of the records, nobody stands in line before the owner of an entry |
| `SessionManager.Manager.InvalidatePolicy` | fe100/ffn_fe100_sessions.py:270-274 | keeps exactly the sessions of the given revision, in order up to the first failure |
| `SessionManager.RemovalConsistent` | fe100/ffn_fe100_sessions.py:247-268 | wherever a removal is cut, journal and memory still cover every entry and forge none |
| `SessionManager.InstallConsistent` | fe100/ffn_fe100_sessions.py:187-245 | wherever an install is cut, journal and memory still cover every entry and forge none |
| `SessionManager.ShrinksCompose` | fe100/ffn_fe100_sessions.py:176-185 | withdrawals compose: entries only disappear, and a lost record holds nothing |
| `SessionManager.SettledWith` | fe100/ffn_fe100_sessions.py:187-245 | after a completed install every session, the new one included, is installed, in place and apart from the others |
| `SessionManager.OutsideConsistent` | fe100/ffn_fe100_sessions.py:118-122 | an outside write that forges no owned variant keeps the coverage |
| `SessionManager.Step` | fe100/ffn_fe100_sessions.py:139-274 | any call, failure, death, outside write or restart keeps the manager valid |
| `SessionManager.Run` | fe100/ffn_fe100_sessions.py:139-274 | every run from an empty journal over any table ends in a valid manager |
| `SessionManager.RestartAndRecover` | fe100/ffn_fe100_sessions.py:151-185 | after death at any point a completed recovery leaves the table as others wrote it and the journal empty, and with working calls it completes if and only if the ascending rows are orderly |
| `SessionManager.QuiescentAgreement` | fe100/ffn_fe100_sessions.py:151-268 | unfenced: memory equals the journal if and only if every row of an unacknowledged call is in memory, so always when all were acknowledged; every session is installed with both entries in place, and sessions share no key |
| `SessionManager.InstallInDoubt` | fe100/ffn_fe100_sessions.py:158-245 | an install whose first journal call raises, and a completed recovery: the process has seen and remembers the same whether or not the row was written, and agrees with the journal if and only if it was not |
| `SessionManager.RestartCompletesIff` | fe100/ffn_fe100_sessions.py:151-185 | with sessions in place and rows that memory had lost, restart recovery is orderly if and only if each stale row has a higher ID than every session it shares a key with |
| `SessionManager.StaleRowWedgesRestart` | fe100/ffn_fe100_sessions.py:151-245 | the run: install in doubt, recovery, another install on the same keys, restart; the restart recovery completes if and only if the live ID is below the stale one, however often it is retried, and otherwise both rows and entries stay |
| `FlowIds.Allocator.ReservePair` | fe100/ffn_fe100_flow_ids.py:38-53 | two consecutive IDs inside the range, above all issued in this boot and durable before use; a failure latches and hands out nothing |
| `FlowIds.Namespace.Ensure` | fe100/ffn_fe100_flow_namespace.py:141-198 | never resets the counter of this boot, archives only another boot's, and with a working journal yields an allocator if and only if the rows are this owner's with a counter in range, or a due probe proves the range and what is left over allows it |
| `FlowIds.Interrupted` | fe100/ffn_fe100_flow_namespace.py:152-198 | a first commissioning cut at its second transaction: every later attempt in this boot yields an allocator if that one took effect, and none does if it did not |
| `FlowIds.IdJournal.Commit` | fe100/ffn_fe100_flow_ids.py:42-49 | both rows change together or not at all |
| `FlowIds.Run` | fe100/ffn_fe100_flow_ids.py:11-53 | over any reservations, failures, deaths, restarts and reboots the IDs of each boot are strictly increasing and in range |
| `Paths.Allocation` | fe100/ffn_fe100_path_owner.py:96-106 | a fresh record lists two source MACs before the two next hops that refer to them, each in the slot it was given |
| `Paths.AllocationIsProgrammed` | fe100/ffn_fe100_path_owner.py:96-106 | a fresh record that is in its slots has, field by field, the forward and backward source MAC in the first two, and LIF, destination MAC, MTU, VLAN and source-MAC slot of the forward and backward direction in the other two |
| `Paths.PathOwner.constructor` | fe100/ffn_fe100_path_owner.py:16-31 | a restart over a sound database is valid, holds its rows, is in doubt about none, and is fenced exactly when it is not empty |
| `Paths.PathOwner.Save` | fe100/ffn_fe100_path_owner.py:46-52 | the database row is written before memory; a failure fences the owner |
| `Paths.PathOwner.Allocate` | fe100/ffn_fe100_path_owner.py:81-88 | the first two pool slots that no record names and that read back empty; with working reads it fails only if there are not two |
| `Paths.PathOwner.Fill` | fe100/ffn_fe100_path_owner.py:108-114 | writes only the record's own slots, and at every cut no next hop stands without both source MACs |
| `Paths.PathOwner.Acquire` | fe100/ffn_fe100_path_owner.py:90-120 | a completed acquisition adds exactly this record, whose four slots hold each direction's own source MAC and next hop field by field, and the snapshot names them; slots apart from every other record's, journaled first, sound at every cut; with working calls it succeeds on the first free slots, and a first save that raises leaves it fenced and in doubt about this row alone |
| `Paths.PathOwner.Snapshot` | fe100/ffn_fe100_path_owner.py:122-130 | answers only for a ready path of this boot that the resolver confirms and all of whose slots read back |
| `Paths.PathOwner.ClearSlot` | fe100/ffn_fe100_path_owner.py:141-146 | empties a slot only if it holds what this record wrote in this boot |
| `Paths.PathOwner.Clear` | fe100/ffn_fe100_path_owner.py:140-146 | clears next hops before source MACs, only what this record wrote in this boot; with working calls it completes if and only if everything in its slots is that |
| `Paths.PathOwner.Reclaim` | fe100/ffn_fe100_path_owner.py:132-149 | removes one path's slots and then its record; nothing foreign or of another boot is deleted; with working calls it completes if and only if its slots hold nothing else |
| `Paths.PathOwner.Reopen` | fe100/ffn_fe100_path_owner.py:151-154 | once nothing is recorded the fence may go, and only what others wrote is in the slots |
| `Paths.ReclaimTracked` | fe100/ffn_fe100_path_owner.py:132-149 | wherever a reclaim is cut, and whatever database writes did, every slot in use still belongs to one of a set of records that share none, every next hop beside its source MACs |
| `Paths.AcquireTracked` | fe100/ffn_fe100_path_owner.py:90-120 | the same wherever an acquisition is cut |
| `Paths.TrackedIsSound` | fe100/ffn_fe100_path_owner.py:27-31 | what memory and database promise together, the database alone keeps after death |
| `Paths.AllocationIsBlock` | fe100/ffn_fe100_path_owner.py:81-97 | the two kinds of slots are taken in lockstep, so two allocations of a process share no slot or all four |
| `Paths.HopsStand` | fe100/ffn_fe100_path_owner.py:98-114 | while the records of a process share no slot, each next hop in use stands beside its own record's source MACs |
| `Paths.NoHopWithoutMac` | fe100/ffn_fe100_path_owner.py:90-149 | in the hardware every next hop an owner wrote refers to a source MAC that is in its slot, after any faults and deaths |
| `Paths.RowsApartIff` | fe100/ffn_fe100_path_owner.py:46-88 | at rest no slot belongs to two paths in memory, nor to two rows if and only if no row of an unacknowledged call overlaps another row |
| `Paths.AcquireInDoubt` | fe100/ffn_fe100_path_owner.py:46-120 | an acquisition whose first save raises, and the recovery of an owner that holds nothing: the same memory whether or not the row was written |
| `Paths.SlotsTwice` | fe100/ffn_fe100_path_owner.py:27-149 | the next path gets the very same slots; a restart finds two rows on them if and only if the first was written, and then can reclaim it if and only if both plans write the same frames |
| `Policy.NoDanglingShrinks` | fe100/ffn_fe100_policy.py:234-238 | withdrawals leave no entry without its path |
| `Policy.InstallNoDangling` | fe100/ffn_fe100_policy.py:187-232 | an install whose path is in place leaves no entry without its path, wherever it is cut |
| `Policy.AnchoredSessions` | fe100/ffn_fe100_policy.py:187-232 | settled sessions that are anchored at recorded, filled paths leave nothing dangling |
| `Policy.PolicyOwner.constructor` | fe100/ffn_fe100_policy.py:22-36 | a restarted owner is never activated |
| `Policy.PolicyOwner.Persist` | fe100/ffn_fe100_policy.py:68-74 | a failed save leaves the old generation, blocked |
| `Policy.PolicyOwner.DirectionalPaths` | fe100/ffn_fe100_policy.py:150-180 | accepts only the path owner's read-back snapshot of a path between the request's two ports, leading each way to where conntrack answered from, with NAT qualified where it is needed; and accepts it whenever every call answers |
| `Policy.PolicyOwner.Drain` | fe100/ffn_fe100_policy.py:60-65 | announced durably, then every session removed; only then is the generation blocked and empty; an announcement that raises withdraws nothing |
| `Policy.PolicyOwner.Empty` | fe100/ffn_fe100_policy.py:61-65 | once a drain is announced, sessions of any generation are removed by exact ownership; a failure leaves admission off and nothing dangling |
| `Policy.PolicyOwner.Reconcile` | fe100/ffn_fe100_policy.py:38-66 | never activates and never changes the generation; still activated, every dependency has its session and its path vouched for; deactivated, the table is drained; if nothing has changed it leaves everything as it is, and a drain that cannot be announced leaves every session in place |
| `Policy.PolicyOwner.Replace` | fe100/ffn_fe100_policy.py:76-91 | a completed change is the next revision, blocked, with no session left; a refused one changes nothing; with working calls the right revision and a digest are enough |
| `Policy.PolicyOwner.Activate` | fe100/ffn_fe100_policy.py:93-106 | enables exactly the applied revision and digest under the attachments read then; with working calls it does so if and only if the generation is that one, blocked, unfenced, qualified and has flow IDs, whatever sessions are recorded |
| `Policy.AdoptsOnlyInDoubt` | fe100/ffn_fe100_policy.py:38-106 | an activation finds recorded sessions only if the last save of the generation was not acknowledged |
| `Policy.Reactivate` | fe100/ffn_fe100_policy.py:38-106 | the attachments change, reconcile, activate: admission is on under the new attachments, over no session if the drain was announced, over every old one if the announcement raised |
| `Policy.PolicyOwner.AdmitPair` | fe100/ffn_fe100_policy.py:187-232 | an admitted request was allowed, uninspected and established under the current revision and digest, on two different ports that are bound, enabled and up and a path between them; exactly its session is recorded, under two flow IDs issued for it, with both directions of its tuple in hardware and nothing else changed; a request that fails any of these records and writes nothing; and it is admitted if nothing stands in the way |
| `Policy.EntriesAreDirections` | fe100/ffn_fe100_policy.py:187-232 | the two entries made for a request take the original and the reply tuple in their own zones to their own next hops, and each comes out as the other peer expects it |
| `Policy.PolicyOwner.Revoke` | fe100/ffn_fe100_policy.py:234-238 | withdraws one session and its dependency and touches no other |
| `PathSessions.ReclaimAfterDrain` | fe100/ffn_fe100_path_sessions.py:25-33 | a reclaim that follows a drain keeps every remaining session's path, wherever it is cut |
| `PathSessions.AcquireKeepsAnchors` | fe100/ffn_fe100_path_sessions.py:35-58 | an acquisition keeps every session's path, wherever it is cut |
| `PathSessions.Unreferenced` | fe100/ffn_fe100_path_owner.py:132-149 | when the slots of a drained path are deleted no recorded session has an entry that uses them |
| `PathSessions.Coupling.Drain` | fe100/ffn_fe100_path_sessions.py:25-33 | an acknowledged drain means that no recorded session depends on the path, lost dependencies included; if nothing was in doubt, exactly the dependents are withdrawn |
| `PathSessions.Coupling.ReclaimDrained` | fe100/ffn_fe100_path_owner.py:136-149 | the deletions of a release keep every remaining session anchored and remove exactly this path; it completes if every call answers |
| `PathSessions.Coupling.Release` | fe100/ffn_fe100_path_owner.py:132-149 | slots are reclaimed only after an acknowledged drain, of exactly this path; if nothing was in doubt, exactly its dependents are withdrawn; a path that nothing depends on is given back if every call answers |
| `PathSessions.Coupling.Admit` | fe100/ffn_fe100_path_sessions.py:35-58 | path first, session second: the recorded session is exactly the request's, on a path that is exactly the plan's; what was not allowed changes no path and records no session; any later failure ends admission and drains before the path is given back, nothing dangling at any cut; and it is admitted if nothing stands in the way |
| `PathSessions.Coupling.StillWelcome` | fe100/ffn_fe100_path_sessions.py:35-58 | acquiring the path of a welcome request leaves nothing in the way of its session |
| `PathSessions.Coupling.Revoke` | fe100/ffn_fe100_path_sessions.py:60-67 | session first, path second: exactly this path is given back and no other session is withdrawn; in good order it succeeds, and leaves everything in good order |
| `PathSessions.Coupling.OrderWithout` | fe100/ffn_fe100_path_sessions.py:60-67 | giving up a session and its path leaves every other session its path and every other path its session |
| `PathSessions.Coupling.Reconcile` | fe100/ffn_fe100_path_sessions.py:69-80 | every path that is left was there, is ready, of this boot and what the resolver gives, and has a dependency; while admission goes on no session on such a path is withdrawn; in good order nothing at all changes, and an idle owner stays idle |
| `PathSessions.Coupling.Recover` | fe100/ffn_fe100_path_sessions.py:86-88 | drains the sessions before it releases any path |
| `Attachments.AddSane` | fe100/ffn_fe100_attachments.py:107-124 | a record over slots that are free and that no record in memory names keeps coverage and order, acknowledged or in doubt |
| `Attachments.InsertSane` | fe100/ffn_fe100_attachments.py:126-131 | writing the next slot of a record keeps coverage, exclusiveness and order |
| `Attachments.DeleteSane` | fe100/ffn_fe100_attachments.py:161-168 | clearing the last slot in use keeps coverage, exclusiveness and order |
| `Attachments.SaneIsSound` | fe100/ffn_fe100_attachments.py:91-96 | what memory and journal promise together, the journal alone keeps after death, unacknowledged rows included |
| `Attachments.AttachmentOwner.Open` | fe100/ffn_fe100_attachments.py:47-55 | a restart succeeds if and only if no two journal rows name one slot |
| `Attachments.AttachmentOwner.Save` | fe100/ffn_fe100_attachments.py:91-96 | journal before memory, and a failure fences the owner |
| `Attachments.AttachmentOwner.Allocate` | fe100/ffn_fe100_attachments.py:98-105 | the first pool slots, as many as asked for, that no record names and that read back empty |
| `Attachments.AttachmentOwner.Claim` | fe100/ffn_fe100_attachments.py:107-124 | journals a new attachment only under a free name, with selectors no recorded attachment has |
| `Attachments.AttachmentOwner.Fill` | fe100/ffn_fe100_attachments.py:126-131 | writes only the record's free slots, in order |
| `Attachments.AttachmentOwner.Acquire` | fe100/ffn_fe100_attachments.py:107-135 | a completed acquisition is ready, in place and clashes with no other; its slots hold what is encoded for each port of the plan, egress slots first, and the plan is within its ranges; every cut leaves the journal sound; with working calls it succeeds on the first free slots |
| `Attachments.AttachmentOwner.Snapshot` | fe100/ffn_fe100_attachments.py:137-149 | stands only for a ready attachment of this boot that is confirmed and whose slots all read back |
| `Attachments.AttachmentOwner.ClearAll` | fe100/ffn_fe100_attachments.py:161-168 | ingress slots before egress slots; only this boot's own contents are deleted |
| `Attachments.AttachmentOwner.Release` | fe100/ffn_fe100_attachments.py:151-172 | no slot is touched before withdrawal and drain are acknowledged; a completed release frees every slot of the record |
| `Attachments.AttachmentOwner.Recover` | fe100/ffn_fe100_attachments.py:174-177 | a completed recovery leaves the slots as others wrote them |
| `Attachments.AttachmentOwner.Reconcile` | fe100/ffn_fe100_attachments.py:179-183 | what is left is ready, of this boot, in its slots and confirmed; if every call answers, whatever was so is left, and if all was, nothing changes; sound at every cut |
| `Attachments.JournalApartIff` | fe100/ffn_fe100_attachments.py:91-124 | at rest memory holds no slot and no selector twice; the journal neither, if and only if no row of an unacknowledged call shares one with another row |
| `Attachments.ClaimInDoubt` | fe100/ffn_fe100_attachments.py:91-135 | an acquisition whose first journal call raises, and a completed recovery: the same memory whether or not the row was written |
| `Attachments.SlotsTwice` | fe100/ffn_fe100_attachments.py:47-124 | the next attachment of that width gets the same slots, and a restart is refused if and only if the first one was written |
| `Attachments.SelectorTwice` | fe100/ffn_fe100_attachments.py:47-124 | two attachments with one selector on different slots: the restart is accepted, and holds the selector twice if and only if the first one was written |
| `Attachments.Run` | fe100/ffn_fe100_attachments.py:32-183 | over any history, whatever journal writes did, everything in use belongs to rows that share no slot and no port/VLAN selector, and no ingress slot is in use without its egress slots |
| `Lifecycle.SessionLifecycle.Now` | fe100/ffn_fe100_lifecycle.py:74-80 | an accepted clock value is never below the last |
| `Lifecycle.SessionLifecycle.Fence` | fe100/ffn_fe100_lifecycle.py:38-44 | producer and activation end first; a completed fence leaves no session and no lease, and of an idle owner it completes |
| `Lifecycle.SessionLifecycle.Start` | fe100/ffn_fe100_lifecycle.py:82-100 | a started producer has sequence 0, the applied generation, revision and digest, a heartbeat that the clock showed during the call, admission on and an empty table; on an idle platform that stands still it is started, undisturbed from then on |
| `Lifecycle.SessionLifecycle.Expire` | fe100/ffn_fe100_lifecycle.py:138-142 | the leases left are exactly the old ones that are unexpired at the given time, unchanged; it completes if those that ran out can be withdrawn, and does nothing if none did |
| `Lifecycle.SessionLifecycle.Tick` | fe100/ffn_fe100_lifecycle.py:102-146 | a tick that leaves the producer synchronized leaves exactly the unexpired leases at the last clock value read, the heartbeat fresh at it and the applied generation the producer's; an undisturbed producer stays synchronized, and if no lease ran out nothing changes |
| `Lifecycle.SessionLifecycle.Apply` | fe100/ffn_fe100_lifecycle.py:158-183 | each event exactly, at the clock value read last: an open records the session and leases it for idle and maximum lifetime, a refresh restarts the idle time within the deadline, a close leaves neither session nor lease, a heartbeat is that clock value; no other lease changes |
| `Lifecycle.RuledByNow` | fe100/ffn_fe100_lifecycle.py:148-188 | tick, event and tick make one step: unexpired leases, the event at one clock value, unexpired leases again, and after a close no lease of that session |
| `Lifecycle.SessionLifecycle.Receive` | fe100/ffn_fe100_lifecycle.py:148-192 | accepted numbers are contiguous and 64 bits wide; what the event did to leases and heartbeat, exactly, at clock values read during the call; a closed session is gone; any failure clears producer and activation; and the next event of an undisturbed producer is heeded if nothing stands in its way, and leaves the producer undisturbed |
| `OwnerStack.Boot` | fe100/ffn_fe100_lifecycle.py:17-36 | from any durable state the whole stack starts valid, with no producer |
| `OwnerStack.Advance` | fe100/ffn_fe100_lifecycle.py:38-192 | one step of any layer, or death followed by a restart, keeps every layer valid |
| `OwnerStack.Run` | fe100/ffn_fe100_lifecycle.py:16-192 | after every run from a clean platform, with faults and deaths anywhere: no flow entry without its recorded, filled path; every entry of ours journaled; every slot in use one record's, and no slot two paths' while the resource owner is not fenced; only current-generation sessions while admission is on; a lease for every session while a producer is synchronized; flow IDs increasing |
| `OwnerStack.Guarantees` | fe100/ffn_fe100_path_sessions.py:12-88 | the invariants of the single layers give that combined guarantee |
| `OwnerStack.DurablePlatform` | fe100/ffn_fe100_path_sessions.py:25-33 | what the policy owner keeps durable is what a restart needs |
| `Aging.RememberedNext` | fe100/ffn_fe100_aging.py:149-178 | each mark stands for a run of equal readings since the sweep that made it |
| `Aging.RipeIsSilent` | fe100/ffn_fe100_aging.py:161-178 | a ripe session has shown the same tokens in both directions in every reading for at least its timeout |
| `Aging.DueIsRipe` | fe100/ffn_fe100_aging.py:161-178 | a verdict is ripe if and only if both tokens are readable, equal to the mark's and the mark at least a timeout old; a mark is kept, set anew or dropped accordingly |
| `Aging.SessionAging.Examine` | fe100/ffn_fe100_aging.py:146-178 | marks change as each session's verdict says, vanished IDs are forgotten, the ripe ones are returned and the others tallied |
| `Aging.SessionAging.Expire` | fe100/ffn_fe100_aging.py:180-192 | removes the lowest ripe IDs up to the cap, stopping at the first failure |
| `Aging.SessionAging.Sweep` | fe100/ffn_fe100_aging.py:128-192 | in numbers: expired are exactly the lowest IDs, up to the cap, that were live with both tokens unchanged for their timeout since the mark; every other mark is as its reading says; whatever is expired was silent by the whole history of sweeps; the tallies count the verdicts; nothing happens while recovery is required |
| `Aging.SessionAging.Drain` | fe100/ffn_fe100_aging.py:180-192 | with constant tokens and working removals n sweeps remove exactly the smaller of the backlog and n times the cap |
| `Aging.BacklogNext` | fe100/ffn_fe100_aging.py:169-178 | while tokens stay constant a backlog only loses what a sweep removed |
| `Aging.SessionAging.Outlast` | fe100/ffn_fe100_aging.py:128-192 | a ripe session with constant tokens is gone once the cap has been used up on those with no higher ID, whatever the others do |
| `Aging.Takeover` | fe100/ffn_fe100_aging.py:128-192 | sweep, remove, install under the same ID, sweep: the second sweep expires the new session if and only if both its tokens equal its predecessor's and a timeout has passed since that mark |
| `Aging.SameCountSameTime` | fe100/ffn_fe100_flowstats.py:212-225 | an unchanged activity count means an unchanged time of last activity |
| `Aging.SilenceVisibleWithinFreshness` | fe100/ffn_fe100_flowstats.py:252-260 | the native token can show silence for a timeout if and only if the timeout is within the freshness window |
| `Aging.StaleCountersNeverRipen` | fe100/ffn_fe100_flowstats.py:252-260 | a session timed by that token is never ripe under a longer timeout |
| `Counters.SumConcat` | fe100/ffn_fe100_flowstats.py:212-225 | the totals of two streams in a row add up |
| `Counters.SumBounds` | fe100/ffn_fe100_flowstats.py:212-225 | totals are never negative and activity never exceeds packets |
| `Counters.SumIs` | fe100/ffn_fe100_flowstats.py:212-225 | the totals of a flow are the sums of its records' packets and octets, and its activity the number of its records with packets whose reason is not 2 |
| `Counters.BooksMore` | fe100/ffn_fe100_flowstats.py:212-225 | crediting a message keeps every live flow exactly accounted since its registration |
| `Counters.CounterStream.Register` | fe100/ffn_fe100_flowstats.py:147-162 | succeeds exactly for a valid entry with a fresh nonzero ID within the budget, or the same entry again; an ID never changes owner |
| `Counters.CounterStream.Forget` | fe100/ffn_fe100_flowstats.py:164-167 | moves a live ID to the retired ones, for good |
| `Counters.CounterStream.CheckReceiver` | fe100/ffn_fe100_flowstats.py:125-132 | passes exactly for a timed receiver heard from within its timeout, by a clock that has not gone back; a failure changes no total |
| `Counters.CounterStream.Activity` | fe100/ffn_fe100_flowstats.py:252-260 | a token is the activity count of the entry's own live flow, given exactly if its last traffic is within the freshness window, by a clock that has not gone back |
| `Counters.CounterStream.Inspect` | fe100/ffn_fe100_flowstats.py:173-211 | passes exactly what is well-formed, of this stream, next in sequence and at a time that has not gone back, before any total changes; a failure ends the stream |
| `Counters.CounterStream.Absorb` | fe100/ffn_fe100_flowstats.py:212-225 | every record is credited to the live flow of its ID; the others are only counted as ignored |
| `Counters.CounterStream.Consume` | fe100/ffn_fe100_flowstats.py:173-230 | an event is accepted whole exactly if it is well-formed and next in sequence: each live flow gains the sums of its records' packets and octets, one activity for each with packets and reason other than 2, and the time of the event if there was one; otherwise the stream is unavailable and no total changed |
| `Accounting.SinceLastSync` | fe100/ffn_fe100_accounting.py:60-69 | a live flow's totals are those of the last sync plus what was reported since, and only a report changes them |
| `Accounting.Idle` | fe100/ffn_fe100_accounting.py:70-74 | with nothing counted there was no activity either |
| `Accounting.AccountedSession.Bind` | fe100/ffn_fe100_accounting.py:23-41 | binds only entries that match the conntrack object, before anything was reported for them |
| `Accounting.PairBinds` | fe100/ffn_fe100_accounting.py:24-32 | the entries that an encoded, labelled pair stands for may always be bound to the connection it was made from |
| `Accounting.AccountedSession.Fence` | fe100/ffn_fe100_accounting.py:43-50 | the kernel reference is closed only after the withdrawal is acknowledged, and the IDs are retired only after that |
| `Accounting.AccountedSession.Deltas` | fe100/ffn_fe100_accounting.py:59-69 | the change of each direction, with its activity bit, or a refusal for a stale report |
| `Accounting.AccountedSession.Sync` | fe100/ffn_fe100_accounting.py:52-83 | after a successful sync the acknowledged updates equal the reported totals in each direction; nothing stale is told; saying nothing loses nothing; a failure fences for good; with a steady clock and a working kernel it succeeds if and only if both flows are live and what they gained is fresh |
| `Accounting.AccountedSession.Deliver` | fe100/ffn_fe100_accounting.py:75-80 | an acknowledged update makes the kernel's sums equal the whole reported history; a failed one is at most one unacknowledged update |
| `Accounting.ReservedAreNew` | fe100/ffn_fe100_flow_ids.py:38-53 | the next two reserved IDs have never been handed out |
| `Accounting.Label` | fe100/ffn_fe100_flow_ids.py:56-66 | freshly reserved IDs have never been registered, so within the budget both directions are, with zero totals |
| `Accounting.TrackedOn` | fe100/ffn_fe100_flowstats.py:147-167 | a session's account stands whatever else is registered, retired or reported |
| `Accounting.Run` | fe100/ffn_fe100_accounting.py:22-83 | over any interleaving the acknowledged updates are exactly the reported deltas up to the last successful sync, the kernel was told at most one more, and no ID changed owner |
| `Guard.InvStep` | fe100/ffn_fe100_guard.py:92-188 | every step of supervisor, child and kernel, a spawn whose handle is lost included, keeps the invariant |
| `Guard.Reachable` | fe100/ffn_fe100_guard.py:92-198 | the invariant holds after every sequence of steps, failures, deaths and restarts |
| `Guard.SingleOwner` | fe100/ffn_fe100_guard.py:107-134 | startup recovery runs, and a start is announced, only while no process can do device work, whatever was lost before |
| `Guard.SingleLineage` | fe100/ffn_fe100_guard.py:72-82 | all processes that can work belong to one group, and the durable report names it |
| `Guard.HandledIff` | fe100/ffn_fe100_guard.py:85-139 | that every process is held, in the group or dead ends exactly with a failure between the fork and the assignment of the child |
| `Guard.RecoveryExclusiveIff` | fe100/ffn_fe100_guard.py:85-188 | at every reachable state: no recovery overlaps a process that can work, in any continuation without such a failure, if and only if every process is held, in the group or dead |
| `Guard.HeldRunIsExclusive` | fe100/ffn_fe100_guard.py:107-188 | in a run without such a failure no recovery overlaps a process that can work, a child still in bootstrap included |
| `Guard.LostChildOverlaps` | fe100/ffn_fe100_guard.py:85-198 | the run: after such a failure the final recovery runs while the bootstrap joins the group and starts the owner |
| `Mailbox.ConflictIsOverlap` | ffn_oct.py:1308-1314 | the region check refuses exactly the images that overlap the mailbox |
| `Mailbox.Target.Step` | ffn_oct.py:469-476 | the bootloader's steps keep the protocol and leave an idle mailbox alone |
| `Mailbox.BootBar.WriteBytes` | ffn_oct.py:899-902 | recorded always, applied unless in dry run; bytes may land one at a time into an idle mailbox behind its state word |
| `Mailbox.BootBar.WaitReady` | ffn_oct.py:479-490 | ready means that everything published has been consumed; polls stay within the budget |
| `Mailbox.BootBar.Fill` | ffn_oct.py:518-522 | leaves the complete command in an idle mailbox |
| `Mailbox.BootBar.Ring` | ffn_oct.py:523-524 | publishes exactly the command in the mailbox; the state word lands byte by byte while the bootloader runs |
| `Mailbox.BootBar.Send` | ffn_oct.py:492-539 | publishes the command once, with the doorbell last, or nothing; success means consumed; it is published whenever the window is live, dry-run report or not |
| `Mailbox.BootBar.Load` | ffn_oct.py:599-628 | stages the image exactly and keeps the protocol, for regions clear of the mailbox |
| `Mailbox.BootBar.Publish` | ffn_oct.py:631-646 | success means both announcements were consumed, in order, and read word by word they set fileaddr and filesize to this address and size |
| `Mailbox.BootBar.ProgramFpga` | ffn_oct.py:1317-1357 | success means the command was consumed, and that the region which its words name, read as hexadecimal, holds the bitstream; refusals write nothing |
| `Mailbox.HexRoundTrip` | ffn_oct.py:1286-1293 | bare hexadecimal reads back as the number printed |
| `Mailbox.DigitsAreHexadecimal` | ffn_oct.py:1286-1293 | the sixteen digits are those of lower-case hexadecimal |
| `Mailbox.CommandNamesItsRegion` | ffn_oct.py:1238-1305 | two equal program commands name the same address, size and options |
| `Mailbox.CommandTells` | ffn_oct.py:1238-1305 | the words of a program command read back: after addr=, size= and delay= stand these numbers in hexadecimal, no delay without one, and it ends in force exactly if asked to |
| `Mailbox.AnnouncementsTell` | ffn_oct.py:638 | the announcements read back as setting fileaddr and filesize to these numbers |
| `Mailbox.WordsOfJoin` | ffn_oct.py:1286-1305 | words joined by single spaces are found again by splitting at spaces |
| `Mailbox.Run` | ffn_oct.py:479-539 | over any series of deliveries, timed out or not, commands are consumed as published, in order, each once |
| `UbootEnv.Utf8` | ffn_oct.py:747 | one byte for an ASCII character, several bytes of 128 or more for any other |
| `UbootEnv.Utf8Bits` | ffn_oct.py:747 | the bytes of a character carry its code point: one to four by its size, the lead byte marked with their number, six bits in each of the others |
| `UbootEnv.EncodeLength` | ffn_oct.py:747 | encoding lengthens exactly the texts that are not ASCII |
| `UbootEnv.Build` | ffn_oct.py:736-754 | succeeds exactly for legal pairs that fit, with the checksum over body and padding in front, most or least significant byte first as chosen |
| `UbootEnv.Collect` | ffn_oct.py:766-771 | the loop yields the entries up to the first empty one, later keys replacing earlier ones |
| `UbootEnv.Parse` | ffn_oct.py:757-772 | short blocks are refused; otherwise the verdict is whether the first four bytes are the checksum, read in the chosen byte order, and the map that of the entries |
| `UbootEnv.BlockParses` | ffn_oct.py:736-772 | every block that is built parses with a good checksum, in either byte order and at every size, to the pairs as ASCII renders them |
| `UbootEnv.RoundTrip` | ffn_oct.py:736-772 | that is the environment it was built from if and only if all of it is ASCII |
| `UbootEnv.BuildAndCheck` | ffn_oct.py:823-837 | building and reading back reports a good checksum and, for ASCII pairs, every pair |

## Left out

- Register access, ctypes bridges, C shims and their readiness reports: they are the abstract adapter, with `ready` and `natQualified` set by the environment.
- The single-tuple `admit` of `PolicyOwner`: only the paired admission that serves NAT is modelled.
- `SessionLifecycle` without path resources: the model always has a `PathSessions` below it.
- SHA-256 digests: path identities, policy digests and binding digests are taken as collision-free; CRC-32 is any function.
- Addresses are 32-bit numbers: the parsing of dotted text is not modelled, nor are name and digest patterns beyond their length and alphabet.
- Single-zone callers of `session_pair4`: the model takes the pair of zones that the single zone stands for.
- Hardware bytes of next hops, source MACs and attachment records: a slot of `Paths` holds the fields of its frame, and the encoder of `Attachments` is any function.
- Checks of configured timeouts and capacities: any are taken, and where positive ones are needed the member says so.
- Outside writers: they may write any entry that is not an owned variant and may remove their own, but do not free a key that a recorded session uses; in the path and attachment slots they do not write at all while the owner runs.
- Guard: heartbeat tokens, deadlines and the text of reports are not modelled; a missed heartbeat is the step that stops watching.
- FlowIds.Namespace.Ensure: the hardware probe is its report; the archive rows of a rollover are not kept.
- Accounting.AccountedSession.Sync: process death inside a kernel call is not modelled, since the accounting keeps nothing durable.
- Mailbox.BootBar.Load: an address window has no end in the model, and the bootloader is taken to leave the image region alone where the caller says so; two images staged at one address are not told apart.
- Mailbox.Target.Step: the bootloader reads a whole command in one step, which is the same as byte by byte because the host never writes the mailbox then.
- `FlowStatsProbe`, record decoders and the session stream: decoding of fixed formats with easy claims.
- Configuration, discovery, command line, logging, clocks and vendor bring-up recipes.
