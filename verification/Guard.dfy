/** The owner supervisor: one lineage of owner processes across supervisor deaths, by control groups.

    The supervisor, the processes it spawns and the kernel take turns.  A supervisor may die between any two of
    its steps; the report file and the control groups outlive it, and so do the processes. */
module Guard {
  import opened Outcomes

  type Nonce = nat
  type Pid = nat

  /** A child starts as a bootstrap, joins the group named in its environment, and only then becomes the owner. */
  datatype Stage = Bootstrap | Joined | Working
  datatype Process = Process(nonce: Nonce, stage: Stage)

  /** Where the supervisor is.  The two recoveries are the device work of the supervisor itself. */
  datatype Supervisor =
    | Down
    | Opening
    | Killing(prior: Nonce)
    | Waiting(prior: Nonce)
    | Removing(prior: Nonce)
    | Cleared
    | StartupRecovery
    | Recovered
    | Made(group: Nonce)
    | Announced(group: Nonce)
    | Watching(group: Nonce, child: Pid)
    | KillingChild(group: Nonce, child: Pid)
    | KillingGroup(group: Nonce)
    | WaitingEmpty(group: Nonce)
    | Stopped(group: Nonce)
    | FinalRecovery(group: Nonce)
    | Withdrawn(group: Nonce)
    | Ended

  datatype State = State(
    supervisor: Supervisor,
    report: Option<Nonce>,          // the group named in the durable report
    groups: set<Nonce>,             // existing control groups
    processes: map<Pid, Process>,   // live processes
    used: set<Nonce>)               // identities ever drawn
  {
    function Members(n: Nonce): set<Pid> {
      set p | p in processes && processes[p].nonce == n && !processes[p].stage.Bootstrap?
    }
    function Without(dead: set<Pid>): State {
      this.(processes := processes - dead)
    }
    function At(s: Supervisor): State {
      this.(supervisor := s)
    }
  }

  datatype Step =
    | Launch | ReadReport | KillOld | SeeOldEmpty | RemoveOld | PublishRecovering | RecoveryDone
    | MakeGroup(drawn: Nonce) | Announce | Spawn(pid: Pid) | SpawnLost(pid: Pid) | StopWatching | KillChild | KillGroup | SeeEmpty
    | PublishDraining | FinalDone | RemoveGroup | PublishDrained
    | Block             // an exception: the supervisor reports and exits
    | Die               // the supervisor is killed
    | Join(p: Pid) | Exec(p: Pid) | Fork(p: Pid, child: Pid) | Exit(p: Pid)
    | Reboot

  /** One step, or nothing when the step is not enabled. */
  function Apply(s: State, step: Step): State {
    match step
    case Launch => if s.supervisor.Down? then s.At(Opening) else s
    case ReadReport =>
      if !s.supervisor.Opening? then s
      else if s.report.None? || s.report.value !in s.groups then s.At(Cleared)
      else s.At(Killing(s.report.value))
    case KillOld =>
      if s.supervisor.Killing? then s.Without(s.Members(s.supervisor.prior)).At(Waiting(s.supervisor.prior)) else s
    case SeeOldEmpty =>
      if s.supervisor.Waiting? && s.Members(s.supervisor.prior) == {} then s.At(Removing(s.supervisor.prior)) else s
    case RemoveOld =>
      if !s.supervisor.Removing? then s
      else if s.Members(s.supervisor.prior) != {} then s.At(Down)   // the directory is busy
      else s.(groups := s.groups - {s.supervisor.prior}, supervisor := Cleared)
    case PublishRecovering => if s.supervisor.Cleared? then s.(report := None, supervisor := StartupRecovery) else s
    case RecoveryDone => if s.supervisor.StartupRecovery? then s.At(Recovered) else s
    case MakeGroup(n) =>
      if s.supervisor.Recovered? && n !in s.used then s.(groups := s.groups + {n}, used := s.used + {n}, supervisor := Made(n)) else s
    case Announce => if s.supervisor.Made? then s.(report := Some(s.supervisor.group), supervisor := Announced(s.supervisor.group)) else s
    case Spawn(pid) =>
      if s.supervisor.Announced? && pid !in s.processes then
        s.(processes := s.processes[pid := Process(s.supervisor.group, Bootstrap)], supervisor := Watching(s.supervisor.group, pid))
      else s
    case SpawnLost(pid) =>                            // interrupted between the fork and the assignment of its handle
      if s.supervisor.Announced? && pid !in s.processes then
        s.(processes := s.processes[pid := Process(s.supervisor.group, Bootstrap)], supervisor := KillingGroup(s.supervisor.group))
      else s
    case StopWatching =>
      (match s.supervisor
       case Watching(n, c) => s.At(KillingChild(n, c))
       case Made(n) => s.At(KillingGroup(n))        // nothing was spawned
       case Announced(n) => s.At(KillingGroup(n))
       case _ => s)
    case KillChild =>
      if s.supervisor.KillingChild? then s.Without({s.supervisor.child}).At(KillingGroup(s.supervisor.group)) else s
    case KillGroup =>
      if s.supervisor.KillingGroup? then s.Without(s.Members(s.supervisor.group)).At(WaitingEmpty(s.supervisor.group)) else s
    case SeeEmpty =>
      if s.supervisor.WaitingEmpty? && s.Members(s.supervisor.group) == {} then s.At(Stopped(s.supervisor.group)) else s
    case PublishDraining =>
      if s.supervisor.Stopped? then s.(report := Some(s.supervisor.group), supervisor := FinalRecovery(s.supervisor.group)) else s
    case FinalDone => if s.supervisor.FinalRecovery? then s.At(Withdrawn(s.supervisor.group)) else s
    case RemoveGroup =>
      if s.supervisor.Withdrawn? && s.Members(s.supervisor.group) == {} then s.(groups := s.groups - {s.supervisor.group}, supervisor := Ended) else s
    case PublishDrained => if s.supervisor.Ended? then s.(report := None, supervisor := Down) else s
    case Block =>
      (match s.supervisor
       case KillingChild(n, _) => s.(report := Some(n), supervisor := Down)
       case KillingGroup(n) => s.(report := Some(n), supervisor := Down)
       case WaitingEmpty(n) => s.(report := Some(n), supervisor := Down)
       case Stopped(n) => s.(report := Some(n), supervisor := Down)
       case FinalRecovery(n) => s.(report := Some(n), supervisor := Down)
       case Withdrawn(n) => s.(report := Some(n), supervisor := Down)
       case Watching(_, _) | Made(_) | Announced(_) => s   // handled by StopWatching
       case _ => s.At(Down))
    case Die => s.At(Down)
    case Join(p) =>
      if p !in s.processes || !s.processes[p].stage.Bootstrap? then s
      else if s.processes[p].nonce in s.groups then s.(processes := s.processes[p := s.processes[p].(stage := Joined)])
      else s.Without({p})                             // no such group: the bootstrap fails
    case Exec(p) =>
      if p in s.processes && s.processes[p].stage.Joined? then s.(processes := s.processes[p := s.processes[p].(stage := Working)]) else s
    case Fork(p, child) =>
      if p in s.processes && s.processes[p].stage.Working? && child !in s.processes
      then s.(processes := s.processes[child := s.processes[p]]) else s
    case Exit(p) => s.Without({p})
    case Reboot => s.(supervisor := Down, groups := {}, processes := map[])
  }

  const Initial := State(Down, None, {}, map[], {})

  function Execute(s: State, steps: seq<Step>): State
    decreases |steps|
  {
    if steps == [] then s else Apply(Execute(s, steps[..|steps| - 1]), steps[|steps| - 1])
  }

  // ---------------------------------------------------------------- what is proved

  /** Does device work now, or will without anyone's further help. */
  predicate CanWork(s: State, p: Pid)
    requires p in s.processes
  {
    !s.processes[p].stage.Bootstrap? || s.processes[p].nonce in s.groups
  }

  predicate Quiet(s: State) {
    forall p :: p in s.processes ==> !CanWork(s, p)
  }

  /** Nobody else may touch the device: a recovery runs, or an owner is about to start. */
  predicate Exclusive(s: State) {
    s.supervisor.StartupRecovery? || s.supervisor.FinalRecovery? || s.supervisor.Announced? ==> Quiet(s)
  }

  /** Where the supervisor knows that it is alone. */
  predicate Alone(v: Supervisor) {
    v.Cleared? || v.StartupRecovery? || v.Recovered? || v.Made? || v.Announced? || v.Ended?
  }

  predicate Inv(s: State) {
    && s.groups <= s.used
    && (forall p :: p in s.processes ==> s.processes[p].nonce in s.used)
    // members belong to existing groups, and a group that anything can work in is the reported one
    && (forall p :: p in s.processes && !s.processes[p].stage.Bootstrap? ==> s.processes[p].nonce in s.groups)
    && (forall p :: p in s.processes && CanWork(s, p) ==> s.report == Some(s.processes[p].nonce))
    && (Alone(s.supervisor) ==> Quiet(s))
    && match s.supervisor
       case Killing(n) => s.report == Some(n)
       case Waiting(n) => s.report == Some(n)
       case Removing(n) => s.report == Some(n)
       case Made(n) => n in s.groups && NoProcess(s, n)
       case Announced(n) => n in s.groups && s.report == Some(n) && NoProcess(s, n)
       case Watching(n, c) => n in s.groups && s.report == Some(n) && OnlyBootstrap(s, n, c)
       case KillingChild(n, c) => n in s.groups && s.report == Some(n) && OnlyBootstrap(s, n, c)
       case KillingGroup(n) => Reported(s, n)
       case WaitingEmpty(n) => Reported(s, n)
       case Stopped(n) => Reported(s, n)
       case FinalRecovery(n) => Reported(s, n)
       case Withdrawn(n) => Reported(s, n)
       case _ => true
  }

  /** The group under cleanup exists, and the report names it unless nothing can work in any. */
  predicate Reported(s: State, n: Nonce) {
    n in s.groups && (s.report == Some(n) || Quiet(s))
  }

  /** The only process of this group that may not have joined yet is the child itself. */
  predicate OnlyBootstrap(s: State, n: Nonce, c: Pid) {
    forall p :: p in s.processes && s.processes[p].nonce == n && s.processes[p].stage.Bootstrap? ==> p == c
  }

  predicate NoBootstrap(s: State, n: Nonce) {
    forall p :: p in s.processes && s.processes[p].nonce == n ==> !s.processes[p].stage.Bootstrap?
  }

  predicate NoProcess(s: State, n: Nonce) {
    forall p :: p in s.processes ==> s.processes[p].nonce != n
  }

  /** The cleanup of a group reaches all of its processes: none is still outside the group while the group is being
      killed, and none is left once it was seen empty. */
  predicate Handled(s: State) {
    match s.supervisor
    case KillingGroup(n) => NoBootstrap(s, n)
    case WaitingEmpty(n) => NoBootstrap(s, n)
    case Stopped(n) => NoProcess(s, n)
    case FinalRecovery(n) => NoProcess(s, n)
    case _ => true
  }

  /** The step forks a child whose handle the supervisor never gets. */
  predicate Loses(s: State, step: Step) {
    step.SpawnLost? && s.supervisor.Announced? && step.pid !in s.processes
  }

  predicate NoLoss(steps: seq<Step>) {
    forall i :: 0 <= i < |steps| ==> !steps[i].SpawnLost?
  }

  lemma InvStep(s: State, step: Step)
    requires Inv(s)
    ensures Inv(Apply(s, step))
  {
    match step
    case KillOld | SeeOldEmpty | RemoveOld | KillChild | KillGroup | SeeEmpty | RemoveGroup => StopStep(s, step);
    case Join(_) | Exec(_) | Fork(_, _) | Exit(_) => ProcessStep(s, step);
    case MakeGroup(_) | Announce | Spawn(_) | SpawnLost(_) | StopWatching => StartStep(s, step);
    case _ =>
  }

  lemma ProcessStep(s: State, step: Step)
    requires Inv(s) && (step.Join? || step.Exec? || step.Fork? || step.Exit?)
    ensures Inv(Apply(s, step))
  {
  }

  lemma StartStep(s: State, step: Step)
    requires Inv(s) && (step.MakeGroup? || step.Announce? || step.Spawn? || step.SpawnLost? || step.StopWatching?)
    ensures Inv(Apply(s, step))
  {
  }

  lemma StopStep(s: State, step: Step)
    requires Inv(s) && (step.KillOld? || step.SeeOldEmpty? || step.RemoveOld? || step.KillChild? || step.KillGroup? || step.SeeEmpty? || step.RemoveGroup?)
    ensures Inv(Apply(s, step))
  {
    forall n, p | p in s.processes && s.processes[p].nonce == n && !s.processes[p].stage.Bootstrap?
      ensures p in s.Members(n)
    {
    }
  }

  /** Every reachable state satisfies the invariant, lost children included. */
  lemma {:induction false} Reachable(steps: seq<Step>)
    ensures Inv(Execute(Initial, steps))
    decreases |steps|
  {
    if steps == [] {
      assert Inv(Initial);
    } else {
      Reachable(steps[..|steps| - 1]);
      InvStep(Execute(Initial, steps[..|steps| - 1]), steps[|steps| - 1]);
    }
  }

  /** At every moment all processes that can work belong to one group, and the durable report names it. */
  lemma SingleLineage(steps: seq<Step>, p: Pid, q: Pid)
    requires var s := Execute(Initial, steps); p in s.processes && q in s.processes && CanWork(s, p) && CanWork(s, q)
    ensures var s := Execute(Initial, steps);
      s.processes[p].nonce == s.processes[q].nonce && s.report == Some(s.processes[p].nonce)
  {
    Reachable(steps);
  }

  /** No startup recovery runs and no owner is started while a process of any earlier group does device work or still
      could, whatever was lost before. */
  lemma SingleOwner(steps: seq<Step>)
    ensures var s := Execute(Initial, steps); s.supervisor.StartupRecovery? || s.supervisor.Announced? ==> Quiet(s)
  {
    Reachable(steps);
  }

  // ------------------------------------------------------- the final recovery

  /** Cleanup keeps reaching everything except across a step that loses a child. */
  lemma HandledIff(s: State, step: Step)
    requires Inv(s) && Handled(s)
    ensures Handled(Apply(s, step)) <==> !Loses(s, step)
  {
    forall n, p | p in s.processes && s.processes[p].nonce == n && !s.processes[p].stage.Bootstrap?
      ensures p in s.Members(n)
    {
    }
    if Loses(s, step) {
      assert step.pid in Apply(s, step).processes;
    }
  }

  lemma {:induction false} HandledStays(s: State, more: seq<Step>)
    requires Inv(s) && Handled(s) && NoLoss(more)
    ensures Inv(Execute(s, more)) && Handled(Execute(s, more))
    decreases |more|
  {
    if more == [] {
      assert Execute(s, more) == s;
    } else {
      var n := |more| - 1;
      HandledStays(s, more[..n]);
      InvStep(Execute(s, more[..n]), more[n]);
      HandledIff(Execute(s, more[..n]), more[n]);
    }
  }

  lemma {:induction false} ExecuteFirst(s: State, step: Step, more: seq<Step>)
    ensures Execute(s, [step] + more) == Execute(Apply(s, step), more)
    decreases |more|
  {
    var all := [step] + more;
    if more == [] {
      assert all == [step] && all[..0] == [];
    } else {
      var n := |more| - 1;
      ExecuteFirst(s, step, more[..n]);
      assert all[..|all| - 1] == [step] + more[..n] && all[|all| - 1] == more[n];
    }
  }

  /** From a cleanup that misses a process the supervisor can go on to recover beside it. */
  lemma Overlap(s: State) returns (more: seq<Step>)
    requires Inv(s) && !Handled(s)
    ensures NoLoss(more) && !Exclusive(Execute(s, more))
    decreases match s.supervisor case KillingGroup(_) => 3 case WaitingEmpty(_) => 2 case Stopped(_) => 1 case _ => 0,
              match s.supervisor case WaitingEmpty(n) => |s.Members(n)| case _ => 0
  {
    if s.supervisor.FinalRecovery? {
      var p :| p in s.processes && s.processes[p].nonce == s.supervisor.group;
      assert CanWork(s, p);
      return [];
    }
    var n := s.supervisor.group;
    var step: Step;
    if s.supervisor.WaitingEmpty? && s.Members(n) != {} {
      var q :| q in s.Members(n);
      step := Exit(q);
      assert Apply(s, step).Members(n) == s.Members(n) - {q};
    } else {
      step := if s.supervisor.KillingGroup? then KillGroup else if s.supervisor.WaitingEmpty? then SeeEmpty else PublishDraining;
    }
    MissedStays(s, step);
    var rest := Overlap(Apply(s, step));
    ExecuteFirst(s, step, rest);
    more := [step] + rest;
  }

  lemma MissedStays(s: State, step: Step)
    requires Inv(s) && !Handled(s) && !s.supervisor.FinalRecovery?
    requires match s.supervisor
             case KillingGroup(_) => step.KillGroup?
             case WaitingEmpty(n) => if s.Members(n) == {} then step.SeeEmpty? else step.Exit? && step.p in s.Members(n)
             case _ => step.PublishDraining?
    ensures var t := Apply(s, step); Inv(t) && !Handled(t) && t.supervisor.group == s.supervisor.group
    ensures var t := Apply(s, step); match s.supervisor
            case KillingGroup(_) => t.supervisor.WaitingEmpty?
            case WaitingEmpty(n) => if s.Members(n) == {} then t.supervisor.Stopped? else t.supervisor.WaitingEmpty?
            case _ => t.supervisor.FinalRecovery?
  {
    InvStep(s, step);
    var n := s.supervisor.group;
    if s.supervisor.KillingGroup? || s.supervisor.WaitingEmpty? {
      var p :| p in s.processes && s.processes[p].nonce == n && s.processes[p].stage.Bootstrap?;
      assert p in Apply(s, step).processes;
    }
  }

  /** From any reachable state, recovery stays exclusive for as long as no further child is lost exactly when the cleanup
      under way reaches all of its group: for every way in which supervisors, processes and the kernel may go on. */
  lemma RecoveryExclusiveIff(steps: seq<Step>)
    ensures var s := Execute(Initial, steps); (forall more :: NoLoss(more) ==> Exclusive(Execute(s, more))) <==> Handled(s)
  {
    Reachable(steps);
    var s := Execute(Initial, steps);
    if Handled(s) {
      forall more | NoLoss(more)
        ensures Exclusive(Execute(s, more))
      {
        HandledStays(s, more);
      }
    } else {
      var more := Overlap(s);
    }
  }

  /** So a run in which the handle of every spawned child was held never recovers beside a process that can work. */
  lemma HeldRunIsExclusive(steps: seq<Step>)
    requires NoLoss(steps)
    ensures Exclusive(Execute(Initial, steps))
  {
    HandledStays(Initial, steps);
  }

  /** And wherever a child is lost, it may join its group and become the owner while the final recovery runs. */
  lemma LostChildOverlaps(steps: seq<Step>, pid: Pid)
    requires Loses(Execute(Initial, steps), SpawnLost(pid))
    ensures var s := Execute(Initial, steps);
      var t := Apply(Apply(Apply(Apply(s, SpawnLost(pid)), KillGroup), SeeEmpty), PublishDraining);
      var u := Apply(Apply(t, Join(pid)), Exec(pid));
      && t.supervisor.FinalRecovery? && !Exclusive(t) && u.supervisor == t.supervisor && pid in u.processes && u.processes[pid].stage.Working?
  {
    Reachable(steps);
    hide Execute;
    var s := Execute(Initial, steps);
    var n := s.supervisor.group;
    NothingToKill(Apply(s, SpawnLost(pid)), n);
    hide Inv;
    JoinsLate(Apply(s, SpawnLost(pid)), n, pid);
  }

  lemma JoinsLate(s: State, n: Nonce, pid: Pid)
    requires pid in s.processes && s.processes[pid] == Process(n, Bootstrap) && n in s.groups
    ensures var t := s.(report := Some(n), supervisor := FinalRecovery(n));
      var u := Apply(Apply(t, Join(pid)), Exec(pid));
      && !Exclusive(t) && u.supervisor == t.supervisor && pid in u.processes && u.processes[pid].stage.Working?
  {
    var t := s.(report := Some(n), supervisor := FinalRecovery(n));
    assert CanWork(t, pid);
  }

  /** With no member in the group, its cleanup kills nothing and goes on. */
  lemma NothingToKill(s: State, n: Nonce)
    requires s.supervisor == KillingGroup(n) && s.Members(n) == {}
    ensures Apply(Apply(Apply(s, KillGroup), SeeEmpty), PublishDraining) == s.(report := Some(n), supervisor := FinalRecovery(n))
  {
    assert s.processes - {} == s.processes;
    var t := s.(supervisor := WaitingEmpty(n));
    assert Apply(s, KillGroup) == t && t.Members(n) == s.Members(n);
  }
}
