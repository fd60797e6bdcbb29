/** Exactly-once scheduling by any number of instances (backup-scheduler.service.ts, and
    createPlan/updatePlan/deletePlan of backups.service.ts).

    The scheduler lock is deliberately absent: instances overlap freely, act on stale reads
    and on a stale clock.  One claim transaction and one plan update are one step each. */
module Scheduler {
  import opened Options
  import Schedule

  type PlanId = nat
  type Zones = string -> Schedule.Zone

  datatype Timing = Timing(plan: Schedule.Plan, timezone: string)
  datatype PlanRow = PlanRow(enabled: bool, timing: Timing, nextRunAt: Option<int>)

  /** A scheduled job; `claimedAt` is the `now` of the cycle that created it (lastRunAt). */
  datatype Job = Job(plan: PlanId, scheduledFor: int, claimedAt: int)

  datatype Instance =
    | Idle
    | Started(now: int)
    | Walking(now: int, todo: seq<(PlanId, PlanRow)>)

  datatype State = State(
    now: int,
    plans: map<PlanId, PlanRow>,
    usedIds: set<PlanId>,
    jobs: seq<Job>,
    instances: map<nat, Instance>)

  datatype Step =
    | Tick(delta: nat)
    | StartCycle(instance: nat)
    | ReadPlans(instance: nat, order: seq<PlanId>)
    | WalkNext(instance: nat)
    | InstanceDies(instance: nat)
    | CreatePlan(id: PlanId, enabled: bool, timing: Timing)
    | UpdatePlan(id: PlanId, newEnabled: Option<bool>, newTiming: Option<Timing>)
    | DeletePlan(id: PlanId)

  function NextFor(zones: Zones, timing: Timing, now: int): (next: Option<int>)
    ensures next.Some? ==> now < next.value
  {
    Schedule.NextRun(zones(timing.timezone), timing.plan, now)
  }

  /** The unique constraint on (planId, scheduledFor). */
  predicate HasJob(jobs: seq<Job>, id: PlanId, dueAt: int) {
    exists k | 0 <= k < |jobs| :: jobs[k].plan == id && jobs[k].scheduledFor == dueAt
  }

  /** The plans and jobs after one turn of the loop in scheduleDuePlans, with the row as it was
      read; None if computing the next run throws, which ends the cycle. */
  function HandlePlan(zones: Zones, plans: map<PlanId, PlanRow>, jobs: seq<Job>, id: PlanId, read: PlanRow, now: int):
    Option<(map<PlanId, PlanRow>, seq<Job>)>
  {
    if read.nextRunAt.Some? && read.nextRunAt.value > now then Some((plans, jobs))
    else
      match NextFor(zones, read.timing, now)
      case None => None
      case Some(next) =>
        if !(id in plans && plans[id].enabled && plans[id].nextRunAt == read.nextRunAt) then Some((plans, jobs))
        else if read.nextRunAt.None? then Some((plans[id := plans[id].(nextRunAt := Some(next))], jobs))
        else if HasJob(jobs, id, read.nextRunAt.value) then Some((plans, jobs))
        else Some((plans[id := plans[id].(nextRunAt := Some(next))], jobs + [Job(id, read.nextRunAt.value, now)]))
  }

  function InstanceOf(s: State, i: nat): Instance {
    if i in s.instances then s.instances[i] else Idle
  }

  function Apply(zones: Zones, s: State, step: Step): State {
    match step
    case Tick(delta) => s.(now := s.now + delta)
    case StartCycle(i) =>
      if InstanceOf(s, i).Idle? then s.(instances := s.instances[i := Started(s.now)]) else s
    case ReadPlans(i, order) =>
      if InstanceOf(s, i).Started? && forall id | id in order :: id in s.plans && s.plans[id].enabled
      then
        var todo := seq(|order|, k requires 0 <= k < |order| && order[k] in s.plans => (order[k], s.plans[order[k]]));
        s.(instances := s.instances[i := Walking(s.instances[i].now, todo)])
      else s
    case WalkNext(i) =>
      (match InstanceOf(s, i)
       case Walking(now, todo) =>
         if todo == [] then s.(instances := s.instances[i := Idle])
         else
           (match HandlePlan(zones, s.plans, s.jobs, todo[0].0, todo[0].1, now)
            case None => s.(instances := s.instances[i := Idle])
            case Some((plans, jobs)) => s.(plans := plans, jobs := jobs, instances := s.instances[i := Walking(now, todo[1..])]))
       case _ => s)
    case InstanceDies(i) => s.(instances := s.instances[i := Idle])
    case CreatePlan(id, enabled, timing) =>
      var next := NextFor(zones, timing, s.now);
      if id in s.usedIds || (enabled && next.None?) then s
      else s.(plans := s.plans[id := PlanRow(enabled, timing, if enabled then next else None)], usedIds := s.usedIds + {id})
    case UpdatePlan(id, enabled, timing) =>
      if id !in s.plans then s else
      var row := s.plans[id];
      var finalEnabled := if enabled.Some? then enabled.value else row.enabled;
      var finalTiming := if timing.Some? then timing.value else row.timing;
      if enabled.None? && timing.None? then s
      else
        var next := NextFor(zones, finalTiming, s.now);
        if finalEnabled && next.None? then s
        else s.(plans := s.plans[id := PlanRow(finalEnabled, finalTiming, if finalEnabled then next else None)])
    case DeletePlan(id) => s.(plans := s.plans - {id})
  }

  function Run(zones: Zones, s: State, steps: seq<Step>): State
    decreases |steps|
  {
    if steps == [] then s else Run(zones, Apply(zones, s, steps[0]), steps[1..])
  }

  /** Any plans, in particular enabled ones that never got a next run, and no jobs yet. */
  predicate Initial(s: State) {
    s.jobs == [] && s.instances == map[] && s.plans.Keys <= s.usedIds
  }

  // -------------------------------------------------------------- invariant

  predicate Invariant(s: State) {
    && s.plans.Keys <= s.usedIds
    && (forall k | 0 <= k < |s.jobs| :: s.jobs[k].plan in s.usedIds && s.jobs[k].scheduledFor <= s.jobs[k].claimedAt <= s.now)
    && (forall a, b | 0 <= a < b < |s.jobs| && s.jobs[a].plan == s.jobs[b].plan :: s.jobs[a].claimedAt < s.jobs[b].scheduledFor)
    && (forall k | 0 <= k < |s.jobs| && s.jobs[k].plan in s.plans :: Pending(s.plans[s.jobs[k].plan], s.jobs[k]))
    && (forall i | i in s.instances && !s.instances[i].Idle? :: s.instances[i].now <= s.now)
  }

  /** A plan that has a job is disabled, or its next run lies after every cycle that made one. */
  predicate Pending(row: PlanRow, job: Job) {
    (row.enabled ==> row.nextRunAt.Some?) && (row.nextRunAt.Some? ==> job.claimedAt < row.nextRunAt.value)
  }

  lemma HandlePlanKeeps(zones: Zones, s: State, id: PlanId, read: PlanRow, now: int)
    requires Invariant(s) && now <= s.now && HandlePlan(zones, s.plans, s.jobs, id, read, now).Some?
    ensures var (plans, jobs) := HandlePlan(zones, s.plans, s.jobs, id, read, now).value;
            Invariant(s.(plans := plans, jobs := jobs))
  {
    hide Schedule.IsNextRun, Schedule.IsNextCivilRun;
    var (plans, jobs) := HandlePlan(zones, s.plans, s.jobs, id, read, now).value;
    if |jobs| > |s.jobs| {
      assert forall k | 0 <= k < |s.jobs| && s.jobs[k].plan == id :: Pending(s.plans[id], s.jobs[k]);
    }
  }

  /** The next run is the first planned time after `now`, in the plan's own time zone. */
  ghost predicate NextIsPlanned(zones: Zones, row: PlanRow, now: int) {
    && row.nextRunAt == Schedule.NextRun(zones(row.timing.timezone), row.timing.plan, now)
    && (Schedule.ValidPlan(row.timing.plan) ==> Schedule.IsNextCivilRun(zones(row.timing.timezone), row.timing.plan, now, row.nextRunAt))
  }

  /** Creating, changing and deleting plans keep the invariant; a plan that is new or changed has the first
      planned time after the present as its next run if it is enabled, and none otherwise. */
  lemma PlanStepKeeps(zones: Zones, s: State, step: Step)
    requires Invariant(s) && (step.CreatePlan? || step.UpdatePlan? || step.DeletePlan?)
    ensures Invariant(Apply(zones, s, step))
    ensures var t := Apply(zones, s, step);
            forall id | id in t.plans && !(id in s.plans && t.plans[id] == s.plans[id]) ::
              if t.plans[id].enabled then t.plans[id].nextRunAt.Some? && s.now < t.plans[id].nextRunAt.value && NextIsPlanned(zones, t.plans[id], s.now)
              else t.plans[id].nextRunAt.None?
  {
    hide Apply, Invariant, NextFor, NextIsPlanned;
    InvariantKept(zones, s, step);
    var t := Apply(zones, s, step);
    forall id | id in t.plans && !(id in s.plans && t.plans[id] == s.plans[id])
      ensures if t.plans[id].enabled then t.plans[id].nextRunAt.Some? && s.now < t.plans[id].nextRunAt.value && NextIsPlanned(zones, t.plans[id], s.now)
              else t.plans[id].nextRunAt.None?
    {
      ChangedPlan(zones, s, step, id);
      if t.plans[id].enabled { NextForIsPlanned(zones, t.plans[id], s.now); }
    }
  }

  lemma InvariantKept(zones: Zones, s: State, step: Step)
    requires Invariant(s) && (step.CreatePlan? || step.UpdatePlan? || step.DeletePlan?)
    ensures Invariant(Apply(zones, s, step))
  {
    hide Schedule.IsNextCivilRun, Schedule.IsNextRun;
  }

  lemma ChangedPlan(zones: Zones, s: State, step: Step, id: PlanId)
    requires step.CreatePlan? || step.UpdatePlan? || step.DeletePlan?
    requires var t := Apply(zones, s, step); id in t.plans && !(id in s.plans && t.plans[id] == s.plans[id])
    ensures var row := Apply(zones, s, step).plans[id];
            && row.nextRunAt == (if row.enabled then NextFor(zones, row.timing, s.now) else None)
            && (row.enabled ==> row.nextRunAt.Some?)
  {
    hide NextFor;
  }

  lemma NextForIsPlanned(zones: Zones, row: PlanRow, now: int)
    requires row.nextRunAt == NextFor(zones, row.timing, now)
    ensures NextIsPlanned(zones, row, now)
  {
  }

  /** A change to a plan sets what it names and leaves the rest, recomputing the next run whenever it
      names either; it fails exactly when the plan would be enabled without a next run. */
  lemma PlanUpdateMeans(zones: Zones, s: State, id: PlanId, newEnabled: Option<bool>, newTiming: Option<Timing>)
    requires id in s.plans && (newEnabled.Some? || newTiming.Some?)
    ensures var plans, row := Apply(zones, s, UpdatePlan(id, newEnabled, newTiming)).plans, s.plans[id];
            var enabled := newEnabled == Some(true) || (newEnabled == None && row.enabled);
            var timing := if newTiming == None then row.timing else newTiming.value;
            var next := Schedule.NextRun(zones(timing.timezone), timing.plan, s.now);
            if enabled && next == None then plans == s.plans
            else
              && plans.Keys == s.plans.Keys
              && (forall other | other in plans && other != id :: plans[other] == s.plans[other])
              && plans[id].enabled == enabled && plans[id].timing == timing
              && plans[id].nextRunAt == if enabled then next else None
  {
    hide Schedule.IsNextRun, Schedule.IsNextCivilRun;
  }

  lemma StepKeeps(zones: Zones, s: State, step: Step)
    requires Invariant(s)
    ensures Invariant(Apply(zones, s, step))
  {
    match step
    case CreatePlan(_, _, _) => PlanStepKeeps(zones, s, step);
    case UpdatePlan(_, _, _) => PlanStepKeeps(zones, s, step);
    case DeletePlan(_) => PlanStepKeeps(zones, s, step);
    case WalkNext(i) =>
      if InstanceOf(s, i).Walking? && s.instances[i].todo != [] {
        var Walking(now, todo) := s.instances[i];
        if HandlePlan(zones, s.plans, s.jobs, todo[0].0, todo[0].1, now).Some? {
          HandlePlanKeeps(zones, s, todo[0].0, todo[0].1, now);
        }
      }
    case _ =>
  }

  lemma {:induction false} RunKeeps(zones: Zones, s: State, steps: seq<Step>)
    requires Invariant(s)
    ensures Invariant(Run(zones, s, steps))
    decreases |steps|
  {
    if steps != [] {
      StepKeeps(zones, s, steps[0]);
      RunKeeps(zones, Apply(zones, s, steps[0]), steps[1..]);
    }
  }

  // ------------------------------------------------------------ main results

  /** Two scheduled jobs of one plan never share a due time, both lie before the plan's next
      run, and the later one is due after the cycle that made the earlier one: whatever was
      missed before that cycle has collapsed into the earlier job. */
  lemma ExactlyOnce(zones: Zones, s: State, steps: seq<Step>, a: nat, b: nat)
    requires Initial(s)
    requires var t := Run(zones, s, steps); a < b < |t.jobs| && t.jobs[a].plan == t.jobs[b].plan
    ensures var t := Run(zones, s, steps);
            && t.jobs[a].scheduledFor <= t.jobs[a].claimedAt < t.jobs[b].scheduledFor
            && (t.jobs[a].plan in t.plans && t.plans[t.jobs[a].plan].nextRunAt.Some? ==>
                  t.jobs[b].scheduledFor < t.plans[t.jobs[a].plan].nextRunAt.value)
  {
    RunKeeps(zones, s, steps);
    var t := Run(zones, s, steps);
    if t.jobs[b].plan in t.plans { assert Pending(t.plans[t.jobs[b].plan], t.jobs[b]); }
  }

  /** The unique constraint is never what prevents a double job: a claim that matches the
      plan's next run finds no job for it. */
  lemma ConstraintNeverHit(zones: Zones, s: State, steps: seq<Step>, id: PlanId)
    requires Initial(s)
    requires var t := Run(zones, s, steps); id in t.plans && t.plans[id].nextRunAt.Some?
    ensures var t := Run(zones, s, steps); !HasJob(t.jobs, id, t.plans[id].nextRunAt.value)
  {
    RunKeeps(zones, s, steps);
    var t := Run(zones, s, steps);
    forall k | 0 <= k < |t.jobs| && t.jobs[k].plan == id ensures t.jobs[k].scheduledFor != t.plans[id].nextRunAt.value {
      assert Pending(t.plans[id], t.jobs[k]);
    }
  }

  lemma DueIsHandled(zones: Zones, s: State, id: PlanId)
    requires Invariant(s) && id in s.plans && s.plans[id].enabled && s.plans[id].nextRunAt.Some? && s.plans[id].nextRunAt.value <= s.now
    requires NextFor(zones, s.plans[id].timing, s.now).Some?
    ensures HandlePlan(zones, s.plans, s.jobs, id, s.plans[id], s.now) ==
            Some((s.plans[id := s.plans[id].(nextRunAt := NextFor(zones, s.plans[id].timing, s.now))],
                  s.jobs + [Job(id, s.plans[id].nextRunAt.value, s.now)]))
  {
    forall k | 0 <= k < |s.jobs| && s.jobs[k].plan == id ensures s.jobs[k].scheduledFor != s.plans[id].nextRunAt.value {
      assert Pending(s.plans[id], s.jobs[k]);
    }
  }

  /** No run is lost: in every reachable state, a due plan gets its job for the time it was due, and the
      first planned time after the present as its next run, from any idle instance that runs a cycle over it. */
  lemma DuePlanGetsItsJob(zones: Zones, s: State, steps: seq<Step>, i: nat, id: PlanId)
    requires Initial(s)
    requires var t := Run(zones, s, steps);
             && InstanceOf(t, i).Idle? && id in t.plans && t.plans[id].enabled
             && t.plans[id].nextRunAt.Some? && t.plans[id].nextRunAt.value <= t.now
             && NextFor(zones, t.plans[id].timing, t.now).Some?
    ensures var t := Run(zones, s, steps);
            var u := Apply(zones, Apply(zones, Apply(zones, t, StartCycle(i)), ReadPlans(i, [id])), WalkNext(i));
            && u.jobs == t.jobs + [Job(id, t.plans[id].nextRunAt.value, t.now)]
            && u.plans == t.plans[id := t.plans[id].(nextRunAt := u.plans[id].nextRunAt)]
            && NextIsPlanned(zones, u.plans[id], t.now)
  {
    hide Schedule.IsNextRun, Schedule.IsNextCivilRun;
    RunKeeps(zones, s, steps);
    var t := Run(zones, s, steps);
    var started := Apply(zones, t, StartCycle(i));
    var reading := Apply(zones, started, ReadPlans(i, [id]));
    assert reading.instances[i] == Walking(t.now, [(id, t.plans[id])]);
    DueIsHandled(zones, t, id);
  }

  // --------------------- a plan that keeps its timing never repeats a local minute

  /** The step gives the plan no other timing; it may create the plan with this timing, disable it,
      enable it again, or save it with the timing that it has. */
  predicate KeepsTiming(step: Step, id: PlanId, timing: Timing) {
    && (step.CreatePlan? && step.id == id ==> step.timing == timing)
    && (step.UpdatePlan? && step.id == id ==> step.newTiming.None? || step.newTiming.value == timing)
  }

  predicate OnSchedule(zones: Zones, timing: Timing, ms: int) {
    ms % Schedule.MINUTE_MS == 0 && Schedule.Runs(zones(timing.timezone), timing.plan, ms / Schedule.MINUTE_MS)
  }

  predicate RowOnSchedule(zones: Zones, timing: Timing, row: PlanRow) {
    row.timing == timing && (row.nextRunAt.Some? ==> OnSchedule(zones, timing, row.nextRunAt.value))
  }

  predicate TimingInvariant(zones: Zones, s: State, id: PlanId, timing: Timing) {
    && (id in s.plans ==> RowOnSchedule(zones, timing, s.plans[id]))
    && (forall i | i in s.instances && s.instances[i].Walking? :: TodoOnSchedule(zones, s.instances[i].todo, id, timing))
    && (forall k | 0 <= k < |s.jobs| && s.jobs[k].plan == id :: OnSchedule(zones, timing, s.jobs[k].scheduledFor))
  }

  predicate TodoOnSchedule(zones: Zones, todo: seq<(PlanId, PlanRow)>, id: PlanId, timing: Timing) {
    forall k | 0 <= k < |todo| && todo[k].0 == id :: RowOnSchedule(zones, timing, todo[k].1)
  }

  lemma NextForOnSchedule(zones: Zones, timing: Timing, now: int)
    ensures NextFor(zones, timing, now).Some? ==> OnSchedule(zones, timing, NextFor(zones, timing, now).value)
  {
    hide Schedule.IsNextCivilRun;
  }

  lemma TimingKept(zones: Zones, s: State, step: Step, id: PlanId, timing: Timing)
    requires TimingInvariant(zones, s, id, timing) && KeepsTiming(step, id, timing)
    ensures TimingInvariant(zones, Apply(zones, s, step), id, timing)
  {
    hide NextFor, OnSchedule;
    match step
    case WalkNext(i) =>
      if InstanceOf(s, i).Walking? && s.instances[i].todo != [] { TurnKeepsTiming(zones, s, i, id, timing); }
    case _ => NextForOnSchedule(zones, timing, s.now);
  }

  lemma TurnKeepsTiming(zones: Zones, s: State, i: nat, id: PlanId, timing: Timing)
    requires TimingInvariant(zones, s, id, timing) && InstanceOf(s, i).Walking? && s.instances[i].todo != []
    ensures TimingInvariant(zones, Apply(zones, s, WalkNext(i)), id, timing)
  {
    hide NextFor, OnSchedule;
    assert TodoOnSchedule(zones, s.instances[i].todo, id, timing);
    NextForOnSchedule(zones, timing, s.instances[i].now);
  }

  lemma {:induction false} TimingKeptOnRuns(zones: Zones, s: State, steps: seq<Step>, id: PlanId, timing: Timing)
    requires TimingInvariant(zones, s, id, timing) && forall k | 0 <= k < |steps| :: KeepsTiming(steps[k], id, timing)
    ensures TimingInvariant(zones, Run(zones, s, steps), id, timing)
    decreases |steps|
  {
    if steps != [] {
      TimingKept(zones, s, steps[0], id, timing);
      TimingKeptOnRuns(zones, Apply(zones, s, steps[0]), steps[1..], id, timing);
    }
  }

  /** End to end: while a plan's timing stays the same, however often it is disabled and enabled, no
      two of its jobs are due at the same local date and time, whatever the instances do. */
  lemma NoLocalMinuteTwice(zones: Zones, s: State, steps: seq<Step>, id: PlanId, timing: Timing, a: nat, b: nat)
    requires Initial(s) && (id in s.plans ==> RowOnSchedule(zones, timing, s.plans[id]))
    requires forall k | 0 <= k < |steps| :: KeepsTiming(steps[k], id, timing)
    requires Schedule.RepeatsSeen(zones(timing.timezone))
    requires var t := Run(zones, s, steps); a < b < |t.jobs| && t.jobs[a].plan == id && t.jobs[b].plan == id
    ensures var t, zone := Run(zones, s, steps), zones(timing.timezone);
            zone(t.jobs[a].scheduledFor / Schedule.MINUTE_MS) != zone(t.jobs[b].scheduledFor / Schedule.MINUTE_MS)
  {
    var t := Run(zones, s, steps);
    TimingKeptOnRuns(zones, s, steps, id, timing);
    ExactlyOnce(zones, s, steps, a, b);
    assert OnSchedule(zones, timing, t.jobs[a].scheduledFor) && OnSchedule(zones, timing, t.jobs[b].scheduledFor);
    Schedule.RunsDifferLocally(zones(timing.timezone), timing.plan,
                               t.jobs[a].scheduledFor / Schedule.MINUTE_MS, t.jobs[b].scheduledFor / Schedule.MINUTE_MS);
  }

  // ----------------------------------------------- one cycle, as the service runs it

  class BackupScheduler {
    var plans: map<PlanId, PlanRow>
    var jobs: seq<Job>

    constructor (plans: map<PlanId, PlanRow>, jobs: seq<Job>)
      ensures this.plans == plans && this.jobs == jobs
    {
      this.plans, this.jobs := plans, jobs;
    }

    /** One turn of the loop: the claim transaction on the row as it was read. */
    method HandleRead(zones: Zones, id: PlanId, read: PlanRow, now: int) returns (created: bool, computed: bool)
      modifies this
      ensures computed <==> HandlePlan(zones, old(plans), old(jobs), id, read, now).Some?
      ensures computed ==> (plans, jobs) == HandlePlan(zones, old(plans), old(jobs), id, read, now).value
      ensures !computed ==> plans == old(plans) && jobs == old(jobs) && !created
      ensures |jobs| == |old(jobs)| + if created then 1 else 0
    {
      if read.nextRunAt.Some? && read.nextRunAt.value > now { return false, true; }
      var next := Schedule.NextScheduledRun(zones(read.timing.timezone), read.timing.plan, now);
      if next.None? { return false, false; }
      if id in plans && plans[id].enabled && plans[id].nextRunAt == read.nextRunAt {
        if read.nextRunAt.None? {
          plans := plans[id := plans[id].(nextRunAt := next)];
        } else if !HasJob(jobs, id, read.nextRunAt.value) {
          plans := plans[id := plans[id].(nextRunAt := next)];
          jobs := jobs + [Job(id, read.nextRunAt.value, now)];
          return true, true;
        }
      }
      return false, true;
    }

    /** One turn, as a part of the cycle that read these rows and began with these jobs. */
    method HandleNext(zones: Zones, read: map<PlanId, PlanRow>, ghost before: seq<Job>, order: seq<PlanId>, i: nat, now: int)
      returns (created: bool, computed: bool)
      requires CanStart(read, before, order) && i < |order|
      requires CycleProgress(zones, read, before, plans, jobs, Ids(order[..i]), now)
      modifies this
      ensures |jobs| == |old(jobs)| + (if created then 1 else 0) && (created ==> computed)
      ensures CycleProgress(zones, read, before, plans, jobs, Ids(order[..if computed then i + 1 else i]), now)
    {
      hide CycleProgress, HandlePlan, CanStart, Ids;
      ghost var plans', jobs' := plans, jobs;
      NextIsEnabled(read, before, order, i);
      created, computed := HandleRead(zones, order[i], read[order[i]], now);
      if computed { CycleTurn(zones, read, before, plans', jobs', order, i, now); }
    }

    /** A cycle that nothing interrupts: every handled plan ends with a next run after `now`,
        every due one gets exactly one job, for the time it was due, and nothing else changes. */
    method ScheduleDuePlans(zones: Zones, order: seq<PlanId>, now: int) returns (scheduled: nat, handled: nat, ok: bool)
      requires CanStart(plans, jobs, order)
      modifies this
      ensures scheduled == |jobs| - |old(jobs)|
      ensures handled <= |order| && CycleProgress(zones, old(plans), old(jobs), plans, jobs, Ids(order[..handled]), now)
      ensures ok ==> handled == |order| && order[..handled] == order
    {
      scheduled, handled := 0, 0;
      var read := plans;
      CycleStart(zones, plans, jobs, now);
      assert Ids(order[..0]) == {};
      hide PlansProgress, JobsProgress, HandlePlan, HasJob, CycleProgress, Ids, CanStart;
      while handled < |order|
        invariant handled <= |order| && scheduled == |jobs| - |old(jobs)|
        invariant CycleProgress(zones, read, old(jobs), plans, jobs, Ids(order[..handled]), now)
      {
        var created, computed := HandleNext(zones, read, old(jobs), order, handled, now);
        if !computed { return scheduled, handled, false; }
        scheduled, handled := if created then scheduled + 1 else scheduled, handled + 1;
      }
      return scheduled, handled, true;
    }
  }

  function Ids(order: seq<PlanId>): set<PlanId> {
    set id | id in order
  }

  lemma IdsGrow(order: seq<PlanId>, i: nat)
    requires i < |order| && forall a, b | 0 <= a < b < |order| :: order[a] != order[b]
    ensures order[i] in order && order[i] !in Ids(order[..i])
    ensures Ids(order[..i + 1]) == Ids(order[..i]) + {order[i]}
  {
    assert order[..i + 1] == order[..i] + [order[i]];
  }

  /** After a cycle over the plans in `done`: those have the first planned time
      after `now` as their next run, unless theirs was still to come, and all else is kept. */
  ghost predicate PlansProgress(zones: Zones, plans: map<PlanId, PlanRow>, next: map<PlanId, PlanRow>, done: set<PlanId>, now: int) {
    && next.Keys == plans.Keys && done <= plans.Keys
    && (forall id | id in plans :: next[id] == plans[id].(nextRunAt := next[id].nextRunAt))
    && (forall id | id in plans && id !in done :: next[id] == plans[id])
    && (forall id | id in done ::
          && next[id].nextRunAt.Some? && now < next[id].nextRunAt.value
          && if plans[id].nextRunAt.Some? && now < plans[id].nextRunAt.value then next[id] == plans[id] else NextIsPlanned(zones, next[id], now))
  }

  predicate WasDue(plans: map<PlanId, PlanRow>, id: PlanId, now: int) {
    id in plans && plans[id].nextRunAt.Some? && plans[id].nextRunAt.value <= now
  }

  /** Exactly one new job for each plan in `done` that was due, for the time it was due. */
  ghost predicate JobsProgress(plans: map<PlanId, PlanRow>, jobs: seq<Job>, next: seq<Job>, done: set<PlanId>, now: int) {
    && jobs <= next
    && (forall k | |jobs| <= k < |next| :: next[k].plan in done && WasDue(plans, next[k].plan, now)
                                         && next[k] == Job(next[k].plan, plans[next[k].plan].nextRunAt.value, now))
    && (forall a, b | |jobs| <= a < b < |next| :: next[a].plan != next[b].plan)
    && (forall id | id in done && WasDue(plans, id, now) :: exists k :: |jobs| <= k < |next| && next[k].plan == id)
  }

  ghost predicate CycleProgress(
    zones: Zones, plans: map<PlanId, PlanRow>, jobs: seq<Job>, plans': map<PlanId, PlanRow>, jobs': seq<Job>, done: set<PlanId>, now: int)
  {
    PlansProgress(zones, plans, plans', done, now) && JobsProgress(plans, jobs, jobs', done, now)
  }

  /** The enabled plans in the order of the query, and no job yet for a time that is still to come. */
  ghost predicate CanStart(plans: map<PlanId, PlanRow>, jobs: seq<Job>, order: seq<PlanId>) {
    && (forall id :: id in order <==> id in plans && plans[id].enabled)
    && (forall a, b | 0 <= a < b < |order| :: order[a] != order[b])
    && (forall id | id in plans && plans[id].nextRunAt.Some? :: !HasJob(jobs, id, plans[id].nextRunAt.value))
  }

  lemma NextIsEnabled(plans: map<PlanId, PlanRow>, jobs: seq<Job>, order: seq<PlanId>, i: nat)
    requires CanStart(plans, jobs, order) && i < |order|
    ensures order[i] in plans && plans[order[i]].enabled
  {
    assert order[i] in order;
  }

  lemma CycleTurn(zones: Zones, plans: map<PlanId, PlanRow>, jobs: seq<Job>, plans': map<PlanId, PlanRow>, jobs': seq<Job>,
                  order: seq<PlanId>, i: nat, now: int)
    requires CanStart(plans, jobs, order) && i < |order| && order[i] in plans
    requires CycleProgress(zones, plans, jobs, plans', jobs', Ids(order[..i]), now)
    requires HandlePlan(zones, plans', jobs', order[i], plans[order[i]], now).Some?
    ensures var (plans'', jobs'') := HandlePlan(zones, plans', jobs', order[i], plans[order[i]], now).value;
            CycleProgress(zones, plans, jobs, plans'', jobs'', Ids(order[..i + 1]), now)
  {
    hide PlansProgress, JobsProgress, HandlePlan, HasJob, CycleProgress, Ids;
    NextIsEnabled(plans, jobs, order, i);
    IdsGrow(order, i);
    CycleStep(zones, plans, jobs, plans', jobs', Ids(order[..i]), order[i], now);
  }

  lemma CycleStart(zones: Zones, plans: map<PlanId, PlanRow>, jobs: seq<Job>, now: int)
    ensures CycleProgress(zones, plans, jobs, plans, jobs, {}, now)
  {
  }

  lemma CycleStep(zones: Zones, plans: map<PlanId, PlanRow>, jobs: seq<Job>, plans': map<PlanId, PlanRow>, jobs': seq<Job>,
                  done: set<PlanId>, id: PlanId, now: int)
    requires CycleProgress(zones, plans, jobs, plans', jobs', done, now) && id in plans && plans[id].enabled && id !in done
    requires plans[id].nextRunAt.Some? ==> !HasJob(jobs, id, plans[id].nextRunAt.value)
    requires HandlePlan(zones, plans', jobs', id, plans[id], now).Some?
    ensures var (plans'', jobs'') := HandlePlan(zones, plans', jobs', id, plans[id], now).value;
            CycleProgress(zones, plans, jobs, plans'', jobs'', done + {id}, now)
  {
    var (plans'', jobs'') := HandlePlan(zones, plans', jobs', id, plans[id], now).value;
    if WasDue(plans, id, now) {
      forall k | 0 <= k < |jobs'| && jobs'[k].plan == id ensures jobs'[k].scheduledFor != plans[id].nextRunAt.value {
        assert k < |jobs| && jobs'[k] == jobs[k];
      }
      assert jobs'' == jobs' + [Job(id, plans[id].nextRunAt.value, now)];
      assert jobs''[|jobs'|].plan == id;
    } else {
      assert jobs'' == jobs';
    }
    JobsAppended(plans, jobs, jobs', jobs'', done, id, now);
  }

  lemma JobsAppended(plans: map<PlanId, PlanRow>, jobs: seq<Job>, jobs': seq<Job>, jobs'': seq<Job>, done: set<PlanId>, id: PlanId, now: int)
    requires JobsProgress(plans, jobs, jobs', done, now) && id !in done
    requires jobs'' == if WasDue(plans, id, now) then jobs' + [Job(id, plans[id].nextRunAt.value, now)] else jobs'
    ensures JobsProgress(plans, jobs, jobs'', done + {id}, now)
  {
    assert jobs' <= jobs'';
    forall x | x in done + {id} && WasDue(plans, x, now) ensures exists k :: |jobs| <= k < |jobs''| && jobs''[k].plan == x {
      if x == id {
        assert jobs''[|jobs'|].plan == x;
      } else {
        var k :| |jobs| <= k < |jobs'| && jobs'[k].plan == x;
        assert jobs''[k].plan == x;
      }
    }
  }
}
