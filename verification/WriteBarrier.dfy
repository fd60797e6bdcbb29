/** The write barrier shared by API instances and backup workers
    (backup-coordination.service.ts, backup-write-barrier.interceptor.ts and
    createConsistentArtifact of backup-job-worker.service.ts).

    A store is a pair of keys with expiry times: Redis for all processes, or without Redis the
    memory of each single process.  One Redis script, one Redis command,
    or one memory-mode method body without `await` is one atomic step; everything
    else interleaves freely. */
module WriteBarrier {
  import opened Options

  const LOCK_TTL_MS: nat := 6 * 60 * 60 * 1000
  const COUNTER_TTL_MS: nat := 6 * 60 * 60 * 1000
  const DRAIN_TIMEOUT_MS: nat := 30000
  const WRITE_BARRIER_KEY := "ad-wiki:backup:write-barrier"

  type Token = nat

  datatype Mode = Native | Memory
  datatype Lock = Lock(token: Token, expiresAt: int)
  datatype Counter = Counter(value: int, expiresAt: Option<int>)
  datatype Keys = Keys(barrier: Option<Lock>, writes: Option<Counter>)

  // ---------------------------------------------------------------- the store

  predicate LockLive(lock: Option<Lock>, now: int) {
    lock.Some? && now < lock.value.expiresAt
  }

  predicate BarrierLive(keys: Keys, now: int) {
    LockLive(keys.barrier, now)
  }

  predicate CounterLive(keys: Keys, now: int) {
    keys.writes.Some? && (keys.writes.value.expiresAt.Some? ==> now < keys.writes.value.expiresAt.value)
  }

  /** What `activeWrites` reads: a missing or expired counter counts as zero. */
  function ActiveWrites(keys: Keys, now: int): int {
    if CounterLive(keys, now) then keys.writes.value.value else 0
  }

  /** ENTER_WRITE_SCRIPT (Native) and the body of `enterWrite` (Memory). */
  function EnterWrite(mode: Mode, keys: Keys, now: int): (Keys, bool) {
    if BarrierLive(keys, now) then (keys, false)
    else
      var expiry := if mode.Native? then Some(now + COUNTER_TTL_MS) else None;
      (keys.(writes := Some(Counter(ActiveWrites(keys, now) + 1, expiry))), true)
  }

  /** DECR keeps the expiry of a live key and creates a missing key without one. */
  function DecrementWrites(keys: Keys, now: int): Keys {
    var expiry := if CounterLive(keys, now) then keys.writes.value.expiresAt else None;
    keys.(writes := Some(Counter(ActiveWrites(keys, now) - 1, expiry)))
  }

  /** SET 0 PX: the second statement of a native `leaveWrite` that saw a negative value. */
  function ResetWrites(keys: Keys, now: int): Keys {
    keys.(writes := Some(Counter(0, Some(now + COUNTER_TTL_MS))))
  }

  /** The whole body of `leaveWrite` in memory mode. */
  function LeaveMemory(keys: Keys, now: int): Keys {
    var value := ActiveWrites(keys, now) - 1;
    keys.(writes := Some(Counter(if value < 0 then 0 else value, None)))
  }

  function AcquireBarrier(keys: Keys, now: int, token: Token, ttl: int): (Keys, bool) {
    if BarrierLive(keys, now) then (keys, false)
    else (keys.(barrier := Some(Lock(token, now + ttl))), true)
  }

  /** RELEASE_SCRIPT: delete the key only while it still holds this token. */
  function ReleaseBarrier(keys: Keys, token: Token): Keys {
    if keys.barrier.Some? && keys.barrier.value.token == token then keys.(barrier := None) else keys
  }

  // ------------------------------------------------- memory mode, as a class

  /** The in-process fallback: a map of locks and a plain counter. */
  class MemoryCoordination {
    var memoryLocks: map<string, Lock>
    var memoryActiveWrites: int

    function View(): Keys
      reads this
    {
      Keys(if WRITE_BARRIER_KEY in memoryLocks then Some(memoryLocks[WRITE_BARRIER_KEY]) else None,
           Some(Counter(memoryActiveWrites, None)))
    }

    /** The view with an expired barrier dropped, as every method but the releases leaves it. */
    function Swept(now: int): Keys
      reads this
    {
      if BarrierLive(View(), now) then View() else View().(barrier := None)
    }

    constructor ()
      ensures View() == Keys(None, Some(Counter(0, None)))
      ensures memoryLocks == map[]
    {
      memoryLocks := map[];
      memoryActiveWrites := 0;
    }

    method ClearExpiredMemoryLocks(now: int)
      modifies this`memoryLocks
      ensures memoryLocks == map key | key in old(memoryLocks) && now < old(memoryLocks)[key].expiresAt :: old(memoryLocks)[key]
      ensures View() == old(Swept(now))
    {
      memoryLocks := map key | key in memoryLocks && now < memoryLocks[key].expiresAt :: memoryLocks[key];
    }

    method EnterWriteInMemory(now: int) returns (entered: bool)
      modifies this
      ensures (View(), entered) == EnterWrite(Memory, old(Swept(now)), now)
      ensures entered ==> memoryActiveWrites == old(memoryActiveWrites) + 1
    {
      ClearExpiredMemoryLocks(now);
      if WRITE_BARRIER_KEY in memoryLocks { return false; }
      memoryActiveWrites := memoryActiveWrites + 1;
      return true;
    }

    method LeaveWriteInMemory(now: int)
      modifies this`memoryActiveWrites
      ensures View() == LeaveMemory(old(View()), now)
      ensures memoryLocks == old(memoryLocks)
    {
      memoryActiveWrites := if memoryActiveWrites - 1 < 0 then 0 else memoryActiveWrites - 1;
    }

    method AcquireLockInMemory(key: string, token: Token, ttl: int, now: int) returns (granted: bool)
      modifies this`memoryLocks
      ensures granted <==> !(key in old(memoryLocks) && now < old(memoryLocks)[key].expiresAt)
      ensures granted ==> key in memoryLocks && memoryLocks[key] == Lock(token, now + ttl)
      ensures !granted ==> key in memoryLocks && memoryLocks[key] == old(memoryLocks)[key]
      ensures forall other | other != key && other in old(memoryLocks) && now < old(memoryLocks)[other].expiresAt ::
                other in memoryLocks && memoryLocks[other] == old(memoryLocks)[other]
      ensures forall other | other in memoryLocks && other != key :: other in old(memoryLocks) && memoryLocks[other] == old(memoryLocks)[other]
    {
      ClearExpiredMemoryLocks(now);
      if key in memoryLocks { return false; }
      memoryLocks := memoryLocks[key := Lock(token, now + ttl)];
      return true;
    }

    method AcquireWriteBarrierInMemory(token: Token, ttl: int, now: int) returns (granted: bool)
      modifies this`memoryLocks
      ensures (View(), granted) == AcquireBarrier(old(Swept(now)), now, token, ttl)
    {
      ClearExpiredMemoryLocks(now);
      if WRITE_BARRIER_KEY in memoryLocks { return false; }
      memoryLocks := memoryLocks[WRITE_BARRIER_KEY := Lock(token, now + ttl)];
      return true;
    }

    method ReleaseWriteBarrierInMemory(token: Token)
      modifies this`memoryLocks
      ensures View() == ReleaseBarrier(old(View()), token)
      ensures forall key | key != WRITE_BARRIER_KEY :: key in memoryLocks <==> key in old(memoryLocks)
      ensures forall key | key in memoryLocks :: memoryLocks[key] == old(memoryLocks)[key]
    {
      if WRITE_BARRIER_KEY in memoryLocks && memoryLocks[WRITE_BARRIER_KEY].token == token {
        memoryLocks := memoryLocks - {WRITE_BARRIER_KEY};
      }
    }
  }

  // ----------------------------------------------------------- draining writes

  /** One turn of the drain loop: the counter that was read and the clock afterwards. */
  datatype Poll = Poll(active: int, now: int)
  datatype Drain = Drained(at: nat) | TimedOut(at: nat) | StillWaiting

  predicate KeepsWaiting(poll: Poll, deadline: int) {
    poll.active > 0 && poll.now < deadline
  }

  /** The drain loop over whatever readings the environment supplies. */
  method WaitForWritesToDrain(startedAt: int, timeoutMs: nat, polls: seq<Poll>) returns (outcome: Drain)
    ensures outcome.Drained? ==> outcome.at < |polls| && polls[outcome.at].active <= 0
    ensures outcome.TimedOut? ==> outcome.at < |polls| && polls[outcome.at].active > 0 && polls[outcome.at].now >= startedAt + timeoutMs
    ensures forall i | 0 <= i < (if outcome.StillWaiting? then |polls| else outcome.at) :: KeepsWaiting(polls[i], startedAt + timeoutMs)
  {
    var deadline := startedAt + timeoutMs;
    var turn := 0;
    while turn < |polls| && polls[turn].active > 0
      invariant 0 <= turn <= |polls|
      invariant forall i | 0 <= i < turn :: KeepsWaiting(polls[i], deadline)
    {
      if polls[turn].now >= deadline { return TimedOut(turn); }
      turn := turn + 1;
    }
    return if turn < |polls| then Drained(turn) else StillWaiting;
  }

  // ------------------------------------------------ the interleaved protocol

  /** An admitted HTTP write; `Clamping` has decremented below zero and still owes the reset. */
  datatype Writer = Active(enteredAt: int) | Clamping

  datatype Worker =
    | Idle
    | Draining(token: Token, acquiredAt: int, deadline: int)
    | Dumping(token: Token, acquiredAt: int)
    | Releasing(token: Token)

  datatype State = State(
    mode: Mode,
    now: int,
    keys: Keys,
    writers: map<nat, Writer>,
    workers: map<nat, Worker>,
    issued: set<Token>)

  datatype Step =
    | Tick(delta: nat)
    | Enter(writer: nat)
    | EnterReplyLost
    | Leave(writer: nat)
    | Clamp(writer: nat)
    | LeaveLost(writer: nat)
    | Acquire(worker: nat, token: Token)
    | AcquireReplyLost(token: Token)
    | PollDrain(worker: nat)
    | FinishDump(worker: nat)
    | Release(worker: nat)
    | WorkerDies(worker: nat)

  function Initial(mode: Mode, now: int): State {
    State(mode, now, Keys(None, None), map[], map[], {})
  }

  function WorkerOf(s: State, b: nat): Worker {
    if b in s.workers then s.workers[b] else Idle
  }

  /** One step; a step that is not enabled changes nothing. */
  function Apply(s: State, step: Step): State {
    match step
    case Tick(delta) => s.(now := s.now + delta)
    case Enter(w) =>
      if w in s.writers then s else
      var (keys, entered) := EnterWrite(s.mode, s.keys, s.now);
      if entered then s.(keys := keys, writers := s.writers[w := Active(s.now)]) else s.(keys := keys)
    case EnterReplyLost =>
      s.(keys := EnterWrite(s.mode, s.keys, s.now).0)
    case Leave(w) =>
      if !(w in s.writers && s.writers[w].Active?) then s
      else if s.mode.Memory? then s.(keys := LeaveMemory(s.keys, s.now), writers := s.writers - {w})
      else
        var keys := DecrementWrites(s.keys, s.now);
        if ActiveWrites(keys, s.now) < 0 then s.(keys := keys, writers := s.writers[w := Clamping])
        else s.(keys := keys, writers := s.writers - {w})
    case Clamp(w) =>
      if !(w in s.writers && s.writers[w].Clamping?) then s
      else s.(keys := ResetWrites(s.keys, s.now), writers := s.writers - {w})
    case LeaveLost(w) =>
      s.(writers := s.writers - {w})
    case Acquire(b, token) =>
      if token in s.issued || !WorkerOf(s, b).Idle? then s else
      var (keys, granted) := AcquireBarrier(s.keys, s.now, token, LOCK_TTL_MS);
      var next := s.(keys := keys, issued := s.issued + {token});
      if granted then next.(workers := s.workers[b := Draining(token, s.now, s.now + DRAIN_TIMEOUT_MS)]) else next
    case AcquireReplyLost(token) =>
      if token in s.issued then s
      else s.(keys := AcquireBarrier(s.keys, s.now, token, LOCK_TTL_MS).0, issued := s.issued + {token})
    case PollDrain(b) =>
      (match WorkerOf(s, b)
       case Draining(token, acquiredAt, deadline) =>
         if ActiveWrites(s.keys, s.now) <= 0 then s.(workers := s.workers[b := Dumping(token, acquiredAt)])
         else if s.now >= deadline then s.(workers := s.workers[b := Releasing(token)])
         else s
       case _ => s)
    case FinishDump(b) =>
      if WorkerOf(s, b).Dumping? then s.(workers := s.workers[b := Releasing(s.workers[b].token)]) else s
    case Release(b) =>
      if WorkerOf(s, b).Releasing?
      then s.(keys := ReleaseBarrier(s.keys, s.workers[b].token), workers := s.workers[b := Idle])
      else s
    case WorkerDies(b) =>
      s.(workers := s.workers - {b})
  }

  /** The state after a sequence of steps, in any order and by any processes. */
  function Run(s: State, steps: seq<Step>): State
    decreases |steps|
  {
    if steps == [] then s else Run(Apply(s, steps[0]), steps[1..])
  }

  /** While writes are unfinished the counter key is there to count them.  Every admitted write
      renews the key, so this bounds the pause between two admissions, not the length of a write. */
  predicate CounterKept(s: State) {
    s.writers.Keys != {} ==> CounterLive(s.keys, s.now)
  }

  /** `CounterKept` in every state of the run. */
  predicate RunCounterKept(s: State, steps: seq<Step>)
    decreases |steps|
  {
    CounterKept(s) && (steps != [] ==> RunCounterKept(Apply(s, steps[0]), steps[1..]))
  }

  // -------------------------------------------------------------- invariants

  predicate CounterInvariant(s: State) {
    && (forall w | w in s.writers :: s.writers[w].Active?)
    && (s.keys.writes.Some? ==> s.keys.writes.value.value >= |s.writers.Keys|)
    && (s.writers.Keys != {} ==> s.keys.writes.Some?)
    && (s.mode.Memory? && s.keys.writes.Some? ==> s.keys.writes.value.expiresAt.None?)
  }

  predicate Owns(worker: Worker, token: Token) {
    !worker.Idle? && worker.token == token
  }

  /** A drain or dump whose own barrier key cannot have expired yet. */
  predicate Guarding(s: State, b: nat) {
    && (WorkerOf(s, b).Draining? || WorkerOf(s, b).Dumping?)
    && s.now < s.workers[b].acquiredAt + LOCK_TTL_MS
  }

  predicate TokenInvariant(s: State) {
    && (forall b | b in s.workers && !s.workers[b].Idle? :: s.workers[b].token in s.issued)
    && (s.keys.barrier.Some? ==> s.keys.barrier.value.token in s.issued)
    && (forall a, b | a in s.workers && b in s.workers && a != b && !s.workers[a].Idle? ::
          !Owns(s.workers[b], s.workers[a].token))
  }

  predicate BarrierInvariant(s: State) {
    forall b | b in s.workers && Guarding(s, b) ::
      s.keys.barrier == Some(Lock(s.workers[b].token, s.workers[b].acquiredAt + LOCK_TTL_MS))
  }

  predicate SnapshotIsolated(s: State) {
    forall b | b in s.workers && s.workers[b].Dumping? && Guarding(s, b) :: s.writers.Keys == {}
  }

  predicate Invariant(s: State) {
    CounterInvariant(s) && TokenInvariant(s) && BarrierInvariant(s) && SnapshotIsolated(s)
  }

  /** What a drain reads: with unfinished writes, a count of zero exactly when the key has lapsed. */
  lemma DrainReadingIsExact(s: State)
    requires CounterInvariant(s)
    ensures CounterLive(s.keys, s.now) ==> ActiveWrites(s.keys, s.now) >= |s.writers.Keys|
    ensures s.writers.Keys != {} ==> (ActiveWrites(s.keys, s.now) <= 0 <==> !CounterLive(s.keys, s.now))
    ensures s.mode.Memory? ==> CounterKept(s)
  {
    if s.writers.Keys != {} { assert |s.writers.Keys| > 0; }
  }

  lemma CounterPreservedByEnter(s: State, w: nat)
    requires CounterInvariant(s) && CounterKept(s)
    ensures CounterInvariant(Apply(s, Enter(w))) && CounterInvariant(Apply(s, EnterReplyLost))
  {
    DrainReadingIsExact(s);
    var t := Apply(s, Enter(w));
    if t.writers != s.writers { assert t.writers.Keys == s.writers.Keys + {w}; }
  }

  lemma CounterPreservedByLeave(s: State, w: nat)
    requires CounterInvariant(s) && CounterKept(s) && w in s.writers
    ensures CounterInvariant(Apply(s, Leave(w))) && CounterInvariant(Apply(s, LeaveLost(w)))
    ensures Apply(s, Leave(w)).writers == s.writers - {w}
  {
    DrainReadingIsExact(s);
    assert w in s.writers.Keys;
    var rest := s.writers - {w};
    assert rest.Keys == s.writers.Keys - {w};
    assert |rest.Keys| == |s.writers.Keys| - 1;
  }

  predicate WriterStep(step: Step) {
    step.Enter? || step.EnterReplyLost? || step.Leave? || step.Clamp? || step.LeaveLost?
  }

  lemma WorkerStepsLeaveCounter(s: State, step: Step)
    requires !WriterStep(step)
    ensures var t := Apply(s, step);
            t.writers == s.writers && t.keys.writes == s.keys.writes && t.mode == s.mode && s.now <= t.now
  {
  }

  lemma CounterUntouched(s: State, t: State)
    requires CounterInvariant(s)
    requires t.writers == s.writers && t.keys.writes == s.keys.writes && t.mode == s.mode && s.now <= t.now
    ensures CounterInvariant(t)
  {
  }

  lemma CounterPreservedByWriters(s: State, step: Step)
    requires CounterInvariant(s) && CounterKept(s) && WriterStep(step)
    ensures CounterInvariant(Apply(s, step))
  {
    match step
    case Enter(w) => CounterPreservedByEnter(s, w);
    case EnterReplyLost => CounterPreservedByEnter(s, 0);
    case Leave(w) => if w in s.writers { CounterPreservedByLeave(s, w); }
    case Clamp(w) =>
    case LeaveLost(w) =>
      if w in s.writers { CounterPreservedByLeave(s, w); } else { assert s.writers - {w} == s.writers; }
  }

  lemma CounterPreserved(s: State, step: Step)
    requires CounterInvariant(s) && CounterKept(s)
    ensures CounterInvariant(Apply(s, step))
  {
    if WriterStep(step) {
      CounterPreservedByWriters(s, step);
    } else {
      WorkerStepsLeaveCounter(s, step);
      CounterUntouched(s, Apply(s, step));
    }
  }

  lemma TokensPreserved(s: State, step: Step)
    requires TokenInvariant(s)
    ensures TokenInvariant(Apply(s, step))
  {
  }

  lemma BarrierPreserved(s: State, step: Step)
    requires TokenInvariant(s) && BarrierInvariant(s)
    ensures BarrierInvariant(Apply(s, step))
  {
    var t := Apply(s, step);
    forall b | b in t.workers && Guarding(t, b)
      ensures t.keys.barrier == Some(Lock(t.workers[b].token, t.workers[b].acquiredAt + LOCK_TTL_MS))
    {
      if b in s.workers && s.workers[b] == t.workers[b] {
        TimePasses(s, step);
        BarrierStays(s, step, b);
      } else {
        NewGuard(s, step, b);
      }
    }
  }

  lemma TimePasses(s: State, step: Step)
    ensures s.now <= Apply(s, step).now
  {
  }

  /** A worker comes to guard with the barrier that it has just been granted, or goes on with it. */
  lemma NewGuard(s: State, step: Step, b: nat)
    requires BarrierInvariant(s) && b in Apply(s, step).workers && Guarding(Apply(s, step), b)
    requires !(b in s.workers && s.workers[b] == Apply(s, step).workers[b])
    ensures var t := Apply(s, step);
            t.keys.barrier == Some(Lock(t.workers[b].token, t.workers[b].acquiredAt + LOCK_TTL_MS))
  {
    if step.PollDrain? { assert Guarding(s, b); }
  }

  /** No other worker's step touches the barrier of a worker whose key has not expired. */
  lemma BarrierStays(s: State, step: Step, b: nat)
    requires TokenInvariant(s) && BarrierInvariant(s)
    requires b in s.workers && b in Apply(s, step).workers && Apply(s, step).workers[b] == s.workers[b]
    requires Guarding(s, b) && Guarding(Apply(s, step), b)
    ensures Apply(s, step).keys.barrier == s.keys.barrier
  {
  }

  /** A dump begins with a reading that counts no writes. */
  lemma NewDump(s: State, step: Step, b: nat)
    requires b in Apply(s, step).workers && Apply(s, step).workers[b].Dumping?
    requires !(b in s.workers && s.workers[b] == Apply(s, step).workers[b])
    ensures Apply(s, step).writers == s.writers && ActiveWrites(s.keys, s.now) <= 0
  {
  }

  lemma NoneAdmitted(s: State, step: Step, b: nat)
    requires BarrierInvariant(s) && b in s.workers && Guarding(s, b)
    ensures Apply(s, step).writers.Keys <= s.writers.Keys
  {
    assert BarrierLive(s.keys, s.now);
  }

  lemma IsolationPreserved(s: State, step: Step)
    requires Invariant(s) && CounterKept(s)
    ensures SnapshotIsolated(Apply(s, step))
  {
    var t := Apply(s, step);
    DrainReadingIsExact(s);
    forall b | b in t.workers && t.workers[b].Dumping? && Guarding(t, b) ensures t.writers.Keys == {} {
      if b in s.workers && s.workers[b] == t.workers[b] {
        TimePasses(s, step);
        NoneAdmitted(s, step, b);
      } else {
        NewDump(s, step, b);
      }
    }
  }

  lemma {:induction false} InvariantOnRuns(s: State, steps: seq<Step>)
    requires Invariant(s) && RunCounterKept(s, steps)
    ensures Invariant(Run(s, steps)) && CounterKept(Run(s, steps))
    decreases |steps|
  {
    if steps != [] {
      CounterPreserved(s, steps[0]);
      TokensPreserved(s, steps[0]);
      BarrierPreserved(s, steps[0]);
      IsolationPreserved(s, steps[0]);
      InvariantOnRuns(Apply(s, steps[0]), steps[1..]);
    }
  }

  /** Tokens and barriers need no assumption about the counter. */
  lemma {:induction false} TokensOnRuns(s: State, steps: seq<Step>)
    requires TokenInvariant(s) && BarrierInvariant(s)
    ensures TokenInvariant(Run(s, steps)) && BarrierInvariant(Run(s, steps))
    decreases |steps|
  {
    if steps != [] {
      TokensPreserved(s, steps[0]);
      BarrierPreserved(s, steps[0]);
      TokensOnRuns(Apply(s, steps[0]), steps[1..]);
    }
  }

  // -------------------------------------------------------- results for one store

  /** Among all actors that share a store: while a worker dumps under an unexpired barrier, no
      admitted write is unfinished, the barrier key is its own, no other worker drains or dumps
      under an unexpired one, and no write is admitted. */
  lemma SnapshotIsolation(mode: Mode, start: int, steps: seq<Step>, b: nat)
    requires RunCounterKept(Initial(mode, start), steps)
    requires WorkerOf(Run(Initial(mode, start), steps), b).Dumping? && Guarding(Run(Initial(mode, start), steps), b)
    ensures var s := Run(Initial(mode, start), steps);
            && s.writers == map[]
            && s.keys.barrier == Some(Lock(s.workers[b].token, s.workers[b].acquiredAt + LOCK_TTL_MS))
            && (forall other | other in s.workers && Guarding(s, other) :: other == b)
            && (forall w | w !in s.writers :: Apply(s, Enter(w)).writers == map[])
  {
    InvariantOnRuns(Initial(mode, start), steps);
  }

  /** The counter never undercounts the admitted unfinished writes, lost leaves included. */
  lemma CounterNeverUndercounts(mode: Mode, start: int, steps: seq<Step>)
    requires RunCounterKept(Initial(mode, start), steps)
    ensures var s := Run(Initial(mode, start), steps);
            ActiveWrites(s.keys, s.now) >= |s.writers.Keys| >= 0
  {
    InvariantOnRuns(Initial(mode, start), steps);
    DrainReadingIsExact(Run(Initial(mode, start), steps));
  }

  /** The messages of a run that were lost: a reply to an enter, and a leave.  Each may leave one write
      counted that nobody will uncount. */
  function LostMessages(steps: seq<Step>): nat {
    if steps == [] then 0
    else (if steps[0].EnterReplyLost? || steps[0].LeaveLost? then 1 else 0) + LostMessages(steps[1..])
  }

  /** How far the counter is above the number of unfinished writes. */
  function Surplus(s: State): int {
    ActiveWrites(s.keys, s.now) - |s.writers.Keys|
  }

  lemma SurplusOfEnter(s: State, w: nat)
    requires w !in s.writers
    ensures Surplus(Apply(s, Enter(w))) <= Surplus(s)
  {
    var writers := s.writers[w := Active(s.now)];
    assert writers.Keys == s.writers.Keys + {w};
    assert |writers.Keys| == |s.writers.Keys| + 1;
  }

  lemma SurplusOfLostReply(s: State)
    ensures Surplus(Apply(s, EnterReplyLost)) <= Surplus(s) + 1
  {
  }

  lemma SurplusOfLeave(s: State, w: nat)
    requires CounterInvariant(s) && CounterKept(s) && w in s.writers
    ensures Surplus(Apply(s, Leave(w))) <= Surplus(s)
    ensures Surplus(Apply(s, LeaveLost(w))) <= Surplus(s) + 1
  {
    CounterPreservedByLeave(s, w);
    DrainReadingIsExact(s);
    assert (s.writers - {w}).Keys == s.writers.Keys - {w};
    assert |(s.writers - {w}).Keys| == |s.writers.Keys| - 1;
  }

  lemma SurplusOfWorkers(s: State, step: Step)
    requires CounterInvariant(s) && !WriterStep(step)
    ensures Surplus(Apply(s, step)) <= Surplus(s) || ActiveWrites(Apply(s, step).keys, Apply(s, step).now) == 0
  {
    hide Apply;
    WorkerStepsLeaveCounter(s, step);
  }

  lemma SurplusOfStep(s: State, step: Step, surplus: nat)
    requires CounterInvariant(s) && CounterKept(s) && Surplus(s) <= surplus
    ensures Surplus(Apply(s, step)) <= surplus + LostMessages([step])
  {
    match step
    case Enter(w) => if w !in s.writers { SurplusOfEnter(s, w); }
    case EnterReplyLost => SurplusOfLostReply(s);
    case Leave(w) => if w in s.writers { SurplusOfLeave(s, w); }
    case Clamp(w) =>
    case LeaveLost(w) => if w in s.writers { SurplusOfLeave(s, w); } else { assert s.writers - {w} == s.writers; }
    case _ => SurplusOfWorkers(s, step);
  }

  lemma {:induction false} SurplusOnRuns(s: State, steps: seq<Step>, surplus: nat)
    requires CounterInvariant(s) && RunCounterKept(s, steps) && Surplus(s) <= surplus
    ensures Surplus(Run(s, steps)) <= surplus + LostMessages(steps)
    decreases |steps|
  {
    if steps != [] {
      CounterPreserved(s, steps[0]);
      SurplusOfStep(s, steps[0], surplus);
      SurplusOnRuns(Apply(s, steps[0]), steps[1..], surplus + LostMessages([steps[0]]));
    }
  }

  /** In both modes the counter exceeds the number of unfinished writes by at most the number of lost
      messages; without any it is that number. */
  lemma CounterIsExact(mode: Mode, start: int, steps: seq<Step>)
    requires RunCounterKept(Initial(mode, start), steps)
    ensures var s := Run(Initial(mode, start), steps);
            && |s.writers.Keys| <= ActiveWrites(s.keys, s.now) <= |s.writers.Keys| + LostMessages(steps)
            && (LostMessages(steps) == 0 ==> ActiveWrites(s.keys, s.now) == |s.writers.Keys|)
  {
    CounterNeverUndercounts(mode, start, steps);
    SurplusOnRuns(Initial(mode, start), steps, 0);
  }

  /** So finished writes never hold up a backup: where no message was lost, a worker that drains and
      polls begins its dump exactly when no write is unfinished, and else gives up exactly from its
      deadline on, which is half a minute after it took the barrier. */
  lemma DrainEndsExactlyWhenIdle(mode: Mode, start: int, steps: seq<Step>, b: nat)
    requires RunCounterKept(Initial(mode, start), steps) && LostMessages(steps) == 0
    requires WorkerOf(Run(Initial(mode, start), steps), b).Draining?
    ensures var s := Run(Initial(mode, start), steps);
            var t := Apply(s, PollDrain(b));
            && (t.workers[b].Dumping? <==> s.writers == map[])
            && (t.workers[b].Releasing? <==> s.writers != map[] && s.now >= s.workers[b].acquiredAt + 30000)
  {
    CounterIsExact(mode, start, steps);
    DeadlinesOnRuns(Initial(mode, start), steps);
    DrainOutcomes(Run(Initial(mode, start), steps), b);
  }

  lemma DrainOutcomes(s: State, b: nat)
    requires WorkerOf(s, b).Draining? && DeadlinesKept(s) && ActiveWrites(s.keys, s.now) == |s.writers.Keys|
    ensures var t := Apply(s, PollDrain(b));
            && (t.workers[b].Dumping? <==> s.writers == map[])
            && (t.workers[b].Releasing? <==> s.writers != map[] && s.now >= s.workers[b].acquiredAt + 30000)
  {
    if s.writers != map[] {
      var w :| w in s.writers;
      assert w in s.writers.Keys;
    }
  }

  /** Each lost message costs what it may: an unfinished write whose leave is lost, and an admission
      whose reply is lost, leave the counter one higher above the unfinished writes. */
  lemma LostMessagesCount(s: State, w: nat)
    ensures w in s.writers ==> Surplus(Apply(s, LeaveLost(w))) == Surplus(s) + 1
    ensures !BarrierLive(s.keys, s.now) ==> Surplus(Apply(s, EnterReplyLost)) == Surplus(s) + 1
  {
    if w in s.writers {
      assert (s.writers - {w}).Keys == s.writers.Keys - {w};
      assert |(s.writers - {w}).Keys| == |s.writers.Keys| - 1;
    }
  }

  predicate DeadlinesKept(s: State) {
    forall b | b in s.workers && s.workers[b].Draining? :: s.workers[b].deadline == s.workers[b].acquiredAt + 30000
  }

  lemma {:induction false} DeadlinesOnRuns(s: State, steps: seq<Step>)
    requires DeadlinesKept(s)
    ensures DeadlinesKept(Run(s, steps))
    decreases |steps|
  {
    if steps != [] { DeadlinesOnRuns(Apply(s, steps[0]), steps[1..]); }
  }

  /** Six hours after its last admitted write a native counter key lapses, leaves in between
      notwithstanding; the counter in memory never does. */
  lemma EnterRenewsCounter(s: State, w: nat, wait: nat, d: nat)
    requires w !in s.writers && !BarrierLive(s.keys, s.now)
    ensures var entered := Apply(s, Enter(w));
            && ActiveWrites(entered.keys, entered.now) == ActiveWrites(s.keys, s.now) + 1
            && entered.writers == s.writers[w := Active(s.now)]
            && (CounterLive(entered.keys, entered.now + wait) <==> s.mode.Memory? || wait < 21600000)
    ensures var left := Apply(Apply(Apply(s, Enter(w)), Tick(wait)), Leave(w));
            s.mode.Native? && wait < 21600000 && ActiveWrites(s.keys, s.now) >= 0 ==>
              (CounterLive(left.keys, left.now + d) <==> wait + d < 21600000)
  {
  }

  /** A leave that finds the counter lapsed has to repair it: whatever others do not do in between,
      the write ends with a count of zero, under a key that again lives for six hours. */
  lemma LateLeaveResets(s: State, w: nat, d: nat)
    requires w in s.writers && s.writers[w].Active? && ActiveWrites(s.keys, s.now) == 0
    ensures var t := Apply(Apply(s, Leave(w)), Clamp(w));
            && t.writers == s.writers - {w}
            && ActiveWrites(t.keys, t.now) == 0
            && (CounterLive(t.keys, t.now + d) <==> s.mode.Memory? || d < 21600000)
  {
  }

  /** In every run at all, only the owner's release removes a barrier that some worker still
      guards with. */
  lemma StaleTokenNeverRemovesBarrier(mode: Mode, start: int, steps: seq<Step>, b: nat, step: Step)
    requires Guarding(Run(Initial(mode, start), steps), b)
    requires !step.Tick?
    ensures var s := Run(Initial(mode, start), steps);
            Apply(s, step).keys.barrier == s.keys.barrier && s.keys.barrier.Some?
  {
    TokensOnRuns(Initial(mode, start), steps);
  }

  /** The barrier is not left behind: the owner's release, or its expiry, admits writes again. */
  lemma WritesResume(s: State, b: nat, w: nat, wait: nat)
    requires TokenInvariant(s) && w !in s.writers
    requires WorkerOf(s, b).Releasing?
    ensures s.keys.barrier.Some? && s.keys.barrier.value.token == s.workers[b].token ==> w in Apply(Apply(s, Release(b)), Enter(w)).writers
    ensures s.keys.barrier.Some? && s.keys.barrier.value.expiresAt <= s.now + wait ==> w in Apply(Apply(s, Tick(wait)), Enter(w)).writers
  {
  }

  /** Whether a snapshot can begin over unfinished writes, for every state that the counter has been
      kept up to: a worker that takes the free barrier now and polls dumps over them exactly when
      the counter key has lapsed. */
  lemma LapsedCounterBreaksIsolation(s: State, b: nat, token: Token)
    requires CounterInvariant(s) && !BarrierLive(s.keys, s.now) && WorkerOf(s, b).Idle? && token !in s.issued
    requires s.writers.Keys != {}
    ensures var t := Apply(Apply(s, Acquire(b, token)), PollDrain(b));
            && t.writers == s.writers
            && (WorkerOf(t, b).Dumping? && Guarding(t, b) <==> !CounterLive(s.keys, s.now))
  {
    DrainReadingIsExact(s);
  }

  lemma FourSteps(s: State, a: Step, b: Step, c: Step, d: Step)
    ensures Run(s, [a, b, c, d]) == Apply(Apply(Apply(Apply(s, a), b), c), d)
  {
    var s1 := Apply(s, a);
    var s2 := Apply(s1, b);
    var s3 := Apply(s2, c);
    var s4 := Apply(s3, d);
    assert Run(s3, [d]) == Run(s4, []);
    assert Run(s2, [c, d]) == Run(s3, [d]);
    assert Run(s1, [b, c, d]) == Run(s2, [c, d]);
  }

  /** A single write that takes d milliseconds is dumped over exactly when d reaches the life of
      the counter key. */
  lemma LongWriteIsDumpedOver(start: int, d: nat)
    ensures var s := Run(Initial(Native, start), [Enter(0), Tick(d), Acquire(1, 7), PollDrain(1)]);
            && 0 in s.writers && s.writers[0].Active?
            && (WorkerOf(s, 1).Dumping? && Guarding(s, 1) <==> d >= COUNTER_TTL_MS)
  {
    FourSteps(Initial(Native, start), Enter(0), Tick(d), Acquire(1, 7), PollDrain(1));
  }

  /** A write is admitted beside a dump that has taken d milliseconds exactly when d reaches the
      life of the barrier key. */
  lemma LongDumpAdmitsWrite(mode: Mode, start: int, d: nat)
    ensures var s := Run(Initial(mode, start), [Acquire(1, 7), PollDrain(1), Tick(d), Enter(0)]);
            WorkerOf(s, 1).Dumping? && (0 in s.writers <==> d >= LOCK_TTL_MS)
  {
    FourSteps(Initial(mode, start), Acquire(1, 7), PollDrain(1), Tick(d), Enter(0));
  }

  // ------------------------------------------------------------- several processes

  /** A step, and the process that takes it. */
  datatype Action = Action(process: nat, step: Step)

  /** With Redis all processes share one store; without it each has the maps of its own memory. */
  datatype Deployment = Deployment(mode: Mode, now: int, stores: map<nat, State>)

  function StoreId(mode: Mode, process: nat): nat {
    if mode.Native? then 0 else process
  }

  function StoreAt(d: Deployment, k: nat): State {
    if k in d.stores then d.stores[k] else Initial(d.mode, d.now)
  }

  /** Time passes everywhere; any other step happens at the store of its process. */
  function Act(d: Deployment, a: Action): Deployment {
    if a.step.Tick? then Deployment(d.mode, d.now + a.step.delta, map k | k in d.stores :: Apply(d.stores[k], a.step))
    else
      var k := StoreId(d.mode, a.process);
      d.(stores := d.stores[k := Apply(StoreAt(d, k), a.step)])
  }

  function ActAll(d: Deployment, actions: seq<Action>): Deployment
    decreases |actions|
  {
    if actions == [] then d else ActAll(Act(d, actions[0]), actions[1..])
  }

  /** The steps that reach store k. */
  function AtStore(mode: Mode, actions: seq<Action>, k: nat): seq<Step> {
    if actions == [] then []
    else
      (if actions[0].step.Tick? || StoreId(mode, actions[0].process) == k then [actions[0].step] else [])
      + AtStore(mode, actions[1..], k)
  }

  lemma ActAtStore(d: Deployment, a: Action, k: nat)
    ensures Act(d, a).mode == d.mode
    ensures StoreAt(Act(d, a), k) ==
            if a.step.Tick? || StoreId(d.mode, a.process) == k then Apply(StoreAt(d, k), a.step) else StoreAt(d, k)
  {
  }

  /** Each store runs on its own. */
  lemma {:induction false} StoresRunApart(d: Deployment, actions: seq<Action>, k: nat)
    ensures StoreAt(ActAll(d, actions), k) == Run(StoreAt(d, k), AtStore(d.mode, actions, k))
    decreases |actions|
  {
    if actions != [] {
      var a, rest := actions[0], AtStore(d.mode, actions[1..], k);
      ActAtStore(d, a, k);
      StoresRunApart(Act(d, a), actions[1..], k);
      if a.step.Tick? || StoreId(d.mode, a.process) == k {
        assert AtStore(d.mode, actions, k) == [a.step] + rest && ([a.step] + rest)[1..] == rest;
      } else {
        assert AtStore(d.mode, actions, k) == [] + rest == rest;
      }
    }
  }

  function Deployed(mode: Mode, start: int, actions: seq<Action>): Deployment {
    ActAll(Deployment(mode, start, map[]), actions)
  }

  /** No store's counter key lapses while it has unfinished writes. */
  ghost predicate AllCountersKept(mode: Mode, start: int, actions: seq<Action>) {
    forall k: nat :: RunCounterKept(Initial(mode, start), AtStore(mode, actions, k))
  }

  /** Worker b of process q dumps under an unexpired barrier although write w of process p is unfinished. */
  predicate Breached(mode: Mode, start: int, actions: seq<Action>, p: nat, w: nat, q: nat, b: nat) {
    var d := Deployed(mode, start, actions);
    var writes, dump := StoreAt(d, StoreId(mode, p)), StoreAt(d, StoreId(mode, q));
    w in writes.writers && WorkerOf(dump, b).Dumping? && Guarding(dump, b)
  }

  /** Processes p and q are isolated in every run exactly when they share a store: always with Redis,
      and without it only within one process, which the separate backup worker never is. */
  lemma IsolatedExactlyWhenShared(mode: Mode, start: int, p: nat, w: nat, q: nat, b: nat)
    ensures (forall actions | AllCountersKept(mode, start, actions) :: !Breached(mode, start, actions, p, w, q, b))
            <==> mode.Native? || p == q
  {
    if mode.Native? || p == q {
      forall actions | AllCountersKept(mode, start, actions) ensures !Breached(mode, start, actions, p, w, q, b) {
        SharedStoreIsIsolated(mode, start, actions, p, w, q, b);
      }
    } else {
      SeparateMemoryIsNot(start, p, w, q, b);
    }
  }

  lemma SharedStoreIsIsolated(mode: Mode, start: int, actions: seq<Action>, p: nat, w: nat, q: nat, b: nat)
    requires AllCountersKept(mode, start, actions) && StoreId(mode, p) == StoreId(mode, q)
    ensures !Breached(mode, start, actions, p, w, q, b)
  {
    var k := StoreId(mode, q);
    StoresRunApart(Deployment(mode, start, map[]), actions, k);
    InvariantOnRuns(Initial(mode, start), AtStore(mode, actions, k));
    assert SnapshotIsolated(StoreAt(Deployed(mode, start, actions), k));
  }

  /** Without Redis a worker drains its own counter, which no write of another process touches. */
  lemma SeparateMemoryIsNot(start: int, p: nat, w: nat, q: nat, b: nat)
    requires p != q
    ensures exists actions :: AllCountersKept(Memory, start, actions) && Breached(Memory, start, actions, p, w, q, b)
  {
    var enter, acquire, poll := Action(p, Enter(w)), Action(q, Acquire(b, 0)), Action(q, PollDrain(b));
    var actions := [enter, acquire, poll];
    var d0 := Deployment(Memory, start, map[]);
    var d1 := Act(d0, enter);
    var d2 := Act(d1, acquire);
    assert actions[1..] == [acquire, poll] && actions[2..] == [poll] && actions[1..][1..] == [poll] && [poll][1..] == [];
    assert ActAll(d2, [poll]) == ActAll(Act(d2, poll), []) == Act(d2, poll);
    assert ActAll(d1, [acquire, poll]) == ActAll(d2, [poll]);
    assert ActAll(d0, actions) == ActAll(d1, [acquire, poll]);
    assert Deployed(Memory, start, actions) == Act(d2, poll);
    forall k: nat ensures RunCounterKept(Initial(Memory, start), AtStore(Memory, actions, k)) {
      MemoryCountersNeverLapse(Initial(Memory, start), AtStore(Memory, actions, k));
    }
    assert Breached(Memory, start, actions, p, w, q, b);
  }

  lemma {:induction false} MemoryCountersNeverLapse(s: State, steps: seq<Step>)
    requires s.mode.Memory? && CounterInvariant(s)
    ensures RunCounterKept(s, steps)
    decreases |steps|
  {
    DrainReadingIsExact(s);
    if steps != [] {
      CounterPreserved(s, steps[0]);
      ModeStays(s, steps[0]);
      MemoryCountersNeverLapse(Apply(s, steps[0]), steps[1..]);
    }
  }

  lemma ModeStays(s: State, step: Step)
    ensures Apply(s, step).mode == s.mode
  {
  }
}
