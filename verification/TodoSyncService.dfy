/** performSync, reconcileTask and importTask as the service runs them: on fields, in loops,
    with the snapshots of tasks and mappings read at the start; and the guard of `sync`/`autoSync`. */
module TodoSyncService {
  import opened Collections
  import opened Options
  import opened TodoSync

  function MissingLists(selected: seq<ListId>, available: set<ListId>): nat {
    if selected == [] then 0
    else MissingLists(selected[..|selected| - 1], available) + (if selected[|selected| - 1] in available then 0 else 1)
  }

  /** `listing` is what Graph answers per list: all its tasks, once each, in some order. */
  ghost predicate Lists(graph: map<TaskId, Placed>, listing: ListId -> seq<TaskId>) {
    forall list :: Enumerates(listing(list), set id | id in graph && graph[id].list == list)
  }

  /** The mapping of each external id among the visible ones. */
  function ByExternalId(mappings: map<MappingId, Mapping>, selected: seq<ListId>): (index: map<TaskId, MappingId>)
    requires Unique(mappings)
    ensures forall id | id in index :: index[id] in mappings && Visible(mappings[index[id]], selected) && mappings[index[id]].externalId == id
    ensures forall m | m in mappings && Visible(mappings[m], selected) :: mappings[m].externalId in index
  {
    map m | m in mappings && Visible(mappings[m], selected) :: mappings[m].externalId := m
  }

  /** The visible mappings whose task is among `ids`. */
  function Matched(mappings: map<MappingId, Mapping>, selected: seq<ListId>, ids: seq<TaskId>): set<MappingId> {
    set m | m in mappings && Visible(mappings[m], selected) && mappings[m].externalId in ids
  }

  lemma MatchedNext(mappings: map<MappingId, Mapping>, selected: seq<ListId>, ids: seq<TaskId>, id: TaskId)
    requires Unique(mappings)
    ensures var index := ByExternalId(mappings, selected);
            Matched(mappings, selected, ids + [id]) == Matched(mappings, selected, ids) + (if id in index then {index[id]} else {})
  {
  }

  class MicrosoftIntegration {
    var notes: map<NoteId, Note>
    var mappings: map<MappingId, Mapping>
    var graph: map<TaskId, Placed>
    var nextId: nat

    ghost function View(): State
      reads this
    {
      State(notes, mappings, graph, nextId)
    }

    constructor (notes: map<NoteId, Note>, mappings: map<MappingId, Mapping>, graph: map<TaskId, Placed>, nextId: nat)
      ensures View() == State(notes, mappings, graph, nextId)
    {
      this.notes, this.mappings, this.graph, this.nextId := notes, mappings, graph, nextId;
    }

    method ReconcileTask(m: MappingId, mapping: Mapping, task: Task, env: Env) returns (outcome: Outcome)
      requires m in mappings && mappings[m] == mapping && mapping.list.Some?
      modifies this
      ensures (View(), outcome) == Reconcile(old(View()), m, task, env)
    {
      if mapping.noteId !in notes { return Skipped; }
      var note := notes[mapping.noteId];
      if note.deleted { return Skipped; }
      var localHash, externalHash := LocalHash(note), ExternalHash(task);
      var now := env.clock(task.id);
      if mapping.lastLocal.None? || mapping.lastExternal.None? {
        mappings := mappings[m := mapping.(lastLocal := Some(localHash), lastExternal := Some(externalHash), externalDeleted := false)];
        return Skipped;
      }
      var localChanged := localHash != mapping.lastLocal.value;
      var externalChanged := externalHash != mapping.lastExternal.value;
      if !localChanged && !externalChanged { return Skipped; }
      var externalUpdatedAt := if task.modified.Some? then task.modified.value else now;
      if externalChanged && (!localChanged || externalUpdatedAt > note.updatedAt) {
        var updated := TakeTask(note, task, now);
        notes := notes[mapping.noteId := updated];
        mappings := mappings[m := mapping.(lastLocal := Some(LocalHash(updated)), lastExternal := Some(externalHash), externalDeleted := false)];
        return Updated;
      }
      var sent := UpdateTask(graph, mapping.list.value, task.id, NoteTitle(note, env.plain), NoteBody(note.content), now);
      if sent.None? { return Failed; }
      graph := graph[task.id := graph[task.id].(task := sent.value)];
      mappings := mappings[m := mapping.(lastLocal := Some(localHash), lastExternal := Some(ExternalHash(sent.value)), externalDeleted := false)];
      return Updated;
    }

    method ImportTask(placed: Placed, env: Env) returns (outcome: Outcome)
      modifies this
      ensures (View(), outcome) == Import(old(View()), placed, env)
    {
      var task := placed.task;
      if task.id == "" { return Skipped; }
      if exists m | m in mappings :: mappings[m].externalId == task.id { return Skipped; }
      var note := ImportedNote(task, env.clock(task.id));
      notes := notes[nextId := note];
      var mapping := Mapping(task.id, Some(placed.list), true, nextId, Some(LocalHash(note)), Some(ExternalHash(task)), false, false);
      mappings := mappings[nextId + 1 := mapping];
      nextId := nextId + 2;
      return Imported;
    }

    /** Sets the tasks of one list in a map that keeps its order. */
    method AddTasks(order: seq<TaskId>, tasks: seq<TaskId>) returns (grown: seq<TaskId>)
      requires forall a, b | 0 <= a < b < |order| :: order[a] != order[b]
      ensures forall x :: x in grown <==> x in order || x in tasks
      ensures forall a, b | 0 <= a < b < |grown| :: grown[a] != grown[b]
    {
      grown := order;
      for j := 0 to |tasks|
        invariant forall x :: x in grown <==> x in order || x in tasks[..j]
        invariant forall a, b | 0 <= a < b < |grown| :: grown[a] != grown[b]
      {
        if tasks[j] !in grown { grown := grown + [tasks[j]]; }
      }
      assert tasks[..|tasks|] == tasks;
    }

    /** Reads the tasks of every selected list that still exists, each task once. */
    method FetchTasks(env: Env, listing: ListId -> seq<TaskId>) returns (order: seq<TaskId>, fetched: set<ListId>, failedCount: nat)
      requires Lists(graph, listing)
      ensures Enumerates(order, Listed(View(), env))
      ensures forall list :: list in fetched <==> list in env.selected && list in env.available
      ensures failedCount == MissingLists(env.selected, env.available)
    {
      order, fetched, failedCount := [], {}, 0;
      for i := 0 to |env.selected|
        invariant forall list :: list in fetched <==> list in env.selected[..i] && list in env.available
        invariant forall x :: x in order <==> x in graph && graph[x].list in fetched
        invariant forall a, b | 0 <= a < b < |order| :: order[a] != order[b]
        invariant failedCount == MissingLists(env.selected[..i], env.available)
      {
        var list := env.selected[i];
        assert env.selected[..i + 1][..i] == env.selected[..i];
        if list !in env.available {
          failedCount := failedCount + 1;
        } else {
          order := AddTasks(order, listing(list));
          fetched := fetched + {list};
        }
      }
      assert env.selected[..|env.selected|] == env.selected;
    }

    /** One listed task, with the mapping that the run read for it. */
    method SyncTask(env: Env, placed: Placed, known: Option<(MappingId, Mapping)>) returns (outcome: Outcome)
      requires placed.task.id in graph && graph[placed.task.id] == placed
      requires HasVisible(View(), env.selected, placed.task.id) <==> known.Some?
      requires known.Some? ==> VisibleMapping(View(), env.selected, placed.task.id) == known.value.0
      requires known.Some? ==> known.value.0 in mappings && mappings[known.value.0] == known.value.1
      modifies this
      ensures (View(), outcome) == ProcessTask(old(View()), placed.task.id, env)
    {
      if known.None? {
        outcome := ImportTask(placed, env);
      } else if known.value.1.detached {
        outcome := Skipped;
      } else {
        outcome := ReconcileTask(known.value.0, known.value.1, placed.task, env);
      }
    }

    /** One turn of the first loop, with the snapshots taken before it. */
    method SyncListed(env: Env, order: seq<TaskId>, i: nat, tasks: map<TaskId, Placed>, snapshot: map<MappingId, Mapping>,
                      index: map<TaskId, MappingId>, ghost start: State) returns (outcome: Outcome)
      requires Valid(start) && Enumerates(order, Listed(start, env)) && i < |order|
      requires tasks == start.graph && snapshot == start.mappings && index == ByExternalId(snapshot, env.selected)
      requires forall x | x in order :: x in start.graph
      requires View() == TaskPhase(start, order[..i], env).state
      modifies this
      ensures (View(), outcome) == ProcessTask(old(View()), order[i], env)
    {
      var id := order[i];
      assert forall x | x in order[..i] :: x in order;
      ItemPending(start, View(), env, order, i, if id in index then index[id] else 0, id in index);
      outcome := SyncTask(env, tasks[id], if id in index then Some((index[id], snapshot[index[id]])) else None);
    }

    /** The first loop of a run: every listed task is imported or reconciled. */
    method SyncTasks(env: Env, order: seq<TaskId>) returns (tally: Tally, ok: bool, processed: set<MappingId>)
      requires Valid(View()) && Enumerates(order, Listed(View(), env))
      modifies this
      ensures (forall x | x in order :: x in old(View()).graph) && Progress(View(), tally, ok) == TaskPhase(old(View()), order, env)
      ensures ok ==> processed == Matched(old(mappings), env.selected, order)
    {
      ghost var start := View();
      forall x | x in order ensures x in start.graph { assert x in Listed(start, env); }
      var tasks, snapshot := graph, mappings;
      var index := ByExternalId(snapshot, env.selected);
      tally, ok, processed := Tally(0, 0, 0, 0), true, {};
      assert Unique(snapshot) && order[..0] == [] && Matched(snapshot, env.selected, order[..0]) == {};
      hide Valid, Unique, Enumerates, ByExternalId, ProcessTask, Matched;
      for i := 0 to |order|
        invariant ok && Progress(View(), tally, ok) == TaskPhase(start, order[..i], env)
        invariant processed == Matched(snapshot, env.selected, order[..i])
      {
        var outcome := SyncListed(env, order, i, tasks, snapshot, index, start);
        NextTask(start, order, i, env);
        tally, ok := Count(tally, outcome), outcome != Failed;
        if !ok {
          TaskPhaseStops(start, order, i + 1, env);
          return;
        }
        PrefixGrows(order, i);
        MatchedNext(snapshot, env.selected, order[..i], order[i]);
        if order[i] in index { processed := processed + {index[order[i]]}; }
      }
      assert order[..|order|] == order;
    }

    /** One mapping as the run read it; `matched` if a listed task had it. */
    method SyncRow(env: Env, m: MappingId, mapping: Mapping, matched: bool, fetched: set<ListId>, ghost listed: set<TaskId>)
      returns (outcome: Option<Outcome>)
      requires m in mappings && SameIdentity(mapping, mappings[m]) && (!matched ==> mappings[m] == mapping)
      requires matched <==> mapping.externalId in listed
      requires forall list :: list in fetched <==> list in env.selected && list in env.available
      modifies this
      ensures (View(), outcome) == ProcessVanished(old(View()), m, env, listed)
    {
      if matched || mapping.detached || mapping.externalDeleted || mapping.list.None? || mapping.list.value !in fetched { return None; }
      if mapping.noteId !in notes || notes[mapping.noteId].deleted { return Some(Skipped); }
      notes := notes[mapping.noteId := notes[mapping.noteId].(deleted := true, updatedAt := env.clock(mapping.externalId))];
      mappings := mappings[m := mapping.(externalDeleted := true)];
      return Some(Deleted);
    }

    /** The second loop: mappings of fetched lists whose task was not listed. */
    method SyncVanished(env: Env, rows: seq<MappingId>, snapshot: map<MappingId, Mapping>, processed: set<MappingId>,
                        fetched: set<ListId>, before: Tally, ghost start: State) returns (tally: Tally)
      requires Valid(start) && start.mappings == snapshot && Enumerates(rows, VisibleIds(start, env.selected))
      requires Explained(start, View(), env, Listed(start, env))
      requires processed == set m | m in snapshot && Visible(snapshot[m], env.selected) && snapshot[m].externalId in Listed(start, env)
      requires forall list :: list in fetched <==> list in env.selected && list in env.available
      modifies this
      ensures (forall m | m in rows :: m in old(View()).mappings)
      ensures Progress(View(), tally, true) == VanishedPhase(Progress(old(View()), before, true), rows, env, Listed(start, env))
    {
      ghost var tasks := Progress(View(), before, true);
      RowsPresent(start, tasks.state, rows, env);
      tally := before;
      var k := 0;
      hide Explained, Valid, Enumerates, ProcessVanished, Visible, SameIdentity;
      while k < |rows|
        invariant 0 <= k <= |rows|
        invariant Progress(View(), tally, true) == VanishedPhase(tasks, rows[..k], env, Listed(start, env))
      {
        var m := rows[k];
        RowPending(start, tasks, rows, k, env);
        NextRow(tasks, rows, k, env, Listed(start, env));
        var outcome := SyncRow(env, m, snapshot[m], m in processed, fetched, Listed(start, env));
        if outcome.Some? { tally := Count(tally, outcome.value); }
        k := k + 1;
      }
      assert rows[..|rows|] == rows;
    }

    /** One whole run.  `rows` is the order in which the database returned the mappings. */
    method RunSync(env: Env, listing: ListId -> seq<TaskId>, rows: seq<MappingId>)
      returns (order: seq<TaskId>, tally: Tally, failedCount: nat, ok: bool)
      requires Valid(View()) && Lists(graph, listing) && Enumerates(rows, VisibleIds(View(), env.selected))
      modifies this
      ensures RunInputs(old(View()), order, rows, env)
      ensures Progress(View(), tally, ok) == PerformSync(old(View()), order, rows, env)
      ensures failedCount == MissingLists(env.selected, env.available)
    {
      ghost var start := View();
      var fetched, processed;
      order, fetched, failedCount := FetchTasks(env, listing);
      var snapshot := mappings;
      tally, ok, processed := SyncTasks(env, order);
      if ok {
        RunExplained(start, order, rows, env);
        hide Explained, RowsExplained, Valid, Enumerates;
        tally := SyncVanished(env, rows, snapshot, processed, fetched, tally, start);
      }
    }
  }

  /** The task loop takes one more task. */
  lemma NextTask(s: State, order: seq<TaskId>, i: nat, env: Env)
    requires i < |order| && (forall id | id in order :: id in s.graph)
    ensures (forall id | id in order[..i] :: id in s.graph) && (forall id | id in order[..i + 1] :: id in s.graph)
    ensures var before := TaskPhase(s, order[..i], env);
            before.ok ==> order[i] in before.state.graph
                          && var (state, outcome) := ProcessTask(before.state, order[i], env);
                             TaskPhase(s, order[..i + 1], env) == Progress(state, Count(before.tally, outcome), outcome != Failed)
  {
    assert forall id | id in order[..i + 1] :: id in order;
    assert order[..i + 1][..i] == order[..i];
  }

  /** A task that the loop has not reached is as the run read it, and so is its mapping. */
  lemma ItemPending(s: State, t: State, env: Env, order: seq<TaskId>, i: nat, m: MappingId, known: bool)
    requires Valid(s) && Enumerates(order, Listed(s, env)) && i < |order|
    requires (forall x | x in order[..i] :: x in s.graph) && t == TaskPhase(s, order[..i], env).state
    requires if known then VisibleFor(s, env.selected, m, order[i])
             else !exists k :: k in s.mappings && Visible(s.mappings[k], env.selected) && s.mappings[k].externalId == order[i]
    ensures var id := order[i];
            && id in s.graph && id in t.graph && t.graph[id] == s.graph[id]
            && (HasVisible(t, env.selected, id) <==> known)
            && (known ==> VisibleMapping(t, env.selected, id) == m && m in t.mappings && t.mappings[m] == s.mappings[m])
    ensures order[..i + 1][..i] == order[..i]
  {
    assert forall x | x in order :: x in Listed(s, env);
    assert forall x | x in order[..i] :: x in order;
    assert order[i] in order && order[i] !in order[..i];
    TaskPhaseExplained(s, order[..i], env);
    if known { OneVisibleMapping(s, t, env, order[..i], order[i], m); } else { NoVisibleMapping(s, t, env, order[..i], order[i]); }
  }

  lemma NoVisibleMapping(s: State, t: State, env: Env, done: seq<TaskId>, id: TaskId)
    requires Explained(s, t, env, set x | x in done) && id !in done && id in s.graph
    requires !exists m :: m in s.mappings && Visible(s.mappings[m], env.selected) && s.mappings[m].externalId == id
    ensures !HasVisible(t, env.selected, id) && t.graph[id] == s.graph[id]
  {
    forall m ensures !VisibleFor(t, env.selected, m, id) {
      if m in s.mappings { assert SameIdentity(s.mappings[m], t.mappings[m]); }
    }
  }

  lemma OneVisibleMapping(s: State, t: State, env: Env, done: seq<TaskId>, id: TaskId, m: MappingId)
    requires Explained(s, t, env, set x | x in done) && id !in done && id in s.graph
    requires VisibleFor(s, env.selected, m, id)
    ensures HasVisible(t, env.selected, id) && VisibleMapping(t, env.selected, id) == m
    ensures t.mappings[m] == s.mappings[m] && t.graph[id] == s.graph[id]
  {
    assert VisibleFor(t, env.selected, m, id);
  }

  /** Once an item failed, the rest of the task loop does nothing. */
  lemma {:induction false} TaskPhaseStops(s: State, order: seq<TaskId>, i: nat, env: Env)
    requires i <= |order| && (forall id | id in order :: id in s.graph)
    requires !TaskPhase(s, order[..i], env).ok
    ensures TaskPhase(s, order, env) == TaskPhase(s, order[..i], env)
  {
    if i < |order| {
      assert order[..|order| - 1][..i] == order[..i];
      TaskPhaseStops(s, order[..|order| - 1], i, env);
    } else {
      assert order[..i] == order;
    }
  }

  lemma RowsPresent(s: State, t: State, rows: seq<MappingId>, env: Env)
    requires Enumerates(rows, VisibleIds(s, env.selected)) && Explained(s, t, env, Listed(s, env))
    ensures forall m | m in rows :: m in t.mappings
  {
    forall m | m in rows ensures m in t.mappings { assert m in VisibleIds(s, env.selected); }
  }

  /** The mapping loop takes one more row. */
  lemma NextRow(tasks: Progress, rows: seq<MappingId>, k: nat, env: Env, listed: set<TaskId>)
    requires k < |rows| && forall m | m in rows :: m in tasks.state.mappings
    ensures var p := VanishedPhase(tasks, rows[..k], env, listed);
            && rows[k] in p.state.mappings
            && var (state, outcome) := ProcessVanished(p.state, rows[k], env, listed);
               VanishedPhase(tasks, rows[..k + 1], env, listed)
               == Progress(state, if outcome.Some? then Count(p.tally, outcome.value) else p.tally, p.ok)
  {
    assert rows[..k + 1][..k] == rows[..k];
  }

  /** A row that the mapping loop has not reached is as the run read it, unless its task was listed. */
  lemma RowPending(s: State, tasks: Progress, rows: seq<MappingId>, k: nat, env: Env)
    requires Valid(s) && Enumerates(rows, VisibleIds(s, env.selected)) && k < |rows|
    requires Explained(s, tasks.state, env, Listed(s, env))
    requires forall m | m in rows :: m in tasks.state.mappings
    ensures var t := VanishedPhase(tasks, rows[..k], env, Listed(s, env)).state;
            var m := rows[k];
            && m in s.mappings && Visible(s.mappings[m], env.selected) && m in t.mappings && SameIdentity(s.mappings[m], t.mappings[m])
            && (s.mappings[m].externalId !in Listed(s, env) ==> t.mappings[m] == s.mappings[m])
  {
    var m := rows[k];
    assert forall x | x in rows :: x in VisibleIds(s, env.selected);
    assert forall x | x in rows[..k] :: x in rows;
    forall x | x in rows[..k] ensures Visible(tasks.state.mappings[x], env.selected) {
      assert SameIdentity(s.mappings[x], tasks.state.mappings[x]);
    }
    VanishedPhaseExplained(tasks, rows[..k], env, Listed(s, env));
    assert m in rows && m in VisibleIds(s, env.selected);
    assert m !in rows[..k] && SameIdentity(s.mappings[m], tasks.state.mappings[m]);
  }

  // ------------------------------------------- one run per connection at a time

  /** `sync` and `autoSync` on one instance: check and add happen without an `await` between. */
  class SyncGuard {
    var syncingConnections: set<string>

    constructor ()
      ensures syncingConnections == {}
    {
      syncingConnections := {};
    }

    method TryBegin(connection: string) returns (begun: bool)
      modifies this
      ensures (syncingConnections, begun) == Begin(old(syncingConnections), connection)
    {
      if connection in syncingConnections { return false; }
      syncingConnections := syncingConnections + {connection};
      return true;
    }

    method End(connection: string)
      modifies this
      ensures syncingConnections == old(syncingConnections) - {connection}
    {
      syncingConnections := syncingConnections - {connection};
    }
  }

  function Begin(syncing: set<string>, connection: string): (set<string>, bool) {
    if connection in syncing then (syncing, false) else (syncing + {connection}, true)
  }

  datatype GuardStep = BeginRun(run: nat, connection: string) | EndRun(run: nat)

  /** The guard set and the runs in progress after any interleaving of requests and endings. */
  function GuardRun(steps: seq<GuardStep>): (set<string>, map<nat, string>) {
    if steps == [] then ({}, map[]) else
    var (syncing, runs) := GuardRun(steps[..|steps| - 1]);
    match steps[|steps| - 1]
    case BeginRun(run, connection) =>
      if run in runs then (syncing, runs) else
      var (next, begun) := Begin(syncing, connection);
      (next, if begun then runs[run := connection] else runs)
    case EndRun(run) =>
      if run in runs then (syncing - {runs[run]}, runs - {run}) else (syncing, runs)
  }

  lemma {:induction false} OneRunPerConnection(steps: seq<GuardStep>)
    ensures var (syncing, runs) := GuardRun(steps);
            && syncing == runs.Values
            && forall a, b | a in runs && b in runs && a != b :: runs[a] != runs[b]
  {
    if steps != [] {
      OneRunPerConnection(steps[..|steps| - 1]);
      var (syncing, runs) := GuardRun(steps[..|steps| - 1]);
      var (next, after) := GuardRun(steps);
      forall c ensures c in next <==> c in after.Values {
        if c in next && c in syncing { var a :| a in runs && runs[a] == c; assert a in after; }
        if c in next && c !in syncing { assert steps[|steps| - 1].run in after; }
      }
    }
  }
}
