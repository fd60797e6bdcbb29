/** Two-way Microsoft To Do synchronisation (microsoft-integration.service.ts):
    performSync, reconcileTask and importTask over the notes, the mappings and Graph.

    Graph is a map that lists back what it stored.  A hash stands for the pair it is
    computed from, so it is injective.  `plain` is the HTML-to-text step of `noteTitle`. */
module TodoSync {
  import opened Options
  import opened JsText

  const DEFAULT_TITLE := "Microsoft-To-Do-Aufgabe"
  const DEFAULT_NOTE_TITLE := "AD-Wiki-Notiz"
  const TITLE_LIMIT: nat := 200
  const BODY_LIMIT: nat := 65000

  type NoteId = nat
  type MappingId = nat
  type TaskId = string
  type ListId = string

  datatype Task = Task(id: TaskId, title: Option<string>, body: Option<string>, modified: Option<int>)
  datatype Placed = Placed(list: ListId, task: Task)
  datatype Note = Note(title: Option<string>, content: string, updatedAt: int, deleted: bool)
  datatype Hash = Hash(title: string, content: string)
  datatype Mapping = Mapping(
    externalId: TaskId,
    list: Option<ListId>,
    isNote: bool,
    noteId: NoteId,
    lastLocal: Option<Hash>,
    lastExternal: Option<Hash>,
    detached: bool,
    externalDeleted: bool)

  /** The rows of one connection and its Graph account; ids from `nextId` on are unused. */
  datatype State = State(
    notes: map<NoteId, Note>,
    mappings: map<MappingId, Mapping>,
    graph: map<TaskId, Placed>,
    nextId: nat)

  datatype Outcome = Imported | Updated | Deleted | Skipped | Failed
  datatype Tally = Tally(imported: nat, updated: nat, deleted: nat, skipped: nat)
  datatype Progress = Progress(state: State, tally: Tally, ok: bool)

  /** What one run is told by its surroundings. */
  datatype Env = Env(
    selected: seq<ListId>,
    available: set<ListId>,
    clock: TaskId -> int,
    plain: string -> string)

  // ----------------------------------------------------------------- text

  function TitleText(title: Option<string>): string {
    if title.Some? then Trim(title.value) else ""
  }

  function TaskContent(task: Task): string {
    var body := if task.body.Some? then Trim(task.body.value) else "";
    if body != "" then body
    else if TitleText(task.title) != "" then TitleText(task.title)
    else DEFAULT_TITLE
  }

  function NoteBody(content: string): string {
    Take(Trim(content), BODY_LIMIT)
  }

  function NoteTitle(note: Note, plain: string -> string): string {
    var own := TitleText(note.title);
    Take(if own != "" then own else if plain(note.content) != "" then plain(note.content) else DEFAULT_NOTE_TITLE, TITLE_LIMIT)
  }

  function LocalHash(note: Note): Hash {
    Hash(TitleText(note.title), note.content)
  }

  function ExternalHash(task: Task): Hash {
    Hash(TitleText(task.title), TaskContent(task))
  }

  // ------------------------------------------------------- database validity

  /** The two unique constraints of the mapping table. */
  predicate Unique(mappings: map<MappingId, Mapping>) {
    && (forall a, b | a in mappings && b in mappings && a != b :: mappings[a].externalId != mappings[b].externalId)
    && (forall a, b | a in mappings && b in mappings && a != b && mappings[a].isNote && mappings[b].isNote ::
          mappings[a].noteId != mappings[b].noteId)
  }

  predicate Valid(s: State) {
    && Unique(s.mappings)
    && (forall id | id in s.graph :: s.graph[id].task.id == id)
    && (forall n | n in s.notes :: n < s.nextId)
    && (forall m | m in s.mappings :: m < s.nextId && (s.mappings[m].isNote ==> s.mappings[m].noteId < s.nextId))
  }

  predicate Visible(m: Mapping, selected: seq<ListId>) {
    m.isNote && m.list.Some? && m.list.value in selected
  }

  predicate VisibleFor(s: State, selected: seq<ListId>, m: MappingId, id: TaskId) {
    m in s.mappings && Visible(s.mappings[m], selected) && s.mappings[m].externalId == id
  }

  ghost predicate HasVisible(s: State, selected: seq<ListId>, id: TaskId) {
    exists m :: VisibleFor(s, selected, m, id)
  }

  ghost predicate Mapped(s: State, id: TaskId) {
    exists m :: m in s.mappings && s.mappings[m].externalId == id
  }

  predicate Alive(s: State, n: NoteId) {
    n in s.notes && !s.notes[n].deleted
  }

  // ------------------------------------------------------------- one item

  function UpdateTask(graph: map<TaskId, Placed>, list: ListId, id: TaskId, title: string, body: string, now: int): Option<Task> {
    if id in graph && graph[id].list == list then Some(Task(id, Some(title), Some(body), Some(now))) else None
  }

  /** A one-sided edit goes to the side that changed; of two edits the later one wins, and the note's
      on a tie. */
  predicate ExternalWins(note: Note, task: Task, mapping: Mapping, now: int)
    requires mapping.lastLocal.Some? && mapping.lastExternal.Some?
  {
    var modified := if task.modified.Some? then task.modified.value else now;
    ExternalHash(task) != mapping.lastExternal.value && (LocalHash(note) == mapping.lastLocal.value || modified > note.updatedAt)
  }

  function TakeTask(note: Note, task: Task, now: int): Note {
    var title := Take(TitleText(task.title), TITLE_LIMIT);
    note.(title := Some(if title != "" then title else DEFAULT_TITLE), content := TaskContent(task), updatedAt := now)
  }

  function Synced(mapping: Mapping, local: Hash, external: Hash): Mapping {
    mapping.(lastLocal := Some(local), lastExternal := Some(external), externalDeleted := false)
  }

  /** The effect of `reconcileTask` on a mapped task. */
  function Reconcile(s: State, m: MappingId, task: Task, env: Env): (State, Outcome)
    requires m in s.mappings && s.mappings[m].list.Some?
  {
    var mapping := s.mappings[m];
    var now := env.clock(task.id);
    if !Alive(s, mapping.noteId) then (s, Skipped) else
    var note := s.notes[mapping.noteId];
    if mapping.lastLocal.None? || mapping.lastExternal.None? then
      (s.(mappings := s.mappings[m := Synced(mapping, LocalHash(note), ExternalHash(task))]), Skipped)
    else if LocalHash(note) == mapping.lastLocal.value && ExternalHash(task) == mapping.lastExternal.value then (s, Skipped)
    else if ExternalWins(note, task, mapping, now) then
      var taken := TakeTask(note, task, now);
      (s.(notes := s.notes[mapping.noteId := taken],
          mappings := s.mappings[m := Synced(mapping, LocalHash(taken), ExternalHash(task))]), Updated)
    else
      match UpdateTask(s.graph, mapping.list.value, task.id, NoteTitle(note, env.plain), NoteBody(note.content), now)
      case None => (s, Failed)
      case Some(sent) =>
        (s.(graph := s.graph[task.id := s.graph[task.id].(task := sent)],
            mappings := s.mappings[m := Synced(mapping, LocalHash(note), ExternalHash(sent))]), Updated)
  }

  function ImportedNote(task: Task, now: int): Note {
    Note(Some(if TitleText(task.title) != "" then TitleText(task.title) else DEFAULT_TITLE), TaskContent(task), now, false)
  }

  /** The effect of `importTask` on a task without a visible mapping. */
  ghost function Import(s: State, placed: Placed, env: Env): (State, Outcome) {
    var task := placed.task;
    if task.id == "" || Mapped(s, task.id) then (s, Skipped) else
    var note := ImportedNote(task, env.clock(task.id));
    var mapping := Mapping(task.id, Some(placed.list), true, s.nextId, Some(LocalHash(note)), Some(ExternalHash(task)), false, false);
    (State(s.notes[s.nextId := note], s.mappings[s.nextId + 1 := mapping], s.graph, s.nextId + 2), Imported)
  }

  ghost function VisibleMapping(s: State, selected: seq<ListId>, id: TaskId): MappingId
    requires HasVisible(s, selected, id)
  {
    var m :| VisibleFor(s, selected, m, id);
    m
  }

  /** One turn of the loop over the listed tasks. */
  ghost function ProcessTask(s: State, id: TaskId, env: Env): (r: (State, Outcome))
    requires id in s.graph
    ensures r.0.graph.Keys == s.graph.Keys
  {
    if !HasVisible(s, env.selected, id) then Import(s, s.graph[id], env) else
    var m := VisibleMapping(s, env.selected, id);
    if s.mappings[m].detached then (s, Skipped) else Reconcile(s, m, s.graph[id].task, env)
  }

  /** A mapping whose list was fetched in this run and whose task was not in any fetched list. */
  predicate Vanished(s: State, m: MappingId, env: Env, listed: set<TaskId>)
    requires m in s.mappings
  {
    var mapping := s.mappings[m];
    && mapping.externalId !in listed && !mapping.detached && !mapping.externalDeleted
    && mapping.list.Some? && mapping.list.value in env.selected && mapping.list.value in env.available
  }

  /** One turn of the loop over the mappings that were not matched with a task. */
  function ProcessVanished(s: State, m: MappingId, env: Env, listed: set<TaskId>): (State, Option<Outcome>)
    requires m in s.mappings
  {
    var mapping := s.mappings[m];
    if !Vanished(s, m, env, listed) then (s, None)
    else if !Alive(s, mapping.noteId) then (s, Some(Skipped))
    else
      (s.(notes := s.notes[mapping.noteId := s.notes[mapping.noteId].(deleted := true, updatedAt := env.clock(mapping.externalId))],
          mappings := s.mappings[m := mapping.(externalDeleted := true)]), Some(Deleted))
  }

  // --------------------------------------------------------------- whole run

  function Count(t: Tally, outcome: Outcome): Tally {
    match outcome
    case Imported => t.(imported := t.imported + 1)
    case Updated => t.(updated := t.updated + 1)
    case Deleted => t.(deleted := t.deleted + 1)
    case Skipped => t.(skipped := t.skipped + 1)
    case Failed => t
  }

  /** The tasks that a run lists: those in a selected list that Graph still has. */
  predicate IsListed(s: State, env: Env, id: TaskId) {
    id in s.graph && s.graph[id].list in env.selected && s.graph[id].list in env.available
  }

  ghost function Listed(s: State, env: Env): set<TaskId> {
    set id | id in s.graph && IsListed(s, env, id)
  }

  ghost predicate Enumerates<T(!new)>(order: seq<T>, elements: set<T>) {
    && (forall x :: x in order <==> x in elements)
    && (forall i, j | 0 <= i < j < |order| :: order[i] != order[j])
  }

  ghost function VisibleIds(s: State, selected: seq<ListId>): set<MappingId> {
    set m | m in s.mappings && Visible(s.mappings[m], selected)
  }

  /** The task loop over a prefix of the listed tasks; a thrown error stops it. */
  ghost function TaskPhase(s: State, order: seq<TaskId>, env: Env): (p: Progress)
    requires forall id | id in order :: id in s.graph
    ensures s.graph.Keys == p.state.graph.Keys
  {
    if order == [] then Progress(s, Tally(0, 0, 0, 0), true) else
    var before := TaskPhase(s, order[..|order| - 1], env);
    if !before.ok then before else
    var id := order[|order| - 1];
    assert id in order && id in before.state.graph;
    var (next, outcome) := ProcessTask(before.state, id, env);
    Progress(next, Count(before.tally, outcome), outcome != Failed)
  }

  /** The mapping loop over a prefix of the mappings that the run read before the task loop. */
  ghost function VanishedPhase(p: Progress, rows: seq<MappingId>, env: Env, listed: set<TaskId>): (q: Progress)
    requires forall m | m in rows :: m in p.state.mappings
    ensures p.state.mappings.Keys == q.state.mappings.Keys && q.state.graph == p.state.graph && q.state.nextId == p.state.nextId
    ensures q.state.notes.Keys == p.state.notes.Keys
  {
    if rows == [] then p else
    var before := VanishedPhase(p, rows[..|rows| - 1], env, listed);
    var m := rows[|rows| - 1];
    assert m in rows && m in before.state.mappings;
    var (next, outcome) := ProcessVanished(before.state, m, env, listed);
    Progress(next, if outcome.Some? then Count(before.tally, outcome.value) else before.tally, before.ok)
  }

  lemma ProcessKeepsMappings(s: State, id: TaskId, env: Env)
    requires id in s.graph
    ensures s.mappings.Keys <= ProcessTask(s, id, env).0.mappings.Keys
  {
  }

  /** Mappings are never removed by the task loop. */
  lemma {:induction false} TaskPhaseKeepsMappings(s: State, order: seq<TaskId>, env: Env)
    requires forall id | id in order :: id in s.graph
    ensures s.mappings.Keys <= TaskPhase(s, order, env).state.mappings.Keys
  {
    if order != [] {
      var rest := order[..|order| - 1];
      TaskPhaseKeepsMappings(s, rest, env);
      if TaskPhase(s, rest, env).ok { ProcessKeepsMappings(TaskPhase(s, rest, env).state, order[|order| - 1], env); }
    }
  }

  ghost predicate RunInputs(s: State, order: seq<TaskId>, rows: seq<MappingId>, env: Env) {
    Enumerates(order, Listed(s, env)) && Enumerates(rows, VisibleIds(s, env.selected))
  }

  /** `performSync` once the tasks and the mappings have been read, in the orders they came. */
  ghost function PerformSync(s: State, order: seq<TaskId>, rows: seq<MappingId>, env: Env): Progress
    requires RunInputs(s, order, rows, env)
  {
    assert forall id | id in order :: id in s.graph;
    TaskPhaseKeepsMappings(s, order, env);
    var tasks := TaskPhase(s, order, env);
    if !tasks.ok then tasks
    else
      assert forall m | m in rows :: m in s.mappings;
      VanishedPhase(tasks, rows, env, Listed(s, env))
  }

  // --------------------------------------------------- what one item changes

  predicate SameIdentity(a: Mapping, b: Mapping) {
    a.externalId == b.externalId && a.list == b.list && a.isNote == b.isNote && a.noteId == b.noteId && a.detached == b.detached
  }

  /** From s to t nothing changed but the task `id`, its mapping and the note of that mapping. */
  ghost predicate OnlyTouches(s: State, t: State, id: TaskId) {
    && t.graph.Keys == s.graph.Keys
    && (forall x | x in s.graph :: t.graph[x].list == s.graph[x].list && (x != id ==> t.graph[x] == s.graph[x]))
    && (forall m | m in s.mappings :: m in t.mappings && SameIdentity(s.mappings[m], t.mappings[m]))
    && (forall m | m in s.mappings && s.mappings[m].externalId != id :: t.mappings[m] == s.mappings[m])
    && (forall m | m in t.mappings && m !in s.mappings :: t.mappings[m].externalId == id && m >= s.nextId && t.mappings[m].noteId >= s.nextId)
    && (forall n | n in s.notes :: n in t.notes)
    && (forall n | n in s.notes && t.notes[n] != s.notes[n] :: MapsNote(s, id, n))
    && (forall n | n in t.notes && n !in s.notes :: n >= s.nextId)
    && s.nextId <= t.nextId
  }

  ghost predicate MapsNote(s: State, id: TaskId, n: NoteId) {
    exists m :: m in s.mappings && s.mappings[m].isNote && s.mappings[m].externalId == id && s.mappings[m].noteId == n
  }

  predicate InStep(s: State, m: MappingId, task: Task)
    requires m in s.mappings
  {
    var mapping := s.mappings[m];
    || mapping.detached
    || !Alive(s, mapping.noteId)
    || (mapping.lastLocal == Some(LocalHash(s.notes[mapping.noteId])) && mapping.lastExternal == Some(ExternalHash(task)))
  }

  /** A run has nothing left to do for this task. */
  ghost predicate SettledTask(s: State, selected: seq<ListId>, id: TaskId) {
    && id in s.graph
    && (id == "" || Mapped(s, id))
    && (forall m | VisibleFor(s, selected, m, id) :: InStep(s, m, s.graph[id].task))
  }

  /** A run has nothing left to do for this mapping once the listed tasks are settled. */
  predicate SettledRow(s: State, m: MappingId, env: Env, listed: set<TaskId>) {
    m in s.mappings && (Vanished(s, m, env, listed) ==> !Alive(s, s.mappings[m].noteId))
  }

  lemma RowsAdded(s: State, note: Note, mapping: Mapping)
    requires Valid(s) && !Mapped(s, mapping.externalId) && mapping.noteId == s.nextId && mapping.externalId in s.graph
    ensures var t := State(s.notes[s.nextId := note], s.mappings[s.nextId + 1 := mapping], s.graph, s.nextId + 2);
            Valid(t) && OnlyTouches(s, t, mapping.externalId) && Mapped(t, mapping.externalId)
            && forall m :: m in t.mappings && t.mappings[m].externalId == mapping.externalId ==> m == s.nextId + 1
  {
    var t := State(s.notes[s.nextId := note], s.mappings[s.nextId + 1 := mapping], s.graph, s.nextId + 2);
    assert t.mappings[s.nextId + 1].externalId == mapping.externalId;
    assert forall m | m in s.mappings :: t.mappings[m] == s.mappings[m] && s.mappings[m].externalId != mapping.externalId;
  }

  lemma OnlyMappingSettles(t: State, selected: seq<ListId>, id: TaskId, m: MappingId)
    requires id in t.graph && m in t.mappings && Mapped(t, id) && InStep(t, m, t.graph[id].task)
    requires forall k :: k in t.mappings && t.mappings[k].externalId == id ==> k == m
    ensures SettledTask(t, selected, id)
  {
    hide InStep, Mapped;
    assert forall k | VisibleFor(t, selected, k, id) :: k == m;
  }

  /** From s to t one note n and one mapping m for the task were added, and nothing else changed. */
  predicate AddsPair(s: State, t: State, id: TaskId, m: MappingId, n: NoteId) {
    && m !in s.mappings && n !in s.notes && m in t.mappings && n in t.notes
    && t == State(s.notes[n := t.notes[n]], s.mappings[m := t.mappings[m]], s.graph, t.nextId)
    && t.mappings[m].isNote && t.mappings[m].noteId == n && t.mappings[m].externalId == id
  }

  /** Importing creates exactly one note with its mapping when the task has an id and no mapping at
      all, with both hashes in step; otherwise it creates and changes nothing. */
  lemma ImportCreates(s: State, placed: Placed, env: Env)
    requires Valid(s) && placed.task.id in s.graph && s.graph[placed.task.id] == placed
    ensures var t, id := Import(s, placed, env).0, placed.task.id;
            if id == "" || Mapped(s, id) then t == s
            else AddsPair(s, t, id, s.nextId + 1, s.nextId) && InStep(t, s.nextId + 1, placed.task)
                 && !t.notes[s.nextId].deleted && t.mappings[s.nextId + 1].list == Some(placed.list)
  {
  }

  lemma ImportStep(s: State, placed: Placed, env: Env)
    requires Valid(s) && placed.task.id in s.graph && s.graph[placed.task.id] == placed
    requires !HasVisible(s, env.selected, placed.task.id)
    ensures var t := Import(s, placed, env).0;
            Valid(t) && OnlyTouches(s, t, placed.task.id) && SettledTask(t, env.selected, placed.task.id)
  {
    if placed.task.id == "" || Mapped(s, placed.task.id) { ImportSkipped(s, placed, env); } else { ImportAdded(s, placed, env); }
  }

  lemma ImportSkipped(s: State, placed: Placed, env: Env)
    requires Valid(s) && placed.task.id in s.graph && !HasVisible(s, env.selected, placed.task.id)
    requires placed.task.id == "" || Mapped(s, placed.task.id)
    ensures Import(s, placed, env).0 == s && OnlyTouches(s, s, placed.task.id) && SettledTask(s, env.selected, placed.task.id)
  {
    assert forall m :: !VisibleFor(s, env.selected, m, placed.task.id);
  }

  lemma ImportAdded(s: State, placed: Placed, env: Env)
    requires Valid(s) && placed.task.id in s.graph && s.graph[placed.task.id] == placed
    requires placed.task.id != "" && !Mapped(s, placed.task.id)
    ensures var t := Import(s, placed, env).0;
            Valid(t) && OnlyTouches(s, t, placed.task.id) && SettledTask(t, env.selected, placed.task.id)
  {
    var task := placed.task;
    var note := ImportedNote(task, env.clock(task.id));
    var t := Import(s, placed, env).0;
    assert t == State(s.notes[s.nextId := note], s.mappings[s.nextId + 1 := t.mappings[s.nextId + 1]], s.graph, s.nextId + 2);
    ImportCreates(s, placed, env);
    hide Import, Valid, OnlyTouches, Mapped, InStep, ImportedNote, VisibleFor, HasVisible, SettledTask;
    RowsAdded(s, note, t.mappings[s.nextId + 1]);
    OnlyMappingSettles(t, env.selected, task.id, s.nextId + 1);
  }

  /** A change confined to one mapping, its note and its task. */
  predicate IsLocalChange(s: State, t: State, m: MappingId, mapping: Mapping, note: Note, placed: Placed) {
    && m in s.mappings && s.mappings[m].isNote && Alive(s, mapping.noteId) && mapping.externalId in s.graph
    && SameIdentity(s.mappings[m], mapping)
    && placed.list == s.graph[mapping.externalId].list && placed.task.id == mapping.externalId
    && t == State(s.notes[mapping.noteId := note], s.mappings[m := mapping], s.graph[mapping.externalId := placed], s.nextId)
  }

  lemma LocalChangeIsValid(s: State, t: State, m: MappingId, mapping: Mapping, note: Note, placed: Placed)
    requires Valid(s) && IsLocalChange(s, t, m, mapping, note, placed)
    ensures Valid(t)
  {
    assert t.mappings[m].externalId == mapping.externalId;
  }

  lemma LocalChangeTouches(s: State, t: State, m: MappingId, mapping: Mapping, note: Note, placed: Placed)
    requires Valid(s) && IsLocalChange(s, t, m, mapping, note, placed)
    ensures OnlyTouches(s, t, mapping.externalId)
  {
    assert MapsNote(s, mapping.externalId, mapping.noteId);
  }

  lemma LocalChangeSettles(s: State, t: State, m: MappingId, mapping: Mapping, note: Note, placed: Placed, selected: seq<ListId>)
    requires Valid(t) && IsLocalChange(s, t, m, mapping, note, placed) && InStep(t, m, placed.task)
    ensures SettledTask(t, selected, mapping.externalId)
  {
    hide InStep;
    assert t.mappings[m].externalId == mapping.externalId;
    assert forall k | VisibleFor(t, selected, k, mapping.externalId) :: k == m;
  }

  lemma ReconcileStep(s: State, m: MappingId, env: Env, id: TaskId)
    requires Valid(s) && id in s.graph && VisibleFor(s, env.selected, m, id) && !s.mappings[m].detached
    ensures var (t, outcome) := Reconcile(s, m, s.graph[id].task, env);
            Valid(t) && OnlyTouches(s, t, id) && (outcome != Failed ==> SettledTask(t, env.selected, id))
  {
    var (t, outcome) := Reconcile(s, m, s.graph[id].task, env);
    var n := s.mappings[m].noteId;
    if t == s {
      assert forall k | VisibleFor(s, env.selected, k, id) :: k == m;
    } else {
      ReconcileIsLocal(s, m, env, id);
      LocalChangeIsValid(s, t, m, t.mappings[m], t.notes[n], t.graph[id]);
      LocalChangeTouches(s, t, m, t.mappings[m], t.notes[n], t.graph[id]);
      LocalChangeSettles(s, t, m, t.mappings[m], t.notes[n], t.graph[id], env.selected);
    }
  }

  lemma ReconcileIsLocal(s: State, m: MappingId, env: Env, id: TaskId)
    requires Valid(s) && id in s.graph && VisibleFor(s, env.selected, m, id)
    requires Reconcile(s, m, s.graph[id].task, env).0 != s
    ensures var t, n := Reconcile(s, m, s.graph[id].task, env).0, s.mappings[m].noteId;
            && Alive(s, n) && n in t.notes && m in t.mappings && id in t.graph
            && SameIdentity(s.mappings[m], t.mappings[m]) && t.graph[id].list == s.graph[id].list && t.graph[id].task.id == id
            && t == State(s.notes[n := t.notes[n]], s.mappings[m := t.mappings[m]], s.graph[id := t.graph[id]], s.nextId)
            && InStep(t, m, t.graph[id].task)
  {
    var t, n := Reconcile(s, m, s.graph[id].task, env).0, s.mappings[m].noteId;
    assert s.notes[n := s.notes[n]] == s.notes && s.graph[id := s.graph[id]] == s.graph;
  }

  lemma ProcessTaskStep(s: State, id: TaskId, env: Env)
    requires Valid(s) && id in s.graph
    ensures var (t, outcome) := ProcessTask(s, id, env);
            Valid(t) && OnlyTouches(s, t, id) && (outcome != Failed ==> SettledTask(t, env.selected, id))
  {
    if !HasVisible(s, env.selected, id) {
      ImportStep(s, s.graph[id], env);
    } else {
      var m := VisibleMapping(s, env.selected, id);
      assert forall k | VisibleFor(s, env.selected, k, id) :: k == m;
      if !s.mappings[m].detached { ReconcileStep(s, m, env, id); }
    }
  }

  lemma SettledTaskFramed(s: State, t: State, selected: seq<ListId>, id: TaskId, touched: TaskId)
    requires Valid(s) && OnlyTouches(s, t, touched) && SettledTask(s, selected, id) && id != touched
    ensures SettledTask(t, selected, id)
  {
    if id != "" {
      var m :| m in s.mappings && s.mappings[m].externalId == id;
      assert t.mappings[m].externalId == id;
    }
    forall m | VisibleFor(t, selected, m, id)
      ensures InStep(t, m, t.graph[id].task)
    {
      assert VisibleFor(s, selected, m, id) && InStep(s, m, s.graph[id].task);
    }
  }

  lemma SettledTaskIsFixed(s: State, id: TaskId, env: Env)
    requires SettledTask(s, env.selected, id) && s.graph[id].task.id == id
    ensures ProcessTask(s, id, env) == (s, Skipped)
  {
    if HasVisible(s, env.selected, id) {
      var m := VisibleMapping(s, env.selected, id);
      assert InStep(s, m, s.graph[id].task);
    }
  }

  // ------------------------------------------------------------- whole phases

  lemma {:induction false} TaskPhaseSettles(s: State, order: seq<TaskId>, env: Env)
    requires Valid(s) && (forall id | id in order :: id in s.graph)
    requires forall i, j | 0 <= i < j < |order| :: order[i] != order[j]
    ensures var p := TaskPhase(s, order, env);
            && Valid(p.state)
            && (forall x | x in s.graph :: p.state.graph[x].list == s.graph[x].list)
            && (forall m | m in p.state.mappings && m !in s.mappings :: p.state.mappings[m].externalId in order)
            && (p.ok ==> forall id | id in order :: SettledTask(p.state, env.selected, id))
  {
    if order != [] {
      var rest, id := order[..|order| - 1], order[|order| - 1];
      TaskPhaseSettles(s, rest, env);
      var before := TaskPhase(s, rest, env);
      assert order == rest + [id];
      if before.ok {
        ProcessTaskStep(before.state, id, env);
        var next := ProcessTask(before.state, id, env).0;
        forall x | x in rest && TaskPhase(s, order, env).ok
          ensures SettledTask(next, env.selected, x)
        {
          SettledTaskFramed(before.state, next, env.selected, x, id);
        }
      }
    }
  }

  lemma VanishedKeepsTask(s: State, m: MappingId, env: Env, listed: set<TaskId>, id: TaskId)
    requires Valid(s) && m in s.mappings && s.mappings[m].isNote && id in listed && SettledTask(s, env.selected, id)
    ensures SettledTask(ProcessVanished(s, m, env, listed).0, env.selected, id)
  {
    var t := ProcessVanished(s, m, env, listed).0;
    if id != "" {
      var k :| k in s.mappings && s.mappings[k].externalId == id;
      assert t.mappings[k].externalId == id;
    }
    forall k | VisibleFor(t, env.selected, k, id)
      ensures InStep(t, k, t.graph[id].task)
    {
      assert VisibleFor(s, env.selected, k, id) && InStep(s, k, s.graph[id].task);
    }
  }

  lemma VanishedIsValid(s: State, m: MappingId, env: Env, listed: set<TaskId>)
    requires Valid(s) && m in s.mappings
    ensures var t := ProcessVanished(s, m, env, listed).0;
            Valid(t) && forall k | k in s.mappings :: k in t.mappings && SameIdentity(s.mappings[k], t.mappings[k])
  {
  }

  lemma VanishedSettlesRow(s: State, m: MappingId, env: Env, listed: set<TaskId>)
    requires m in s.mappings
    ensures SettledRow(ProcessVanished(s, m, env, listed).0, m, env, listed)
  {
  }

  lemma VanishedKeepsRow(s: State, m: MappingId, env: Env, listed: set<TaskId>, k: MappingId)
    requires m in s.mappings && SettledRow(s, k, env, listed)
    ensures SettledRow(ProcessVanished(s, m, env, listed).0, k, env, listed)
  {
  }

  lemma VanishedStep(s: State, m: MappingId, env: Env, listed: set<TaskId>)
    requires Valid(s) && m in s.mappings && s.mappings[m].isNote
    ensures var t := ProcessVanished(s, m, env, listed).0;
            && Valid(t) && SettledRow(t, m, env, listed)
            && (forall k | k in s.mappings && SettledRow(s, k, env, listed) :: SettledRow(t, k, env, listed))
            && (forall k | k in s.mappings :: k in t.mappings && SameIdentity(s.mappings[k], t.mappings[k]))
            && (forall id | id in listed && SettledTask(s, env.selected, id) :: SettledTask(t, env.selected, id))
  {
    hide ProcessVanished, SettledRow, SettledTask, Valid, SameIdentity;
    VanishedIsValid(s, m, env, listed);
    VanishedSettlesRow(s, m, env, listed);
    forall k | k in s.mappings && SettledRow(s, k, env, listed)
      ensures SettledRow(ProcessVanished(s, m, env, listed).0, k, env, listed)
    {
      VanishedKeepsRow(s, m, env, listed, k);
    }
    forall id | id in listed && SettledTask(s, env.selected, id)
      ensures SettledTask(ProcessVanished(s, m, env, listed).0, env.selected, id)
    {
      VanishedKeepsTask(s, m, env, listed, id);
    }
  }

  lemma {:induction false} VanishedPhaseSettles(p: Progress, rows: seq<MappingId>, env: Env, listed: set<TaskId>)
    requires Valid(p.state) && (forall m | m in rows :: m in p.state.mappings && p.state.mappings[m].isNote)
    ensures var q := VanishedPhase(p, rows, env, listed);
            && Valid(q.state) && q.ok == p.ok
            && (forall m | m in rows :: SettledRow(q.state, m, env, listed))
            && (forall k | k in p.state.mappings :: SameIdentity(p.state.mappings[k], q.state.mappings[k]))
            && (forall id | id in listed && SettledTask(p.state, env.selected, id) :: SettledTask(q.state, env.selected, id))
  {
    hide ProcessVanished, SettledRow, SettledTask, Valid;
    if rows != [] {
      var rest, m := rows[..|rows| - 1], rows[|rows| - 1];
      VanishedPhaseSettles(p, rest, env, listed);
      assert rows == rest + [m];
      VanishedStep(VanishedPhase(p, rest, env, listed).state, m, env, listed);
    }
  }

  /** Every listed task and every mapping is settled. */
  ghost predicate Settled(s: State, env: Env) {
    && Valid(s)
    && (forall id | id in s.graph && IsListed(s, env, id) :: SettledTask(s, env.selected, id))
    && (forall m | m in s.mappings && Visible(s.mappings[m], env.selected) :: SettledRow(s, m, env, Listed(s, env)))
  }

  lemma SuccessSettles(s: State, order: seq<TaskId>, rows: seq<MappingId>, env: Env)
    requires Valid(s) && RunInputs(s, order, rows, env) && PerformSync(s, order, rows, env).ok
    ensures Settled(PerformSync(s, order, rows, env).state, env)
  {
    var listed := Listed(s, env);
    assert forall id | id in order :: id in s.graph;
    TaskPhaseKeepsMappings(s, order, env);
    TaskPhaseSettles(s, order, env);
    TaskPhaseIdentity(s, order, env);
    var tasks := TaskPhase(s, order, env);
    assert forall m | m in rows :: m in s.mappings && Visible(s.mappings[m], env.selected);
    VanishedPhaseSettles(tasks, rows, env, listed);
    var t := PerformSync(s, order, rows, env).state;
    assert t.graph == tasks.state.graph && t.graph.Keys == s.graph.Keys;
    assert Listed(t, env) == listed;
    forall m | m in t.mappings && Visible(t.mappings[m], env.selected)
      ensures SettledRow(t, m, env, listed)
    {
      assert SameIdentity(tasks.state.mappings[m], t.mappings[m]);
      if m in s.mappings {
        assert SameIdentity(s.mappings[m], tasks.state.mappings[m]);
        assert m in rows;
      } else {
        assert t.mappings[m].externalId in order;
      }
    }
  }

  lemma {:induction false} TaskPhaseIdentity(s: State, order: seq<TaskId>, env: Env)
    requires Valid(s) && (forall id | id in order :: id in s.graph)
    requires forall i, j | 0 <= i < j < |order| :: order[i] != order[j]
    ensures var t := TaskPhase(s, order, env).state;
            forall m | m in s.mappings :: m in t.mappings && SameIdentity(s.mappings[m], t.mappings[m])
  {
    if order != [] {
      var rest := order[..|order| - 1];
      TaskPhaseIdentity(s, rest, env);
      TaskPhaseSettles(s, rest, env);
      ProcessTaskStep(TaskPhase(s, rest, env).state, order[|order| - 1], env);
    }
  }

  lemma {:induction false} SettledTasksStay(s: State, order: seq<TaskId>, env: Env)
    requires forall id | id in order :: id in s.graph && s.graph[id].task.id == id
    requires forall id | id in order :: SettledTask(s, env.selected, id)
    ensures TaskPhase(s, order, env) == Progress(s, Tally(0, 0, 0, |order|), true)
  {
    if order != [] {
      SettledTasksStay(s, order[..|order| - 1], env);
      SettledTaskIsFixed(s, order[|order| - 1], env);
    }
  }

  lemma {:induction false} SettledRowsStay(p: Progress, rows: seq<MappingId>, env: Env, listed: set<TaskId>)
    requires forall m | m in rows :: m in p.state.mappings
    requires forall m | m in rows :: SettledRow(p.state, m, env, listed)
    ensures var q := VanishedPhase(p, rows, env, listed);
            q.state == p.state && q.ok == p.ok
            && q.tally.imported == p.tally.imported && q.tally.updated == p.tally.updated && q.tally.deleted == p.tally.deleted
  {
    if rows != [] { SettledRowsStay(p, rows[..|rows| - 1], env, listed); }
  }

  // -------------------------------------------------------------- main results

  /** Convergence: after one successful run from any valid state, the next run, whatever the
      order in which rows arrive and the time, succeeds, counts no change and changes nothing. */
  lemma SyncConverges(s: State, order: seq<TaskId>, rows: seq<MappingId>, env: Env,
                      order': seq<TaskId>, rows': seq<MappingId>, env': Env)
    requires Valid(s) && RunInputs(s, order, rows, env)
    requires PerformSync(s, order, rows, env).ok
    requires env'.selected == env.selected && env'.available == env.available
    requires RunInputs(PerformSync(s, order, rows, env).state, order', rows', env')
    ensures var t := PerformSync(s, order, rows, env).state;
            var again := PerformSync(t, order', rows', env');
            && again.ok && again.state == t
            && again.tally.imported == again.tally.updated == again.tally.deleted == 0
  {
    SuccessSettles(s, order, rows, env);
    var t := PerformSync(s, order, rows, env).state;
    assert Listed(t, env) == Listed(t, env');
    assert Settled(t, env');
    assert forall id | id in order' :: id in Listed(t, env');
    SettledTasksStay(t, order', env');
    assert forall m | m in rows' :: m in VisibleIds(t, env'.selected);
    SettledRowsStay(TaskPhase(t, order', env'), rows', env', Listed(t, env'));
  }

  // ------------------------------------------ what a run may change, and why

  /** The note took the task's text because the task changed and its edit prevails. */
  predicate NoteTaken(s: State, env: Env, m: MappingId, n: NoteId, note: Note) {
    && m in s.mappings && Visible(s.mappings[m], env.selected) && !s.mappings[m].detached && s.mappings[m].noteId == n && Alive(s, n)
    && s.mappings[m].lastLocal.Some? && s.mappings[m].lastExternal.Some?
    && IsListed(s, env, s.mappings[m].externalId)
    && var task := s.graph[s.mappings[m].externalId].task;
       && ExternalWins(s.notes[n], task, s.mappings[m], env.clock(task.id))
       && note == TakeTask(s.notes[n], task, env.clock(task.id))
  }

  /** The note was soft-deleted: its list was fetched and its task was in no fetched list. */
  predicate NoteDeleted(s: State, env: Env, listed: set<TaskId>, m: MappingId, n: NoteId, note: Note) {
    && m in s.mappings && Visible(s.mappings[m], env.selected) && s.mappings[m].noteId == n && Alive(s, n)
    && Vanished(s, m, env, listed)
    && note == s.notes[n].(deleted := true, updatedAt := env.clock(s.mappings[m].externalId))
  }

  /** The task took the note's text because the note changed and the task's edit does not prevail. */
  predicate TaskPushed(s: State, env: Env, m: MappingId, id: TaskId, placed: Placed) {
    && VisibleFor(s, env.selected, m, id) && !s.mappings[m].detached && Alive(s, s.mappings[m].noteId) && id in s.graph
    && s.mappings[m].lastLocal.Some? && s.mappings[m].lastExternal.Some? && s.mappings[m].list == Some(s.graph[id].list)
    && var note := s.notes[s.mappings[m].noteId];
       && LocalHash(note) != s.mappings[m].lastLocal.value
       && !ExternalWins(note, s.graph[id].task, s.mappings[m], env.clock(id))
       && placed == s.graph[id].(task := Task(id, Some(NoteTitle(note, env.plain)), Some(NoteBody(note.content)), Some(env.clock(id))))
  }

  ghost predicate NoteExplained(s: State, t: State, env: Env, done: set<TaskId>, n: NoteId) {
    n in s.notes && n in t.notes
    && (t.notes[n] == s.notes[n] || exists m :: NoteTaken(s, env, m, n, t.notes[n]) && s.mappings[m].externalId in done)
  }

  ghost predicate TaskExplained(s: State, t: State, env: Env, id: TaskId) {
    id in s.graph && id in t.graph && (t.graph[id] == s.graph[id] || exists m :: TaskPushed(s, env, m, id, t.graph[id]))
  }

  /** What belongs to tasks outside `done` is untouched, and nothing disappears. */
  ghost predicate Framed(s: State, t: State, done: set<TaskId>) {
    && Valid(t) && s.nextId <= t.nextId && t.graph.Keys == s.graph.Keys
    && (forall x | x in s.graph && x !in done :: t.graph[x] == s.graph[x])
    && (forall m | m in s.mappings :: m in t.mappings && SameIdentity(s.mappings[m], t.mappings[m]))
    && (forall m | m in s.mappings && s.mappings[m].externalId !in done :: t.mappings[m] == s.mappings[m])
    && (forall m | m in t.mappings && m !in s.mappings :: t.mappings[m].externalId in done)
    && (forall n | n in s.notes :: n in t.notes)
    && (forall n | n in t.notes && n !in s.notes :: n >= s.nextId)
  }

  /** Every difference between s and t has a reason. */
  ghost predicate Explained(s: State, t: State, env: Env, done: set<TaskId>) {
    && Framed(s, t, done)
    && (forall n | n in s.notes :: NoteExplained(s, t, env, done, n))
    && (forall x | x in s.graph :: TaskExplained(s, t, env, x))
  }

  /** The note of a task that is still to be processed is as it was when the run began. */
  lemma PendingNoteUntouched(s: State, t: State, env: Env, done: set<TaskId>, m: MappingId)
    requires Valid(s) && Explained(s, t, env, done)
    requires m in s.mappings && s.mappings[m].isNote && s.mappings[m].externalId !in done
    ensures var n := s.mappings[m].noteId; (n in t.notes <==> n in s.notes) && (n in s.notes ==> t.notes[n] == s.notes[n])
  {
    var n := s.mappings[m].noteId;
    if n in s.notes { assert NoteExplained(s, t, env, done, n); }
  }

  lemma FramedStep(s: State, t: State, u: State, done: set<TaskId>, id: TaskId)
    requires Framed(s, t, done) && Valid(u) && OnlyTouches(t, u, id)
    ensures Framed(s, u, done + {id})
  {
    hide Valid, MapsNote;
    assert forall x :: x in done + {id} <==> x in done || x == id;
  }

  /** The mapping through which an item that is still to be processed changes something. */
  lemma PendingMapping(s: State, t: State, env: Env, done: set<TaskId>, id: TaskId) returns (m: MappingId)
    requires Valid(s) && Explained(s, t, env, done) && IsListed(s, env, id) && id !in done
    requires HasVisible(t, env.selected, id)
    ensures m == VisibleMapping(t, env.selected, id) && VisibleFor(t, env.selected, m, id)
    ensures m in s.mappings && t.mappings[m] == s.mappings[m] && id in t.graph && t.graph[id] == s.graph[id]
    ensures var n := s.mappings[m].noteId; (n in t.notes <==> n in s.notes) && (n in s.notes ==> t.notes[n] == s.notes[n])
  {
    m := VisibleMapping(t, env.selected, id);
    assert m in s.mappings && t.mappings[m] == s.mappings[m];
    PendingNoteUntouched(s, t, env, done, m);
  }

  lemma NoteReasons(s: State, t: State, env: Env, done: set<TaskId>, id: TaskId, n: NoteId)
    requires Valid(s) && Explained(s, t, env, done) && IsListed(s, env, id) && id !in done && n in t.notes
    ensures var u := ProcessTask(t, id, env).0;
            n in u.notes && (u.notes[n] == t.notes[n] || exists m :: NoteTaken(s, env, m, n, u.notes[n]) && s.mappings[m].externalId == id)
  {
    var u := ProcessTask(t, id, env).0;
    if u != t && HasVisible(t, env.selected, id) {
      var m := PendingMapping(s, t, env, done, id);
      hide Reconcile, InStep, NoteTaken, TaskPushed, Explained, HasVisible, VisibleMapping;
      ReconcileReasons(s, t, env, m, id);
      ReconcileIsLocal(t, m, env, id);
    }
  }

  lemma TaskReasons(s: State, t: State, env: Env, done: set<TaskId>, id: TaskId, x: TaskId)
    requires Valid(s) && Explained(s, t, env, done) && IsListed(s, env, id) && id !in done && x in t.graph
    ensures var u := ProcessTask(t, id, env).0;
            x in u.graph && (u.graph[x] == t.graph[x] || exists m :: TaskPushed(s, env, m, x, u.graph[x]))
  {
    var u := ProcessTask(t, id, env).0;
    if u != t && HasVisible(t, env.selected, id) {
      var m := PendingMapping(s, t, env, done, id);
      hide Reconcile, InStep, NoteTaken, TaskPushed, Explained, HasVisible, VisibleMapping;
      ReconcileReasons(s, t, env, m, id);
      ReconcileIsLocal(t, m, env, id);
    }
  }

  lemma ProcessExplained(s: State, t: State, env: Env, done: set<TaskId>, id: TaskId)
    requires Valid(s) && Explained(s, t, env, done) && IsListed(s, env, id) && id !in done
    ensures Explained(s, ProcessTask(t, id, env).0, env, done + {id})
  {
    hide ProcessTask, OnlyTouches, Valid, NoteTaken, TaskPushed, SettledTask;
    var u := ProcessTask(t, id, env).0;
    ProcessTaskStep(t, id, env);
    FramedStep(s, t, u, done, id);
    forall n | n in s.notes
      ensures NoteExplained(s, u, env, done + {id}, n)
    {
      NoteReasons(s, t, env, done, id, n);
      assert NoteExplained(s, t, env, done, n);
    }
    forall x | x in s.graph
      ensures TaskExplained(s, u, env, x)
    {
      TaskReasons(s, t, env, done, id, x);
      assert TaskExplained(s, t, env, x);
    }
  }

  /** If reconciling an untouched item changes anything, it has one of the two reasons. */
  lemma ReconcileReasons(s: State, t: State, env: Env, m: MappingId, id: TaskId)
    requires Valid(s) && Valid(t) && IsListed(s, env, id) && id in t.graph && t.graph[id] == s.graph[id]
    requires VisibleFor(s, env.selected, m, id) && m in t.mappings && t.mappings[m] == s.mappings[m] && !s.mappings[m].detached
    requires var n := s.mappings[m].noteId; (n in t.notes <==> n in s.notes) && (n in s.notes ==> t.notes[n] == s.notes[n])
    ensures var u, n := Reconcile(t, m, t.graph[id].task, env).0, s.mappings[m].noteId;
            && (n in u.notes && u.notes[n] != t.notes[n] ==> NoteTaken(s, env, m, n, u.notes[n]))
            && (id in u.graph && u.graph[id] != t.graph[id] ==> TaskPushed(s, env, m, id, u.graph[id]))
  {
  }

  lemma {:induction false} TaskPhaseExplained(s: State, order: seq<TaskId>, env: Env)
    requires Valid(s) && (forall id | id in order :: id in s.graph) && (forall id | id in order :: IsListed(s, env, id))
    requires forall i, j | 0 <= i < j < |order| :: order[i] != order[j]
    ensures Explained(s, TaskPhase(s, order, env).state, env, set id | id in order)
  {
    if order != [] {
      var rest, id := order[..|order| - 1], order[|order| - 1];
      TaskPhaseExplained(s, rest, env);
      var before := TaskPhase(s, rest, env);
      assert order == rest + [id];
      var done := set x | x in rest;
      assert (set x | x in order) == done + {id};
      if before.ok {
        ProcessExplained(s, before.state, env, done, id);
      } else {
        ExplainedGrows(s, before.state, env, done, done + {id});
      }
    }
  }

  lemma ExplainedGrows(s: State, t: State, env: Env, done: set<TaskId>, done': set<TaskId>)
    requires Explained(s, t, env, done) && done <= done'
    ensures Explained(s, t, env, done')
  {
    forall n | n in s.notes ensures NoteExplained(s, t, env, done', n) { assert NoteExplained(s, t, env, done, n); }
  }

  /** The second loop: a note changes only by the soft delete of its own vanished mapping. */
  ghost predicate RowsFramed(s: State, t: State, rows: seq<MappingId>) {
    && Valid(t) && s.notes.Keys == t.notes.Keys && s.mappings.Keys == t.mappings.Keys
    && (forall m | m in s.mappings :: SameIdentity(s.mappings[m], t.mappings[m]))
    && (forall m | m in s.mappings && m !in rows :: t.mappings[m] == s.mappings[m])
  }

  ghost predicate RowsExplained(s: State, t: State, env: Env, listed: set<TaskId>, rows: seq<MappingId>) {
    && RowsFramed(s, t, rows)
    && (forall n | n in s.notes :: RowExplained(s, t, env, listed, rows, n))
  }

  ghost predicate RowExplained(s: State, t: State, env: Env, listed: set<TaskId>, rows: seq<MappingId>, n: NoteId) {
    n in s.notes && n in t.notes
    && (t.notes[n] == s.notes[n] || exists m :: m in rows && NoteDeleted(s, env, listed, m, n, t.notes[n]))
  }

  lemma RowReason(s: State, t: State, env: Env, listed: set<TaskId>, rest: seq<MappingId>, m: MappingId)
    requires Valid(s) && RowsExplained(s, t, env, listed, rest) && m !in rest
    requires m in s.mappings && Visible(s.mappings[m], env.selected) && t.mappings[m] == s.mappings[m]
    ensures var u, n := ProcessVanished(t, m, env, listed).0, s.mappings[m].noteId;
            || u.notes == t.notes
            || (n in s.notes && n in u.notes && u.notes == t.notes[n := u.notes[n]] && NoteDeleted(s, env, listed, m, n, u.notes[n]))
  {
    var n := s.mappings[m].noteId;
    if n in s.notes { assert RowExplained(s, t, env, listed, rest, n); }
  }

  lemma RowExplainedGrows(s: State, t: State, u: State, env: Env, listed: set<TaskId>, rest: seq<MappingId>, m: MappingId, n: NoteId)
    requires RowExplained(s, t, env, listed, rest, n) && n in u.notes
    requires u.notes[n] == t.notes[n] || NoteDeleted(s, env, listed, m, n, u.notes[n])
    ensures RowExplained(s, u, env, listed, rest + [m], n)
  {
    assert m in rest + [m] && forall k | k in rest :: k in rest + [m];
  }

  lemma VanishedTouchesOneRow(t: State, m: MappingId, env: Env, listed: set<TaskId>)
    requires m in t.mappings
    ensures var u := ProcessVanished(t, m, env, listed).0;
            && u.mappings == t.mappings[m := u.mappings[m]] && SameIdentity(t.mappings[m], u.mappings[m])
            && u.notes.Keys == t.notes.Keys
  {
  }

  lemma RowsFramedStep(s: State, t: State, env: Env, listed: set<TaskId>, rest: seq<MappingId>, m: MappingId)
    requires Valid(s) && RowsFramed(s, t, rest) && m in s.mappings && s.mappings[m].isNote
    ensures RowsFramed(s, ProcessVanished(t, m, env, listed).0, rest + [m])
  {
    var u := ProcessVanished(t, m, env, listed).0;
    VanishedTouchesOneRow(t, m, env, listed);
    assert Valid(u) by { VanishedIsValid(t, m, env, listed); }
    forall k | k in s.mappings && k !in rest + [m] ensures u.mappings[k] == s.mappings[k] {
      assert k !in rest && k != m;
    }
  }

  lemma RowStep(s: State, t: State, env: Env, listed: set<TaskId>, rest: seq<MappingId>, m: MappingId)
    requires Valid(s) && RowsExplained(s, t, env, listed, rest) && m !in rest
    requires m in s.mappings && Visible(s.mappings[m], env.selected)
    ensures RowsExplained(s, ProcessVanished(t, m, env, listed).0, env, listed, rest + [m])
  {
    var u := ProcessVanished(t, m, env, listed).0;
    RowsFramedStep(s, t, env, listed, rest, m);
    RowReason(s, t, env, listed, rest, m);
    forall k | k in s.notes
      ensures RowExplained(s, u, env, listed, rest + [m], k)
    {
      assert RowExplained(s, t, env, listed, rest, k);
      RowExplainedGrows(s, t, u, env, listed, rest, m, k);
    }
  }

  lemma {:induction false} VanishedPhaseExplained(p: Progress, rows: seq<MappingId>, env: Env, listed: set<TaskId>)
    requires Valid(p.state) && (forall m | m in rows :: m in p.state.mappings && Visible(p.state.mappings[m], env.selected))
    requires forall i, j | 0 <= i < j < |rows| :: rows[i] != rows[j]
    ensures RowsExplained(p.state, VanishedPhase(p, rows, env, listed).state, env, listed, rows)
  {
    if rows != [] {
      var rest, m := rows[..|rows| - 1], rows[|rows| - 1];
      VanishedPhaseExplained(p, rest, env, listed);
      assert rows == rest + [m];
      RowStep(p.state, VanishedPhase(p, rest, env, listed).state, env, listed, rest, m);
    }
  }

  /** A note changes only for one of the two reasons. */
  ghost predicate NoteJustified(s: State, t: State, env: Env, n: NoteId) {
    n in s.notes && n in t.notes
    && (|| t.notes[n] == s.notes[n]
        || (exists m :: NoteTaken(s, env, m, n, t.notes[n]))
        || (exists m :: NoteDeleted(s, env, Listed(s, env), m, n, t.notes[n])))
  }

  lemma DeletionJustified(s: State, t: State, env: Env, m: MappingId, n: NoteId, note: Note)
    requires Valid(s) && Explained(s, t, env, Listed(s, env)) && m in s.mappings && s.mappings[m].isNote
    requires NoteDeleted(t, env, Listed(s, env), m, n, note)
    ensures NoteDeleted(s, env, Listed(s, env), m, n, note)
  {
    PendingNoteUntouched(s, t, env, Listed(s, env), m);
  }

  lemma RunExplained(s: State, order: seq<TaskId>, rows: seq<MappingId>, env: Env)
    requires Valid(s) && RunInputs(s, order, rows, env)
    ensures var listed := Listed(s, env);
            && (forall id | id in order :: id in s.graph)
            && var tasks := TaskPhase(s, order, env);
               && Explained(s, tasks.state, env, listed)
               && (forall m | m in rows :: m in s.mappings && s.mappings[m].isNote && m in tasks.state.mappings)
               && (tasks.ok ==> RowsExplained(tasks.state, VanishedPhase(tasks, rows, env, listed).state, env, listed, rows))
  {
    assert forall id | id in order :: id in Listed(s, env);
    TaskPhaseExplained(s, order, env);
    assert (set id | id in order) == Listed(s, env);
    var tasks := TaskPhase(s, order, env);
    forall m | m in rows ensures m in s.mappings && m in tasks.state.mappings && Visible(tasks.state.mappings[m], env.selected) {
      assert m in VisibleIds(s, env.selected);
      assert SameIdentity(s.mappings[m], tasks.state.mappings[m]);
    }
    if tasks.ok { VanishedPhaseExplained(tasks, rows, env, Listed(s, env)); }
  }

  /** No edit is lost: whether or not the run succeeds, a note changes only if the task's edit
      prevails or its task vanished from a fetched list, and a task changes only if the note's
      edit prevails.  Only a vanished task soft-deletes a note. */
  lemma OnlyJustifiedChanges(s: State, order: seq<TaskId>, rows: seq<MappingId>, env: Env)
    requires Valid(s) && RunInputs(s, order, rows, env)
    ensures var t := PerformSync(s, order, rows, env).state;
            && (forall n | n in s.notes :: NoteJustified(s, t, env, n))
            && (forall x | x in s.graph :: TaskExplained(s, t, env, x))
  {
    var listed := Listed(s, env);
    RunExplained(s, order, rows, env);
    var tasks, t := TaskPhase(s, order, env), PerformSync(s, order, rows, env).state;
    forall n | n in s.notes
      ensures NoteJustified(s, t, env, n)
    {
      assert NoteExplained(s, tasks.state, env, listed, n);
      if t.notes[n] != tasks.state.notes[n] {
        assert RowExplained(tasks.state, t, env, listed, rows, n);
        var m :| m in rows && NoteDeleted(tasks.state, env, listed, m, n, t.notes[n]);
        DeletionJustified(s, tasks.state, env, m, n, t.notes[n]);
      }
    }
    forall x | x in s.graph ensures TaskExplained(s, t, env, x) { assert TaskExplained(s, tasks.state, env, x); }
  }

  /** After the task's text is taken both sides agree exactly when its title fits a note title. */
  lemma TakenTextAgrees(note: Note, task: Task, now: int)
    ensures LocalHash(TakeTask(note, task, now)) == ExternalHash(task) <==> 0 < |TitleText(task.title)| <= TITLE_LIMIT
  {
    if task.title.Some? { TrimIsTrimmed(task.title.value); }
    var title := TitleText(task.title);
    TrimIsTrimmed(Take(title, TITLE_LIMIT));
    assert !IsSpace(DEFAULT_TITLE[0]) && !IsSpace(DEFAULT_TITLE[|DEFAULT_TITLE| - 1]);
    TrimIsTrimmed(DEFAULT_TITLE);
  }

  // ------------------------------------------------------- what a run creates

  /** Mapping m and note n are new in t, belong together, and stand for a task of `done` that had no
      mapping in s. */
  ghost predicate NewPair(s: State, t: State, done: set<TaskId>, m: MappingId, n: NoteId) {
    && m in t.mappings && m !in s.mappings && n in t.notes && n !in s.notes
    && t.mappings[m].isNote && t.mappings[m].noteId == n
    && t.mappings[m].externalId in done && !Mapped(s, t.mappings[m].externalId)
  }

  ghost predicate Paired(s: State, t: State, done: set<TaskId>) {
    && (forall m | m in s.mappings :: m in t.mappings && SameIdentity(s.mappings[m], t.mappings[m]))
    && s.notes.Keys <= t.notes.Keys
    && (forall n | n in t.notes && n !in s.notes :: exists m :: NewPair(s, t, done, m, n))
    && (forall m | m in t.mappings && m !in s.mappings :: NewPair(s, t, done, m, t.mappings[m].noteId))
  }

  /** The keys and identities of both tables stay. */
  predicate SameRows(s: State, t: State) {
    && s.notes.Keys == t.notes.Keys && s.mappings.Keys == t.mappings.Keys
    && (forall m | m in s.mappings :: SameIdentity(s.mappings[m], t.mappings[m]))
  }

  lemma ProcessRows(s: State, id: TaskId, env: Env)
    requires Valid(s) && id in s.graph
    ensures var t := ProcessTask(s, id, env).0;
            SameRows(s, t) || (!Mapped(s, id) && AddsPair(s, t, id, s.nextId + 1, s.nextId))
  {
    if !HasVisible(s, env.selected, id) {
      ImportCreates(s, s.graph[id], env);
    } else {
      var m := VisibleMapping(s, env.selected, id);
      if !s.mappings[m].detached && Reconcile(s, m, s.graph[id].task, env).0 != s { ReconcileIsLocal(s, m, env, id); }
    }
  }

  lemma PairedKept(s: State, t: State, u: State, done: set<TaskId>, more: set<TaskId>)
    requires Paired(s, t, done) && SameRows(t, u) && done <= more
    ensures Paired(s, u, more)
  {
    forall n | n in u.notes && n !in s.notes ensures exists m :: NewPair(s, u, more, m, n) {
      var m :| NewPair(s, t, done, m, n);
      assert NewPair(s, u, more, m, n);
    }
    forall m | m in u.mappings && m !in s.mappings ensures NewPair(s, u, more, m, u.mappings[m].noteId) {
      assert NewPair(s, t, done, m, t.mappings[m].noteId);
    }
  }

  lemma MappedStays(s: State, t: State, id: TaskId)
    requires forall m | m in s.mappings :: m in t.mappings && SameIdentity(s.mappings[m], t.mappings[m])
    ensures Mapped(s, id) ==> Mapped(t, id)
  {
    if m :| m in s.mappings && s.mappings[m].externalId == id { assert t.mappings[m].externalId == id; }
  }

  lemma PairedGrows(s: State, t: State, u: State, done: set<TaskId>, id: TaskId, k: MappingId, x: NoteId)
    requires Paired(s, t, done) && !Mapped(t, id) && AddsPair(t, u, id, k, x)
    ensures Paired(s, u, done + {id})
  {
    MappedStays(s, t, id);
    assert NewPair(s, u, done + {id}, k, x);
    forall n | n in u.notes && n !in s.notes ensures exists m :: NewPair(s, u, done + {id}, m, n) {
      if n != x {
        var m :| NewPair(s, t, done, m, n);
        assert NewPair(s, u, done + {id}, m, n);
      }
    }
    forall m | m in u.mappings && m !in s.mappings ensures NewPair(s, u, done + {id}, m, u.mappings[m].noteId) {
      if m != k { assert NewPair(s, t, done, m, t.mappings[m].noteId); }
    }
  }

  lemma {:induction false} TaskPhasePairs(s: State, order: seq<TaskId>, env: Env)
    requires Valid(s) && (forall id | id in order :: id in s.graph)
    requires forall i, j | 0 <= i < j < |order| :: order[i] != order[j]
    ensures Paired(s, TaskPhase(s, order, env).state, set id | id in order)
  {
    if order != [] {
      var rest, id := order[..|order| - 1], order[|order| - 1];
      TaskPhasePairs(s, rest, env);
      TaskPhaseSettles(s, rest, env);
      var before := TaskPhase(s, rest, env);
      var done := set x | x in rest;
      assert order == rest + [id];
      assert (set x | x in order) == done + {id};
      ProcessRows(before.state, id, env);
      var next := ProcessTask(before.state, id, env).0;
      hide ProcessTask, Paired, SameRows, AddsPair, SettledTask;
      if !before.ok {
        SameRowsItself(before.state);
        PairedKept(s, before.state, before.state, done, done + {id});
      } else if SameRows(before.state, next) {
        PairedKept(s, before.state, next, done, done + {id});
      } else {
        PairedGrows(s, before.state, next, done, id, before.state.nextId + 1, before.state.nextId);
      }
    }
  }

  lemma SameRowsItself(s: State)
    ensures SameRows(s, s)
  {
  }

  /** The second loop adds no rows. */
  lemma {:induction false} VanishedPhaseRows(p: Progress, rows: seq<MappingId>, env: Env, listed: set<TaskId>)
    requires forall m | m in rows :: m in p.state.mappings
    ensures SameRows(p.state, VanishedPhase(p, rows, env, listed).state)
  {
    if rows != [] { VanishedPhaseRows(p, rows[..|rows| - 1], env, listed); }
  }

  /** Every note that a run creates belongs to exactly one new mapping, of a listed task that had no
      mapping before; every new mapping has such a note, and no task gets two. */
  lemma CreatedNotes(s: State, order: seq<TaskId>, rows: seq<MappingId>, env: Env)
    requires Valid(s) && RunInputs(s, order, rows, env)
    ensures var t, listed := PerformSync(s, order, rows, env).state, Listed(s, env);
            && (forall n | n in t.notes && n !in s.notes :: exists m :: NewPair(s, t, listed, m, n))
            && (forall m | m in t.mappings && m !in s.mappings :: NewPair(s, t, listed, m, t.mappings[m].noteId))
            && (forall a, b | a in t.mappings && b in t.mappings && a !in s.mappings && b !in s.mappings && a != b ::
                  t.mappings[a].noteId != t.mappings[b].noteId && t.mappings[a].externalId != t.mappings[b].externalId)
  {
    var listed, t := Listed(s, env), PerformSync(s, order, rows, env).state;
    assert forall id | id in order :: id in listed && id in s.graph;
    assert (set id | id in order) == listed;
    TaskPhasePairs(s, order, env);
    var tasks := TaskPhase(s, order, env);
    RunStaysValid(s, order, rows, env);
    if tasks.ok {
      TaskPhaseKeepsMappings(s, order, env);
      assert forall m | m in rows :: m in VisibleIds(s, env.selected);
      VanishedPhaseRows(tasks, rows, env, listed);
      PairedKept(s, tasks.state, t, listed, listed);
    }
    forall a, b | a in t.mappings && b in t.mappings && a !in s.mappings && b !in s.mappings && a != b
      ensures t.mappings[a].noteId != t.mappings[b].noteId && t.mappings[a].externalId != t.mappings[b].externalId
    {
      assert NewPair(s, t, listed, a, t.mappings[a].noteId) && NewPair(s, t, listed, b, t.mappings[b].noteId);
    }
  }

  /** A run keeps the unique constraints, whether or not it succeeds. */
  lemma RunStaysValid(s: State, order: seq<TaskId>, rows: seq<MappingId>, env: Env)
    requires Valid(s) && RunInputs(s, order, rows, env)
    ensures Valid(PerformSync(s, order, rows, env).state)
  {
    assert forall id | id in order :: id in Listed(s, env);
    TaskPhaseSettles(s, order, env);
    RowsAfterTasks(s, order, rows, env);
    if TaskPhase(s, order, env).ok { VanishedPhaseSettles(TaskPhase(s, order, env), rows, env, Listed(s, env)); }
  }

  /** The rows that a run reads before the task loop are note mappings, and still there after it. */
  lemma RowsAfterTasks(s: State, order: seq<TaskId>, rows: seq<MappingId>, env: Env)
    requires Valid(s) && RunInputs(s, order, rows, env)
    ensures forall id | id in order :: id in s.graph
    ensures var t := TaskPhase(s, order, env).state;
            forall m | m in rows :: m in s.mappings && m in t.mappings && t.mappings[m].isNote
  {
    assert forall id | id in order :: id in Listed(s, env);
    TaskPhaseIdentity(s, order, env);
    forall m | m in rows ensures m in s.mappings && s.mappings[m].isNote { assert m in VisibleIds(s, env.selected); }
  }

  // -------------------------------------------------------------- what the texts are

  /** An imported note shows the task: its content is the trimmed body, else the trimmed title, else the
      default text; its title is the trimmed title or the default.  It is in step with the task exactly
      when the task has a title. */
  lemma ImportedText(s: State, placed: Placed, env: Env)
    requires Valid(s) && placed.task.id in s.graph && s.graph[placed.task.id] == placed
    requires placed.task.id != "" && !Mapped(s, placed.task.id)
    ensures s.nextId in Import(s, placed, env).0.notes
    ensures var note := Import(s, placed, env).0.notes[s.nextId];
            var body := if placed.task.body.Some? then Trim(placed.task.body.value) else "";
            var title := if placed.task.title.Some? then Trim(placed.task.title.value) else "";
            && note.content == (if body != "" then body else if title != "" then title else "Microsoft-To-Do-Aufgabe")
            && note.title == Some(if title != "" then title else "Microsoft-To-Do-Aufgabe")
            && note.updatedAt == env.clock(placed.task.id) && !note.deleted
            && (LocalHash(note) == ExternalHash(placed.task) <==> title != "")
  {
    var task := placed.task;
    if task.title.Some? { TrimIsTrimmed(task.title.value); }
    TrimIsTrimmed("Microsoft-To-Do-Aufgabe");
    assert Trimmed("Microsoft-To-Do-Aufgabe");
  }

  /** Two notes hash alike exactly when their trimmed titles and their contents are equal, two tasks
      exactly when their trimmed titles and the contents that an import would show are. */
  lemma HashesSeeTheText(a: Note, b: Note, x: Task, y: Task)
    ensures LocalHash(a) == LocalHash(b) <==>
            && (if a.title.Some? then Trim(a.title.value) else "") == (if b.title.Some? then Trim(b.title.value) else "")
            && a.content == b.content
    ensures ExternalHash(x) == ExternalHash(y) <==>
            var xTitle := if x.title.Some? then Trim(x.title.value) else "";
            var yTitle := if y.title.Some? then Trim(y.title.value) else "";
            var xBody := if x.body.Some? then Trim(x.body.value) else "";
            var yBody := if y.body.Some? then Trim(y.body.value) else "";
            && xTitle == yTitle
            && (if xBody != "" then xBody else if xTitle != "" then xTitle else "Microsoft-To-Do-Aufgabe")
               == (if yBody != "" then yBody else if yTitle != "" then yTitle else "Microsoft-To-Do-Aufgabe")
  {
  }

  /** The first n characters of the text. */
  predicate IsCut(cut: string, text: string, n: nat) {
    cut <= text && |cut| == if |text| <= n then |text| else n
  }

  /** What taking a task's text does to a note: 200 characters of the trimmed title or the default title,
      and the trimmed body, else the trimmed title, else the default text. */
  lemma TakenText(note: Note, task: Task, now: int)
    ensures var taken := TakeTask(note, task, now);
            var body := if task.body.Some? then Trim(task.body.value) else "";
            var title := if task.title.Some? then Trim(task.title.value) else "";
            && taken.content == (if body != "" then body else if title != "" then title else "Microsoft-To-Do-Aufgabe")
            && taken.title.Some? && IsCut(taken.title.value, if title != "" then title else "Microsoft-To-Do-Aufgabe", 200)
            && taken.updatedAt == now && taken.deleted == note.deleted
  {
  }

  /** What is pushed: 200 characters of the note's trimmed title, else of its plain text, else of the
      default title, and 65000 characters of its trimmed content. */
  lemma PushedText(note: Note, plain: string -> string)
    ensures var title := if note.title.Some? then Trim(note.title.value) else "";
            IsCut(NoteTitle(note, plain),
                  if title != "" then title else if plain(note.content) != "" then plain(note.content) else "AD-Wiki-Notiz", 200)
    ensures IsCut(NoteBody(note.content), Trim(note.content), 65000)
  {
  }

  /** Who prevails for a mapped live note that was synchronised before.  Nothing happens when neither
      text changed.  The task prevails when it changed and the note did not, or was changed strictly
      later; otherwise the note is pushed, if the task is still in the list of the mapping. */
  lemma WhoPrevails(s: State, m: MappingId, task: Task, env: Env)
    requires m in s.mappings && s.mappings[m].list.Some? && s.mappings[m].noteId in s.notes && !s.notes[s.mappings[m].noteId].deleted
    requires s.mappings[m].lastLocal.Some? && s.mappings[m].lastExternal.Some?
    ensures var mapping, (t, outcome) := s.mappings[m], Reconcile(s, m, task, env);
            var note := s.notes[mapping.noteId];
            var noteSame, taskSame := mapping.lastLocal.value == LocalHash(note), mapping.lastExternal.value == ExternalHash(task);
            var modified := if task.modified.Some? then task.modified.value else env.clock(task.id);
            if noteSame && taskSame then t == s && outcome == Skipped
            else if !taskSame && (noteSame || modified > note.updatedAt) then
              && outcome == Updated && t.graph == s.graph
              && t.notes == s.notes[mapping.noteId := TakeTask(note, task, env.clock(task.id))]
            else if task.id in s.graph && s.graph[task.id].list == mapping.list.value then
              && outcome == Updated && t.notes == s.notes && task.id in t.graph
              && t.graph == s.graph[task.id := t.graph[task.id]] && t.graph[task.id].list == s.graph[task.id].list
              && t.graph[task.id].task.id == task.id && t.graph[task.id].task.title == Some(NoteTitle(note, env.plain))
              && t.graph[task.id].task.body == Some(NoteBody(note.content))
              && t.graph[task.id].task.modified == Some(env.clock(task.id))
            else t == s && outcome == Failed
  {
  }

  /** When a mapping counts as vanished in a run: it is neither detached nor marked already, its list is
      selected and available, and no task of its id lies in such a list. */
  lemma VanishedMeans(s: State, m: MappingId, env: Env)
    requires m in s.mappings
    ensures Vanished(s, m, env, Listed(s, env)) <==>
            var mapping := s.mappings[m];
            && !mapping.detached && !mapping.externalDeleted
            && mapping.list.Some? && mapping.list.value in env.selected && mapping.list.value in env.available
            && !(mapping.externalId in s.graph && s.graph[mapping.externalId].list in env.selected
                 && s.graph[mapping.externalId].list in env.available)
  {
  }

  // --------------------------------------------------------- what a run leaves alone

  /** The mapping belongs to a note, has a list that the user has selected, and was not detached. */
  ghost predicate Chosen(mapping: Mapping, selected: seq<ListId>) {
    && mapping.isNote && !mapping.detached
    && exists k :: 0 <= k < |selected| && mapping.list == Some(selected[k])
  }

  /** A mapped task is reconciled exactly when its mapping is chosen; otherwise it is skipped, and never
      imported again. */
  lemma ChosenAreReconciled(s: State, id: TaskId, env: Env, m: MappingId)
    requires Valid(s) && id in s.graph && m in s.mappings && s.mappings[m].externalId == id
    ensures Chosen(s.mappings[m], env.selected) ==> ProcessTask(s, id, env) == Reconcile(s, m, s.graph[id].task, env)
    ensures !Chosen(s.mappings[m], env.selected) ==> ProcessTask(s, id, env) == (s, Skipped)
  {
    assert Chosen(s.mappings[m], env.selected) <==> Visible(s.mappings[m], env.selected) && !s.mappings[m].detached;
    hide Chosen, Visible;
    if HasVisible(s, env.selected, id) {
      assert VisibleFor(s, env.selected, VisibleMapping(s, env.selected, id), id);
    } else {
      assert !VisibleFor(s, env.selected, m, id);
      assert Mapped(s, id);
    }
  }

  lemma {:induction false} UnchosenInTaskPhase(s: State, order: seq<TaskId>, env: Env, m: MappingId)
    requires Valid(s) && (forall id | id in order :: id in s.graph)
    requires m in s.mappings && !Chosen(s.mappings[m], env.selected)
    ensures var t := TaskPhase(s, order, env).state; Valid(t) && m in t.mappings && t.mappings[m] == s.mappings[m]
  {
    hide Valid, Chosen, ProcessTask;
    if order != [] {
      var rest, id := order[..|order| - 1], order[|order| - 1];
      UnchosenInTaskPhase(s, rest, env, m);
      var before := TaskPhase(s, rest, env);
      if before.ok {
        assert id in order && id in before.state.graph;
        ProcessTaskStep(before.state, id, env);
        if s.mappings[m].externalId == id { ChosenAreReconciled(before.state, id, env, m); }
      }
    }
  }

  lemma {:induction false} UnchosenInVanishedPhase(p: Progress, rows: seq<MappingId>, env: Env, listed: set<TaskId>, m: MappingId)
    requires (forall row | row in rows :: row in p.state.mappings && Visible(p.state.mappings[row], env.selected))
    requires m in p.state.mappings && !Chosen(p.state.mappings[m], env.selected)
    ensures VanishedPhase(p, rows, env, listed).state.mappings[m] == p.state.mappings[m]
  {
    if rows != [] {
      var rest, row := rows[..|rows| - 1], rows[|rows| - 1];
      UnchosenInVanishedPhase(p, rest, env, listed, m);
      assert row in rows;
      if row == m { assert p.state.mappings[m].detached; }
    }
  }

  /** Whether or not it succeeds, a run changes no mapping that is not chosen. */
  lemma UnchosenStay(s: State, order: seq<TaskId>, rows: seq<MappingId>, env: Env, m: MappingId)
    requires Valid(s) && RunInputs(s, order, rows, env) && m in s.mappings && !Chosen(s.mappings[m], env.selected)
    ensures var t := PerformSync(s, order, rows, env).state; m in t.mappings && t.mappings[m] == s.mappings[m]
  {
    UnchosenInTaskPhase(s, order, env, m);
    if TaskPhase(s, order, env).ok {
      TaskPhaseIdentity(s, order, env);
      forall row | row in rows
        ensures row in TaskPhase(s, order, env).state.mappings && Visible(TaskPhase(s, order, env).state.mappings[row], env.selected)
      {
        assert row in VisibleIds(s, env.selected);
      }
      UnchosenInVanishedPhase(TaskPhase(s, order, env), rows, env, Listed(s, env), m);
    }
  }

  // ------------------------------------------------------------- what the counts mean

  /** How an item's outcome shows in the notes and in Graph. */
  predicate OutcomeShows(s: State, t: State, outcome: Outcome) {
    && (outcome.Skipped? || outcome.Failed? ==> t.notes == s.notes && t.graph == s.graph)
    && |t.notes| == |s.notes| + (if outcome.Imported? then 1 else 0)
    && !outcome.Deleted?
  }

  lemma ReconcileShows(s: State, m: MappingId, env: Env, id: TaskId)
    requires Valid(s) && id in s.graph && VisibleFor(s, env.selected, m, id)
    ensures var (t, outcome) := Reconcile(s, m, s.graph[id].task, env); OutcomeShows(s, t, outcome)
  {
    var (t, outcome) := Reconcile(s, m, s.graph[id].task, env);
    assert t.notes.Keys == s.notes.Keys;
    SameSize(s.notes, t.notes);
  }

  lemma SameSize(a: map<NoteId, Note>, b: map<NoteId, Note>)
    requires a.Keys == b.Keys
    ensures |a| == |b|
  {
    assert |a| == |a.Keys| && |b| == |b.Keys|;
  }

  lemma ImportShows(s: State, placed: Placed, env: Env)
    requires Valid(s) && placed.task.id in s.graph && s.graph[placed.task.id] == placed
    ensures var (t, outcome) := Import(s, placed, env); OutcomeShows(s, t, outcome)
  {
    ImportCreates(s, placed, env);
    if placed.task.id != "" && !Mapped(s, placed.task.id) {
      var t := Import(s, placed, env).0;
      assert t.notes.Keys == s.notes.Keys + {s.nextId};
      assert |t.notes| == |t.notes.Keys| && |s.notes| == |s.notes.Keys|;
    }
  }

  /** Only an item that is counted as imported or updated changes a note or a task. */
  lemma ProcessShows(s: State, id: TaskId, env: Env)
    requires Valid(s) && id in s.graph
    ensures var (t, outcome) := ProcessTask(s, id, env); OutcomeShows(s, t, outcome)
  {
    hide OutcomeShows, Reconcile, Import, Valid;
    if !HasVisible(s, env.selected, id) {
      assert s.graph[id].task.id == id by { TaskIds(s, id); }
      ImportShows(s, s.graph[id], env);
    } else {
      var m := VisibleMapping(s, env.selected, id);
      if s.mappings[m].detached { NothingShows(s); } else { ReconcileShows(s, m, env, id); }
    }
  }

  lemma TaskIds(s: State, id: TaskId)
    requires Valid(s) && id in s.graph
    ensures s.graph[id].task.id == id
  {
  }

  lemma NothingShows(s: State)
    ensures OutcomeShows(s, s, Skipped)
  {
  }

  /** The counts of a part of the first loop: notes created, and no change unless counted. */
  predicate TasksCounted(s: State, p: Progress, items: nat) {
    && p.tally.imported == |p.state.notes| - |s.notes| && p.tally.deleted == 0
    && (p.tally.imported == 0 && p.tally.updated == 0 ==> p.state.notes == s.notes && p.state.graph == s.graph)
    && (p.ok ==> p.tally.imported + p.tally.updated + p.tally.skipped == items)
  }

  lemma CountedItem(s: State, p: Progress, next: State, outcome: Outcome, items: nat)
    requires TasksCounted(s, p, items) && p.ok && OutcomeShows(p.state, next, outcome)
    ensures TasksCounted(s, Progress(next, Count(p.tally, outcome), outcome != Failed), items + 1)
  {
  }

  lemma {:induction false} TaskCounts(s: State, order: seq<TaskId>, env: Env)
    requires Valid(s) && (forall id | id in order :: id in s.graph)
    requires forall i, j | 0 <= i < j < |order| :: order[i] != order[j]
    ensures TasksCounted(s, TaskPhase(s, order, env), |order|)
  {
    if order == [] {
    } else {
      var rest, id := order[..|order| - 1], order[|order| - 1];
      TaskCounts(s, rest, env);
      TaskPhaseSettles(s, rest, env);
      assert order == rest + [id];
      var before := TaskPhase(s, rest, env);
      if before.ok {
        ProcessShows(before.state, id, env);
        hide TasksCounted, OutcomeShows, ProcessTask, Count, SettledTask, Valid;
        var (next, outcome) := ProcessTask(before.state, id, env);
        CountedItem(s, before, next, outcome, |rest|);
      }
    }
  }

  lemma {:induction false} VanishedCounts(p: Progress, rows: seq<MappingId>, env: Env, listed: set<TaskId>)
    requires forall m | m in rows :: m in p.state.mappings
    ensures var q := VanishedPhase(p, rows, env, listed);
            && q.tally.imported == p.tally.imported && q.tally.updated == p.tally.updated && q.tally.deleted >= p.tally.deleted
            && (q.tally.deleted == p.tally.deleted ==> q.state.notes == p.state.notes)
            && |q.state.notes| == |p.state.notes| && q.state.graph == p.state.graph
  {
    if rows != [] {
      var rest := rows[..|rows| - 1];
      VanishedCounts(p, rest, env, listed);
      var before, after := VanishedPhase(p, rest, env, listed).state, VanishedPhase(p, rows, env, listed).state;
      assert after.notes.Keys == before.notes.Keys;
    }
  }

  /** A run counts as imported exactly the notes that it creates, and one that counts no change has
      changed no note and no task: its record may be dropped. */
  lemma CountsMeanChanges(s: State, order: seq<TaskId>, rows: seq<MappingId>, env: Env)
    requires Valid(s) && RunInputs(s, order, rows, env)
    ensures var p := PerformSync(s, order, rows, env);
            && p.tally.imported == |p.state.notes| - |s.notes|
            && (p.tally.imported == p.tally.updated == p.tally.deleted == 0 ==> p.state.notes == s.notes && p.state.graph == s.graph)
  {
    RowsAfterTasks(s, order, rows, env);
    TaskCounts(s, order, env);
    if TaskPhase(s, order, env).ok { VanishedCounts(TaskPhase(s, order, env), rows, env, Listed(s, env)); }
  }

  // ------------------------------------------------------------------- crashes

  /** Where a run may stop: between two items of the first loop, between the two writes of an item
      (the note or the task written, the mapping not yet), or between two turns of the second loop,
      whose writes are one transaction. */
  datatype CrashPoint =
    | BetweenTasks(done: nat)
    | InsideTask(done: nat)
    | BetweenRows(done: nat)

  ghost predicate CrashInputs(s: State, order: seq<TaskId>, rows: seq<MappingId>, env: Env, crash: CrashPoint) {
    RunInputs(s, order, rows, env)
    && match crash
       case BetweenTasks(k) => k <= |order|
       case InsideTask(k) => k < |order|
       case BetweenRows(k) => k <= |rows| && TasksOk(s, order, env)
  }

  ghost predicate TasksOk(s: State, order: seq<TaskId>, env: Env) {
    (forall id | id in order :: id in s.graph) && TaskPhase(s, order, env).ok
  }

  lemma TaskInputs(s: State, order: seq<TaskId>, rows: seq<MappingId>, env: Env, k: nat)
    requires RunInputs(s, order, rows, env) && k <= |order|
    ensures forall id | id in order :: id in s.graph
    ensures forall id | id in order[..k] :: id in s.graph
    ensures forall i, j | 0 <= i < j < |order[..k]| :: order[..k][i] != order[..k][j]
  {
    assert forall id | id in order :: id in Listed(s, env);
    assert forall id | id in order[..k] :: id in order;
  }

  /** What a crash leaves behind. */
  ghost function Crashed(s: State, order: seq<TaskId>, rows: seq<MappingId>, env: Env, crash: CrashPoint): State
    requires Valid(s) && CrashInputs(s, order, rows, env, crash)
  {
    match crash
    case BetweenTasks(k) =>
      TaskInputs(s, order, rows, env, k);
      TaskPhase(s, order[..k], env).state
    case InsideTask(k) =>
      TaskInputs(s, order, rows, env, k);
      var before := TaskPhase(s, order[..k], env).state;
      assert order[k] in order;
      var after := ProcessTask(before, order[k], env).0;
      before.(notes := map n | n in before.notes :: if n in after.notes then after.notes[n] else before.notes[n], graph := after.graph)
    case BetweenRows(k) =>
      RowsAfterTasks(s, order, rows, env);
      assert forall m | m in rows[..k] :: m in rows;
      VanishedPhase(TaskPhase(s, order, env), rows[..k], env, Listed(s, env)).state
  }

  /** A crash anywhere leaves the unique constraints intact. */
  lemma CrashedIsValid(s: State, order: seq<TaskId>, rows: seq<MappingId>, env: Env, crash: CrashPoint)
    requires Valid(s) && CrashInputs(s, order, rows, env, crash)
    ensures Valid(Crashed(s, order, rows, env, crash))
  {
    match crash
    case BetweenTasks(k) =>
      TaskInputs(s, order, rows, env, k);
      TaskPhaseSettles(s, order[..k], env);
    case InsideTask(k) =>
      TaskInputs(s, order, rows, env, k);
      TaskPhaseSettles(s, order[..k], env);
      assert order[k] in order;
      ProcessTaskStep(TaskPhase(s, order[..k], env).state, order[k], env);
    case BetweenRows(k) =>
      TaskInputs(s, order, rows, env, |order|);
      RowsAfterTasks(s, order, rows, env);
      assert forall m | m in rows[..k] :: m in rows;
      TaskPhaseSettles(s, order, env);
      VanishedPhaseSettles(TaskPhase(s, order, env), rows[..k], env, Listed(s, env));
  }

  /** After a run that stopped anywhere, the next successful run converges. */
  lemma CrashedRunConverges(s: State, order: seq<TaskId>, rows: seq<MappingId>, env: Env, crash: CrashPoint,
                            order': seq<TaskId>, rows': seq<MappingId>, env': Env,
                            order'': seq<TaskId>, rows'': seq<MappingId>, env'': Env)
    requires Valid(s) && CrashInputs(s, order, rows, env, crash)
    requires RunInputs(Crashed(s, order, rows, env, crash), order', rows', env')
    requires PerformSync(Crashed(s, order, rows, env, crash), order', rows', env').ok
    requires env''.selected == env'.selected && env''.available == env'.available
    requires RunInputs(PerformSync(Crashed(s, order, rows, env, crash), order', rows', env').state, order'', rows'', env'')
    ensures var t := PerformSync(Crashed(s, order, rows, env, crash), order', rows', env').state;
            var again := PerformSync(t, order'', rows'', env'');
            again.ok && again.state == t && again.tally.imported == again.tally.updated == again.tally.deleted == 0
  {
    CrashedIsValid(s, order, rows, env, crash);
    SyncConverges(Crashed(s, order, rows, env, crash), order', rows', env', order'', rows'', env'');
  }
}
