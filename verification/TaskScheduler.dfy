/** The DOWN and DETABLE tables and everything that changes them (web_api.c, http.c): the download
    controller, the thread that lists the server, and the handlers for start, pause and delete.
    Each event is one critical section of m_down; SQL statements are assumed to succeed.  */
module TaskScheduler {
  import opened Wrappers

  type Path = string

  datatype Status = Waiting | Ing | Suspend | Priority | Failed | Reload | MyDelete

  datatype Row = Row(path: Path, to: Path, size: string, dir: int, md5: string, opt: int, status: Status)

  const CREATE := 10   // CLOUD_CREATE

  /** What the server reports for one path. */
  datatype Meta = Meta(path: Path, dir: int, size: string, md5: string)

  datatype Task = Task(id: nat, rec: Row)

  /** How a download ended: code 1, code 2, or 0, the last with all ten attempts used up or not. */
  datatype Ending = Done | NotOnServer | Failure(exhausted: bool)

  /** `deleting` holds the paths whose rows a delete handler has removed from DOWN but not yet put
      into DETABLE; `orphans` the rows that were marked ING when the process was restarted. */
  datatype State = State(
    down: map<nat, Row>, nextId: nat, deleted: set<(int, Path)>,
    task: Option<Task>, deleting: multiset<Path>, orphans: set<nat>)

  datatype Event =
    | List(meta: Meta, found: Option<nat>)   // pcs_update_down_table
    | Pick(id: nat)                          // get_download_task
    | WriteBack(ending: Ending)              // set_download_task
    | StartOne(path: Path)
    | PauseOne(path: Path)
    | StartAll
    | PauseAll
    | DeleteRow(path: Path)                  // first half of pcs_web_api_update_deletedb
    | MarkDeleted(path: Path)                // its second half
    | Restart

  function KeyOf(r: Row): (int, Path) { (r.dir, r.path) }

  predicate Matches(down: map<nat, Row>, dir: int, path: Path, id: nat) {
    id in down && KeyOf(down[id]) == (dir, path)
  }

  predicate Pickable(r: Row) { r.status == Ing || r.status == Waiting }

  predicate Enabled(s: State, e: Event) {
    match e
    case List(meta, found) =>
      if found.Some? then Matches(s.down, meta.dir, meta.path, found.value)
      else forall id | id in s.down :: !Matches(s.down, meta.dir, meta.path, id)
    case Pick(id) =>
      s.task.None? && id in s.down &&
      (Pickable(s.down[id]) ||
       (s.down[id].status == Failed && forall j | j in s.down :: !Pickable(s.down[j])))
    case WriteBack(_) => s.task.Some?
    case MarkDeleted(path) => path in s.deleting
    case _ => true
  }

  /** UPDATE DOWN SET STATUS=`status` for the rows that satisfy `where`. */
  function SetStatus(down: map<nat, Row>, where: Row -> bool, status: Status): map<nat, Row> {
    map id | id in down :: if where(down[id]) then down[id].(status := status) else down[id]
  }

  /** The status a failed download leaves behind, from the row's status now and the record's copy. */
  function StatusAfterFailure(now: Status, copy: Status, exhausted: bool): Status {
    if now == Reload then Waiting
    else if now == Suspend then Suspend
    else if exhausted || copy == Failed then Failed
    else Waiting
  }

  function FailedDown(down: map<nat, Row>, t: Task, exhausted: bool): map<nat, Row> {
    if t.id !in down then down
    else if down[t.id].status == MyDelete then down - {t.id}
    else down[t.id := t.rec.(opt := down[t.id].opt,
                             status := StatusAfterFailure(down[t.id].status, t.rec.status, exhausted))]
  }

  function ListedDown(s: State, meta: Meta, found: Option<nat>): map<nat, Row>
    requires Enabled(s, List(meta, found))
  {
    match found
    case None => s.down[s.nextId := Row(meta.path, "", meta.size, meta.dir, meta.md5, CREATE, Waiting)]
    case Some(id) =>
      if meta.dir == 0 && s.down[id].md5 != meta.md5
      then s.down[id := s.down[id].(size := meta.size, md5 := meta.md5, opt := CREATE)]
      else s.down
  }

  function Apply(s: State, e: Event): State
    requires Enabled(s, e)
  {
    match e
    case List(meta, found) =>
      if (meta.dir, meta.path) in s.deleted then s
      else s.(down := ListedDown(s, meta, found), nextId := if found.None? then s.nextId + 1 else s.nextId)
    case Pick(id) =>
      s.(down := s.down[id := s.down[id].(status := Ing)], task := Some(Task(id, s.down[id])))
    case WriteBack(ending) =>
      var t := s.task.value;
      s.(down := if ending.Failure? then FailedDown(s.down, t, ending.exhausted) else s.down - {t.id},
         task := None)
    case StartOne(path) => s.(down := SetStatus(s.down, (r: Row) => KeyOf(r) == (0, path), Waiting))
    case PauseOne(path) => s.(down := SetStatus(s.down, (r: Row) => KeyOf(r) == (0, path), Suspend))
    case StartAll =>
      s.(down := SetStatus(s.down, (r: Row) => r.status == Suspend || r.status == Failed, Waiting))
    case PauseAll =>
      s.(down := SetStatus(s.down, (r: Row) => r.status == Waiting || r.status == Failed || r.status == Ing, Suspend))
    case DeleteRow(path) =>
      s.(down := map id | id in s.down && KeyOf(s.down[id]) != (0, path) :: s.down[id],
         deleting := s.deleting + multiset{path})
    case MarkDeleted(path) =>
      s.(deleted := s.deleted + {(0, path)}, deleting := s.deleting - multiset{path})
    case Restart =>
      s.(task := None, deleting := multiset{}, orphans := s.orphans + IngRows(s.down))
  }

  function IngRows(down: map<nat, Row>): set<nat> {
    set id | id in down && down[id].status == Ing
  }

  predicate Listed(down: map<nat, Row>, key: (int, Path)) {
    exists id | id in down :: KeyOf(down[id]) == key
  }

  function Execute(s: State, es: seq<Event>): Option<State>
    decreases |es|
  {
    if es == [] then Some(s)
    else if !Enabled(s, es[0]) then None
    else Execute(Apply(s, es[0]), es[1..])
  }

  // ---- Invariants --------------------------------------------------------------------

  /** DOWN never holds two rows for one (dir, path). */
  predicate Unique(down: map<nat, Row>) {
    forall i, j | i in down && j in down && KeyOf(down[i]) == KeyOf(down[j]) :: i == j
  }

  predicate FreshIds(s: State) {
    (forall id | id in s.down :: id < s.nextId) && (s.task.Some? ==> s.task.value.id < s.nextId)
  }

  /** The controller's copy still names the path of its row. */
  predicate TaskMatches(s: State) {
    s.task.Some? && s.task.value.id in s.down ==> KeyOf(s.task.value.rec) == KeyOf(s.down[s.task.value.id])
  }

  /** Every row marked ING is the controller's current task, or was left over by a restart. */
  predicate IngIsCurrent(s: State) {
    forall id | id in s.down && s.down[id].status == Ing ::
      (s.task.Some? && s.task.value.id == id) || id in s.orphans
  }

  predicate Inv(s: State) {
    Unique(s.down) && FreshIds(s) && TaskMatches(s) && IngIsCurrent(s)
  }

  /** Any tables the process may find, as long as no row is marked ING. */
  predicate InitialState(s: State) {
    && Unique(s.down) && (forall id | id in s.down :: id < s.nextId && s.down[id].status != Ing)
    && s.task.None? && s.deleting == multiset{} && s.orphans == {}
  }
}
