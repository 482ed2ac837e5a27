/** What every interleaving of the download scheduler keeps, and the two ways in which it does not keep
    what one would expect: a restart, and a listing in the middle of a delete. */
module TaskSafety {
  import opened Wrappers
  import opened TaskScheduler

  predicate ChangesOnlyStatus(e: Event) {
    e.StartOne? || e.PauseOne? || e.StartAll? || e.PauseAll?
  }

  lemma HandlerKeeps(s: State, e: Event)
    requires Inv(s) && Enabled(s, e) && ChangesOnlyStatus(e)
    ensures Inv(Apply(s, e))
  {
  }

  lemma ListKeeps(s: State, meta: Meta, found: Option<nat>)
    requires Inv(s) && Enabled(s, List(meta, found))
    ensures Inv(Apply(s, List(meta, found)))
  {
  }

  lemma ControllerKeeps(s: State, e: Event)
    requires Inv(s) && Enabled(s, e) && (e.Pick? || e.WriteBack?)
    ensures Inv(Apply(s, e))
  {
  }

  lemma StepKeeps(s: State, e: Event)
    requires Inv(s) && Enabled(s, e)
    ensures Inv(Apply(s, e))
  {
    if ChangesOnlyStatus(e) {
      HandlerKeeps(s, e);
    } else if e.List? {
      ListKeeps(s, e.meta, e.found);
    } else if e.Pick? || e.WriteBack? {
      ControllerKeeps(s, e);
    }
  }

  lemma {:induction false} RunKeeps(s: State, es: seq<Event>)
    requires Inv(s)
    ensures Execute(s, es).Some? ==> Inv(Execute(s, es).value)
    decreases |es|
  {
    if es != [] && Enabled(s, es[0]) {
      StepKeeps(s, es[0]);
      RunKeeps(Apply(s, es[0]), es[1..]);
    }
  }

  predicate NoRestart(es: seq<Event>) { Restart !in es }

  lemma {:induction false} OrphansOnlyByRestart(s: State, es: seq<Event>)
    requires NoRestart(es)
    ensures Execute(s, es).Some? ==> Execute(s, es).value.orphans == s.orphans
    decreases |es|
  {
    if es != [] && Enabled(s, es[0]) {
      OrphansOnlyByRestart(Apply(s, es[0]), es[1..]);
    }
  }

  /** In every interleaving without a restart, from any tables with no ING row: a row marked ING is
      the controller's current task, and no (dir, path) has two rows. */
  lemma TablesStayConsistent(s: State, es: seq<Event>)
    requires InitialState(s) && NoRestart(es)
    ensures var r := Execute(s, es);
            r.Some? ==>
              && Unique(r.value.down)
              && forall id | id in r.value.down && r.value.down[id].status == Ing ::
                   r.value.task.Some? && r.value.task.value.id == id
  {
    RunKeeps(s, es);
    OrphansOnlyByRestart(s, es);
  }

  // ---- Restarts ----------------------------------------------------------------------

  /** Every row marked ING is the controller's current task. */
  predicate OnlyCurrentIng(s: State) {
    forall id | id in s.down && s.down[id].status == Ing :: s.task.Some? && s.task.value.id == id
  }

  /** One step keeps that, exactly unless it is a restart while some row is ING. */
  lemma OnlyCurrentIngKeptIff(s: State, e: Event)
    requires OnlyCurrentIng(s) && Enabled(s, e)
    ensures OnlyCurrentIng(Apply(s, e)) <==> (e == Restart ==> IngRows(s.down) == {})
  {
    if e == Restart && IngRows(s.down) != {} {
      var id :| id in IngRows(s.down);
      assert id in Apply(s, e).down && Apply(s, e).down[id].status == Ing;
    } else if e == Restart {
      assert forall id | id in s.down :: id !in IngRows(s.down);
    }
  }

  predicate HoldsThroughout(s: State, es: seq<Event>)
    decreases |es|
  {
    OnlyCurrentIng(s) && (es == [] || (Enabled(s, es[0]) && HoldsThroughout(Apply(s, es[0]), es[1..])))
  }

  /** Each restart of the run finds no row ING. */
  predicate IdleRestarts(s: State, es: seq<Event>)
    decreases |es|
  {
    es == [] || (Enabled(s, es[0]) && (es[0] == Restart ==> IngRows(s.down) == {}) &&
                 IdleRestarts(Apply(s, es[0]), es[1..]))
  }

  /** Over whole runs: in every state on the way only the current task is ING, if and only if every
      restart happens while no row is ING. */
  lemma {:induction false} OnlyCurrentIngIff(s: State, es: seq<Event>)
    requires OnlyCurrentIng(s) && Execute(s, es).Some?
    ensures HoldsThroughout(s, es) <==> IdleRestarts(s, es)
    decreases |es|
  {
    if es != [] {
      OnlyCurrentIngKeptIff(s, es[0]);
      if OnlyCurrentIng(Apply(s, es[0])) {
        OnlyCurrentIngIff(Apply(s, es[0]), es[1..]);
      }
    }
  }

  /** The select that looks for the next row takes the first one it meets; this is the order of ids. */
  predicate PicksFirst(s: State, id: nat) {
    id in s.down && Pickable(s.down[id]) && forall k | k in s.down && k < id :: !Pickable(s.down[k])
  }

  lemma FourSteps(s: State, e1: Event, e2: Event, e3: Event, e4: Event)
    requires Enabled(s, e1) && Enabled(Apply(s, e1), e2) && Enabled(Apply(Apply(s, e1), e2), e3)
    requires Enabled(Apply(Apply(Apply(s, e1), e2), e3), e4)
    ensures Execute(s, [e1, e2, e3, e4]) == Some(Apply(Apply(Apply(Apply(s, e1), e2), e3), e4))
  {
    hide Enabled, Apply;
    var s1 := Apply(s, e1);
    var s2 := Apply(s1, e2);
    var s3 := Apply(s2, e3);
    assert [e4][1..] == [] && [e3, e4][1..] == [e4];
    assert [e2, e3, e4][1..] == [e3, e4] && [e1, e2, e3, e4][1..] == [e2, e3, e4];
    assert Execute(s3, [e4]) == Some(Apply(s3, e4));
    assert Execute(s2, [e3, e4]) == Execute(s3, [e4]);
    assert Execute(s1, [e2, e3, e4]) == Execute(s2, [e3, e4]);
  }

  /** A restart leaves an orphan even when both selects take rows in the order of their ids: the user
      starts a suspended earlier row while a later one is downloaded, and the process is restarted. */
  lemma RestartLeavesOrphan(s: State, i: nat, j: nat)
    requires InitialState(s) && PicksFirst(s, i)
    requires j < i && j in s.down && s.down[j].status == Suspend && s.down[j].dir == 0
    ensures var e := StartOne(s.down[j].path);
            var s1 := Apply(s, Pick(i));
            var s3 := Apply(Apply(s1, e), Restart);
            var r := Execute(s, [Pick(i), e, Restart, Pick(j)]);
            && PicksFirst(s3, j)
            && r.Some?
            && i in r.value.down && r.value.down[i].status == Ing && i in r.value.orphans
            && r.value.task.Some? && r.value.task.value.id == j
  {
    var e := StartOne(s.down[j].path);
    var s1 := Apply(s, Pick(i));
    var s2 := Apply(s1, e);
    assert KeyOf(s1.down[i]) != KeyOf(s1.down[j]);
    assert s2.down[i].status == Ing && s2.down[j].status == Waiting;
    FourSteps(s, Pick(i), e, Restart, Pick(j));
  }

  /** The steps after which an orphan is one no more: it is picked, or the user starts, pauses or
      deletes its path, or pauses everything. */
  predicate Settles(e: Event, id: nat, r: Row) {
    || e == Pick(id) || e.PauseAll?
    || (e.StartOne? && KeyOf(r) == (0, e.path)) || (e.PauseOne? && KeyOf(r) == (0, e.path))
    || (e.DeleteRow? && KeyOf(r) == (0, e.path))
  }

  predicate IsOrphan(s: State, id: nat) {
    id in s.down && s.down[id].status == Ing && (s.task.Some? ==> s.task.value.id != id)
  }

  lemma OrphanStaysIff(s: State, e: Event, id: nat)
    requires Inv(s) && Enabled(s, e) && IsOrphan(s, id)
    ensures IsOrphan(Apply(s, e), id) <==> !Settles(e, id, s.down[id])
  {
  }

  // ---- Suspended rows ----------------------------------------------------------------

  /** The events by which the user takes a suspension back. */
  predicate Restarts(e: Event, r: Row) {
    e.StartAll? || (e.StartOne? && KeyOf(r) == (0, e.path))
  }

  /** A suspended row stays suspended, as long as it exists, until the user starts it again; in
      particular through the write-back of a failed download. Starting it does resume it. */
  lemma SuspendSticks(s: State, e: Event, id: nat)
    requires Inv(s) && Enabled(s, e) && id in s.down && s.down[id].status == Suspend
    ensures id in Apply(s, e).down ==>
              (Apply(s, e).down[id].status == Suspend <==> !Restarts(e, s.down[id]))
    ensures e.WriteBack? && e.ending.Failure? ==> id in Apply(s, e).down
    ensures id in Apply(s, e).down ==> KeyOf(Apply(s, e).down[id]) == KeyOf(s.down[id])
  {
  }

  lemma {:induction false} SuspendSticksOverRuns(s: State, es: seq<Event>, id: nat)
    requires Inv(s) && id in s.down && s.down[id].status == Suspend
    requires forall e | e in es :: !Restarts(e, s.down[id])
    ensures var r := Execute(s, es);
            r.Some? && id in r.value.down ==> r.value.down[id].status == Suspend
    decreases |es|
  {
    if es != [] && Enabled(s, es[0]) {
      var s' := Apply(s, es[0]);
      StepKeeps(s, es[0]);
      SuspendSticks(s, es[0], id);
      if id in s'.down {
        forall e | e in es[1..]
          ensures !Restarts(e, s'.down[id])
        {
          assert e in es;
        }
        SuspendSticksOverRuns(s', es[1..], id);
      } else {
        GoneStaysGone(s', es[1..], id);
      }
    }
  }

  /** Row ids are never used twice. */
  lemma {:induction false} GoneStaysGone(s: State, es: seq<Event>, id: nat)
    requires Inv(s) && id !in s.down && id < s.nextId
    ensures var r := Execute(s, es); r.Some? ==> id !in r.value.down
    decreases |es|
  {
    if es != [] && Enabled(s, es[0]) {
      StepKeeps(s, es[0]);
      GoneStaysGone(Apply(s, es[0]), es[1..], id);
    }
  }

  // ---- Failed rows -------------------------------------------------------------------

  /** What a failed download leaves behind: its row is suspended if the user suspended it, failed if
      its attempts are used up or it was picked as failed, and waits again otherwise. */
  lemma FailureLeaves(s: State, exhausted: bool)
    requires Inv(s) && s.task.Some? && s.task.value.id in s.down && s.down[s.task.value.id].status != MyDelete
    ensures var id := s.task.value.id;
            var now, s' := s.down[id].status, Apply(s, WriteBack(Failure(exhausted)));
            && id in s'.down && s'.task.None?
            && (s'.down[id].status == Suspend <==> now == Suspend)
            && (s'.down[id].status == Failed <==>
                  now != Suspend && now != Reload && (exhausted || s.task.value.rec.status == Failed))
            && (s'.down[id].status == Waiting <==>
                  now == Reload || (now != Suspend && !exhausted && s.task.value.rec.status != Failed))
  {
  }

  /** A row that is not suspended and whose attempts are used up is picked again exactly when no row
      waits or is in progress. */
  lemma ExhaustedComesLast(s: State)
    requires Inv(s) && s.task.Some? && s.task.value.id in s.down
    requires var now := s.down[s.task.value.id].status; now != MyDelete && now != Suspend && now != Reload
    ensures var id, s' := s.task.value.id, Apply(s, WriteBack(Failure(true)));
            Enabled(s', Pick(id)) <==>
            forall k | k in s'.down :: s'.down[k].status != Waiting && s'.down[k].status != Ing
  {
    FailureLeaves(s, true);
  }

  /** A failed row is left only through the user, through its own pick, or with its row. */
  lemma FailedSticks(s: State, e: Event, id: nat)
    requires Inv(s) && Enabled(s, e) && id in s.down && s.down[id].status == Failed
    requires id in Apply(s, e).down && (s.task.Some? ==> s.task.value.id != id)
    ensures Apply(s, e).down[id].status != Failed <==>
              || e == Pick(id) || e.StartAll? || e.PauseAll?
              || (e.StartOne? && KeyOf(s.down[id]) == (0, e.path)) || (e.PauseOne? && KeyOf(s.down[id]) == (0, e.path))
  {
  }

  // ---- The user's commands -----------------------------------------------------------

  /** What each command does to each row; nothing else changes. */
  lemma CommandsAre(s: State, e: Event, id: nat)
    requires Enabled(s, e) && ChangesOnlyStatus(e) && id in s.down
    ensures var r, s' := s.down[id], Apply(s, e);
            && s'.down.Keys == s.down.Keys && s'.task == s.task && s'.deleted == s.deleted && s'.nextId == s.nextId
            && s'.down[id] == r.(status := s'.down[id].status)
            && s'.down[id].status ==
               if e.StartOne? && r.dir == 0 && r.path == e.path then Waiting
               else if e.PauseOne? && r.dir == 0 && r.path == e.path then Suspend
               else if e.StartAll? && r.status in {Suspend, Failed} then Waiting
               else if e.PauseAll? && r.status in {Waiting, Failed, Ing} then Suspend
               else r.status
  {
  }

  // ---- Deleted paths -----------------------------------------------------------------

  /** Once a path is in DETABLE it stays there, and no event inserts a row for it. */
  lemma DeletedNeverInserted(s: State, e: Event, key: (int, Path))
    requires Inv(s) && Enabled(s, e) && key in s.deleted
    ensures key in Apply(s, e).deleted
    ensures Listed(Apply(s, e).down, key) ==> Listed(s.down, key)
  {
    var s' := Apply(s, e);
    if Listed(s'.down, key) {
      var id :| id in s'.down && KeyOf(s'.down[id]) == key;
      assert id in s.down && KeyOf(s.down[id]) == key;
    }
  }

  lemma {:induction false} DeletedStaysAway(s: State, es: seq<Event>, key: (int, Path))
    requires Inv(s) && key in s.deleted && !Listed(s.down, key)
    ensures var r := Execute(s, es); r.Some? ==> !Listed(r.value.down, key)
    decreases |es|
  {
    if es != [] && Enabled(s, es[0]) {
      StepKeeps(s, es[0]);
      DeletedNeverInserted(s, es[0], key);
      DeletedStaysAway(Apply(s, es[0]), es[1..], key);
    }
  }

  /** A listing of the server that inserts or updates a row for the path. */
  predicate Relists(s: State, e: Event, path: Path) {
    e.List? && e.meta.dir == 0 && e.meta.path == path && (0, path) !in s.deleted
  }

  /** A step that takes the row of the path away: the user's delete, or the write-back of a download
      that completed, is gone from the server, or was marked MYDELETE. */
  predicate Removes(s: State, e: Event, path: Path) {
    || e == DeleteRow(path)
    || (e.WriteBack? && s.task.Some? && s.task.value.id in s.down &&
        var r := s.down[s.task.value.id];
        KeyOf(r) == (0, path) && (!e.ending.Failure? || r.status == MyDelete))
  }

  lemma ListedOnlyIf(s: State, e: Event, path: Path)
    requires Inv(s) && Enabled(s, e) && Listed(Apply(s, e).down, (0, path))
    ensures Relists(s, e, path) || (Listed(s.down, (0, path)) && !Removes(s, e, path))
  {
    var s', key := Apply(s, e), (0, path);
    var id :| id in s'.down && KeyOf(s'.down[id]) == key;
    assert id in s.down ==> KeyOf(s.down[id]) == key;
  }

  lemma ListedIf(s: State, e: Event, path: Path)
    requires Inv(s) && Enabled(s, e)
    requires Relists(s, e, path) || (Listed(s.down, (0, path)) && !Removes(s, e, path))
    ensures Listed(Apply(s, e).down, (0, path))
  {
    var s', key := Apply(s, e), (0, path);
    var id;
    if Relists(s, e, path) {
      id := if e.found.Some? then e.found.value else s.nextId;
    } else {
      id :| id in s.down && KeyOf(s.down[id]) == key;
    }
    assert id in s'.down && KeyOf(s'.down[id]) == key;
  }

  /** After a step the path is in DOWN if and only if the step listed it, or it was there and the
      step did not remove it. */
  lemma ListedAfterIff(s: State, e: Event, path: Path)
    requires Inv(s) && Enabled(s, e)
    ensures Listed(Apply(s, e).down, (0, path)) <==>
            Relists(s, e, path) || (Listed(s.down, (0, path)) && !Removes(s, e, path))
  {
    hide *;
    if Listed(Apply(s, e).down, (0, path)) {
      ListedOnlyIf(s, e, path);
    }
    if Relists(s, e, path) || (Listed(s.down, (0, path)) && !Removes(s, e, path)) {
      ListedIf(s, e, path);
    }
  }

  predicate NeverRemoved(s: State, es: seq<Event>, path: Path)
    decreases |es|
  {
    es == [] || (Enabled(s, es[0]) && !Removes(s, es[0], path) && NeverRemoved(Apply(s, es[0]), es[1..], path))
  }

  /** Some step of the run lists the path again. */
  predicate EverRelisted(s: State, es: seq<Event>, path: Path)
    decreases |es|
  {
    es != [] && Enabled(s, es[0]) && (Relists(s, es[0], path) || EverRelisted(Apply(s, es[0]), es[1..], path))
  }

  /** Some step of the run lists the path again and nothing after it removes the row. */
  predicate RelistedForGood(s: State, es: seq<Event>, path: Path)
    decreases |es|
  {
    es != [] && Enabled(s, es[0]) &&
    var s' := Apply(s, es[0]);
    (Relists(s, es[0], path) && NeverRemoved(s', es[1..], path)) || RelistedForGood(s', es[1..], path)
  }

  lemma {:induction false} ListedAtEndIff(s: State, es: seq<Event>, path: Path)
    requires Inv(s) && Execute(s, es).Some?
    ensures Listed(Execute(s, es).value.down, (0, path)) <==>
            (Listed(s.down, (0, path)) && NeverRemoved(s, es, path)) || RelistedForGood(s, es, path)
    ensures RelistedForGood(s, es, path) ==> EverRelisted(s, es, path)
    decreases |es|
  {
    if es != [] {
      hide Listed, Relists, Removes, Inv, Enabled, Apply;
      StepKeeps(s, es[0]);
      ListedAfterIff(s, es[0], path);
      RelistedIsKept(s, es[0], path);
      ListedAtEndIff(Apply(s, es[0]), es[1..], path);
    }
  }

  lemma RelistedIsKept(s: State, e: Event, path: Path)
    ensures Relists(s, e, path) ==> !Removes(s, e, path)
  {
  }

  /** The states between the two critical sections of a delete. */
  predicate BetweenHalves(s: State, es: seq<Event>, path: Path) {
    var r := Execute(Apply(s, DeleteRow(path)), es);
    Inv(s) && r.Some? && Enabled(r.value, MarkDeleted(path))
  }

  /** The tables once a delete handler has run, with the steps `es` between its critical sections. */
  function Deleted(s: State, es: seq<Event>, path: Path): State
    requires BetweenHalves(s, es, path)
  {
    Apply(Execute(Apply(s, DeleteRow(path)), es).value, MarkDeleted(path))
  }

  /** When a delete handler is through, its path is in DETABLE, and it is still in DOWN if and only if
      a listing put it back between the two critical sections and nothing removed it again. */
  lemma MarkedIsGoneIff(s: State, es: seq<Event>, path: Path)
    requires BetweenHalves(s, es, path)
    ensures (0, path) in Deleted(s, es, path).deleted
    ensures Listed(Deleted(s, es, path).down, (0, path)) <==>
            RelistedForGood(Apply(s, DeleteRow(path)), es, path)
    ensures Listed(Deleted(s, es, path).down, (0, path)) ==>
            EverRelisted(Apply(s, DeleteRow(path)), es, path)
  {
    var s1 := Apply(s, DeleteRow(path));
    StepKeeps(s, DeleteRow(path));
    ListedAfterIff(s, DeleteRow(path), path);
    ListedAtEndIff(s1, es, path);
    MarkingLeavesDown(Execute(s1, es).value, path);
  }

  lemma MarkingLeavesDown(s: State, path: Path)
    requires Enabled(s, MarkDeleted(path))
    ensures Apply(s, MarkDeleted(path)).down == s.down && (0, path) in Apply(s, MarkDeleted(path)).deleted
  {
  }

  lemma {:induction false} NothingRemoves(s: State, es: seq<Event>, path: Path)
    requires Execute(s, es).Some? && forall e | e in es :: !e.WriteBack? && e != DeleteRow(path)
    ensures NeverRemoved(s, es, path) && (RelistedForGood(s, es, path) <==> EverRelisted(s, es, path))
    decreases |es|
  {
    if es != [] {
      assert es[0] in es && forall e | e in es[1..] :: e in es;
      NothingRemoves(Apply(s, es[0]), es[1..], path);
    }
  }

  /** With no write-back and no second delete in between, any such listing is enough. */
  lemma MarkedIsGoneIffNotListed(s: State, es: seq<Event>, path: Path)
    requires BetweenHalves(s, es, path) && forall e | e in es :: !e.WriteBack? && e != DeleteRow(path)
    ensures Listed(Deleted(s, es, path).down, (0, path)) <==>
            EverRelisted(Apply(s, DeleteRow(path)), es, path)
  {
    MarkedIsGoneIff(s, es, path);
    NothingRemoves(Apply(s, DeleteRow(path)), es, path);
  }

  /** A delete that no listing disturbs is final: the path is out of DOWN in every later state. */
  lemma UndisturbedDeleteIsFinal(s: State, es: seq<Event>, path: Path, later: seq<Event>)
    requires BetweenHalves(s, es, path) && !EverRelisted(Apply(s, DeleteRow(path)), es, path)
    ensures var r := Execute(Deleted(s, es, path), later); r.Some? ==> !Listed(r.value.down, (0, path))
  {
    var s1 := Apply(s, DeleteRow(path));
    MarkedIsGoneIff(s, es, path);
    StepKeeps(s, DeleteRow(path));
    RunKeeps(s1, es);
    StepKeeps(Execute(s1, es).value, MarkDeleted(path));
    DeletedStaysAway(Deleted(s, es, path), later, (0, path));
  }

  /** And a listing in between does put it back, from every state in which the path is not in DETABLE. */
  lemma ListingBetweenHalvesReinserts(s: State, meta: Meta)
    requires Inv(s) && meta.dir == 0 && (0, meta.path) !in s.deleted
    ensures var s1 := Apply(s, DeleteRow(meta.path));
            && !Listed(s1.down, (0, meta.path))
            && Enabled(s1, List(meta, None))
            && var s2 := Apply(s1, List(meta, None));
               Enabled(s2, MarkDeleted(meta.path)) &&
               var s3 := Apply(s2, MarkDeleted(meta.path));
               (0, meta.path) in s3.deleted && Listed(s3.down, (0, meta.path))
  {
    var s1 := Apply(s, DeleteRow(meta.path));
    var s2 := Apply(s1, List(meta, None));
    assert s1.nextId in s2.down && KeyOf(s2.down[s1.nextId]) == (0, meta.path);
    assert Apply(s2, MarkDeleted(meta.path)).down == s2.down;
  }

  // ---- How rows leave ----------------------------------------------------------------

  /** A row leaves DOWN exactly by the write-back of its own download (completed, gone from the
      server, or marked MYDELETE) or by the user deleting its path. */
  lemma RowLeavesOnlyIff(s: State, e: Event, id: nat)
    requires Inv(s) && Enabled(s, e) && id in s.down
    ensures id !in Apply(s, e).down <==>
              || (e.WriteBack? && s.task.value.id == id && (!e.ending.Failure? || s.down[id].status == MyDelete))
              || (e.DeleteRow? && KeyOf(s.down[id]) == (0, e.path))
  {
  }
}
