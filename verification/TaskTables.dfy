/** The routines of web_api.c that read and update the task tables, in their imperative form.
    Each runs inside one critical section of m_down and performs one event of the scheduler. */
module TaskTables {
  import opened Wrappers
  import opened TaskScheduler
  import opened TaskSafety

  class Tables {
    var down: map<nat, Row>
    var nextId: nat
    var deleted: set<(int, Path)>
    var task: Option<Task>            // the record the controller works on
    ghost var deleting: multiset<Path>
    ghost var orphans: set<nat>

    ghost function State(): State
      reads this
    {
      TaskScheduler.State(down, nextId, deleted, task, deleting, orphans)
    }

    constructor (down: map<nat, Row>, nextId: nat, deleted: set<(int, Path)>)
      ensures State() == TaskScheduler.State(down, nextId, deleted, None, multiset{}, {})
    {
      this.down, this.nextId, this.deleted, task := down, nextId, deleted, None;
      deleting, orphans := multiset{}, {};
    }

    /** SELECT * FROM DOWN WHERE `where` LIMIT 1. */
    method Select(where: Row -> bool) returns (found: Option<nat>)
      ensures found.Some? ==> found.value in down && where(down[found.value])
      ensures found.None? ==> forall id | id in down :: !where(down[id])
    {
      var ids := down.Keys;
      while ids != {}
        invariant ids <= down.Keys
        invariant forall id | id in down :: id in ids || !where(down[id])
        decreases |ids|
      {
        var id :| id in ids;
        if where(down[id]) {
          return Some(id);
        }
        ids := ids - {id};
      }
      found := None;
    }

    /** get_download_task: a row in progress or waiting, else one that failed. */
    method GetDownloadTask() returns (picked: Option<nat>)
      requires task.None?
      modifies this
      ensures picked.Some? ==> old(Enabled(State(), Pick(picked.value))) &&
                               State() == Apply(old(State()), Pick(picked.value))
      ensures picked.Some? ==>
                var id, was := picked.value, old(down);
                && id in was && down == was[id := was[id].(status := Ing)] && task == Some(Task(id, was[id]))
                && (was[id].status == Ing || was[id].status == Waiting ||
                    (was[id].status == Failed && forall k | k in was :: was[k].status != Ing && was[k].status != Waiting))
      ensures picked.None? ==>
                forall k | k in down :: down[k].status != Ing && down[k].status != Waiting && down[k].status != Failed
      ensures picked.None? ==> State() == old(State()) &&
                               forall id :: !Enabled(State(), Pick(id))
    {
      picked := Select((r: Row) => r.status == Ing || r.status == Waiting);
      if picked.None? {
        picked := Select((r: Row) => r.status == Failed);
        if picked.None? {
          return;
        }
      }
      var record := down[picked.value];
      down := down[picked.value := record.(status := Ing)];
      task := Some(Task(picked.value, record));
    }

    /** set_download_task: write the end of the current download back. */
    method SetDownloadTask(ending: Ending)
      requires task.Some?
      modifies this
      ensures State() == Apply(old(State()), WriteBack(ending))
      ensures task == None && nextId == old(nextId) && deleted == old(deleted)
      ensures forall k | k != old(task).value.id ::
                (k in down <==> k in old(down)) && (k in down ==> down[k] == old(down)[k])
      ensures var id := old(task).value.id;
              id in down <==> id in old(down) && ending.Failure? && old(down)[id].status != MyDelete
      ensures var id, rec := old(task).value.id, old(task).value.rec;
              id in down ==>
                var now := old(down)[id].status;
                && down[id] == rec.(opt := old(down)[id].opt, status := down[id].status)
                && (down[id].status == Suspend <==> now == Suspend)
                && (down[id].status == Failed <==>
                      now != Suspend && now != Reload && (ending.exhausted || rec.status == Failed))
                && (down[id].status == Suspend || down[id].status == Failed || down[id].status == Waiting)
    {
      var record := task.value.rec;
      var id := task.value.id;
      task := None;
      if ending == Failure(true) {
        record := record.(status := Failed);
      }
      if !ending.Failure? {
        down := down - {id};
        return;
      }
      if id !in down {
        return;   // the row is gone: the update matches nothing
      }
      var qrecord := down[id];
      if qrecord.status == MyDelete {
        down := down - {id};
        return;
      }
      var status;
      if qrecord.status == Reload {
        status := Waiting;
      } else if qrecord.status == Suspend {
        status := Suspend;
      } else if record.status == Failed {
        status := Failed;
      } else {
        status := Waiting;
      }
      down := down[id := record.(opt := qrecord.opt, status := status)];
    }

    /** pcs_update_down_table: record what the server lists, unless the user deleted it. */
    method UpdateDownTable(meta: Meta) returns (ghost found: Option<nat>)
      modifies this
      ensures old(Enabled(State(), List(meta, found)))
      ensures State() == Apply(old(State()), List(meta, found))
      ensures (meta.dir, meta.path) in old(deleted) ==> State() == old(State())
      ensures (meta.dir, meta.path) !in old(deleted) && found.None? ==>
                down == old(down)[old(nextId) := Row(meta.path, "", meta.size, meta.dir, meta.md5, 10, Waiting)] &&
                nextId == old(nextId) + 1
      ensures (meta.dir, meta.path) !in old(deleted) && found.Some? ==>
                var was := old(down)[found.value];
                nextId == old(nextId) &&
                down == if meta.dir == 0 && was.md5 != meta.md5
                        then old(down)[found.value := was.(size := meta.size, md5 := meta.md5, opt := 10)] else old(down)
    {
      var q := Select((r: Row) => KeyOf(r) == (meta.dir, meta.path));
      found := q;
      if (meta.dir, meta.path) in deleted {
        return;
      }
      if q.None? {
        down := down[nextId := Row(meta.path, "", meta.size, meta.dir, meta.md5, CREATE, Waiting)];
        nextId := nextId + 1;
      } else if meta.dir == 0 && down[q.value].md5 != meta.md5 {
        down := down[q.value := down[q.value].(size := meta.size, md5 := meta.md5, opt := CREATE)];
      }
    }

    /** The first critical section of pcs_web_api_update_deletedb. */
    method DeletePath(path: Path)
      modifies this
      ensures !Listed(down, (0, path))
      ensures forall id :: id in down <==> id in old(down) && KeyOf(old(down)[id]) != (0, path)
      ensures forall id | id in down :: down[id] == old(down)[id]
      ensures deleted == old(deleted) && task == old(task) && nextId == old(nextId)
      ensures State() == Apply(old(State()), DeleteRow(path))
    {
      down := map id | id in down && KeyOf(down[id]) != (0, path) :: down[id];
      deleting := deleting + multiset{path};
    }

    /** The second critical section of pcs_web_api_update_deletedb. */
    method RememberDeleted(path: Path)
      requires path in deleting
      modifies this
      ensures State() == Apply(old(State()), MarkDeleted(path))
      ensures deleted == old(deleted) + {(0, path)} && down == old(down) && task == old(task)
    {
      if (0, path) !in deleted {
        deleted := deleted + {(0, path)};
      }
      deleting := deleting - multiset{path};
    }

    /** pcs_web_api_update_deletedb with nothing in between: no later step lists the path again. */
    method UpdateDeletedb(path: Path)
      requires Inv(State())
      modifies this
      ensures !Listed(down, (0, path)) && (0, path) in deleted
      ensures forall es: seq<Event> ::
                var r := Execute(State(), es); r.Some? ==> !Listed(r.value.down, (0, path))
    {
      StepKeeps(State(), DeleteRow(path));
      DeletePath(path);
      StepKeeps(State(), MarkDeleted(path));
      RememberDeleted(path);
      forall es: seq<Event>
        ensures var r := Execute(State(), es); r.Some? ==> !Listed(r.value.down, (0, path))
      {
        DeletedStaysAway(State(), es, (0, path));
      }
    }
  }
}
