/** The controller and worker routines of web_api.c in their imperative form: the global task
    table is an array updated in place, and each routine performs one event of the protocol.  */
module DownloadController {
  import opened Wrappers
  import opened DownloadTable
  import opened DownloadProtocol
  import opened DownloadInvariant
  import opened DownloadLoss
  import opened DownloadStop

  datatype Verdict = Completed | Busy | Gone

  /** What making the temporary file comes to: it cannot be opened, or not be given its size. */
  datatype Creation = Made | NotOpened | NotSized

  /** How a download starts: there is nothing to do, the workers run, or it fails. */
  datatype StartEnd = Already | Running | NotStarted

  /** The temporary file carries a trailer (pcs_multi_down_checkhdr). */
  predicate Resumable(f: TmpFile) { f.Tmp? && f.trailer.Saved? }

  class MultiDownload {
    const config: Config
    const mTask: array<Task>
    var file: TmpFile
    var result: Option<seq<byte>>
    var now: int               // downprogress.now
    var target: Option<seq<byte>>   // the file at the local path
    var aside: Option<seq<byte>>    // the file at the local path with a time stamp
    ghost var workers: Workers
    ghost var control: Control // where pcs_multi_download_file stands

    ghost predicate Valid()
      reads this
    {
      mTask.Length == MAX_TASKS
    }

    /** The protocol state this object represents. */
    ghost function State(): State
      reads this, mTask
      requires Valid()
    {
      DownloadProtocol.State(file, mTask[..], workers, control, result)
    }

    constructor (config: Config, target: Option<seq<byte>>)
      ensures Valid() && fresh(mTask) && this.config == config && this.target == target
      ensures State() == InitialState()
    {
      this.config := config;
      mTask := new Task[MAX_TASKS](i => FREE);
      file, result, now := NoFile, None, 0;
      this.target, aside := target, None;
      workers, control := NoWorkers(), Resting;
      new;
      assert mTask[..] == FreeTable();
    }

    method ClearTasks()
      requires Valid()
      modifies mTask
      ensures mTask[..] == FreeTable()
    {
      for current := 0 to MAX_TASKS
        modifies mTask
        invariant forall j | 0 <= j < current :: mTask[j] == FREE
      {
        mTask[current] := FREE;
      }
      assert mTask[..] == FreeTable();
    }

    /** The first half of pcs_multi_initinfo: the segments of a fresh table. */
    method CutFile()
      requires Valid() && config.remote != []
      modifies mTask
      ensures mTask[..] == InitTable(|config.remote|)
    {
      var size := |config.remote|;
      ClearTasks();
      var threadnum := ThreadCount(size);
      var persize := size / threadnum;
      var offset := 0;
      ghost var table := InitTable(size);
      for current := 0 to threadnum
        modifies mTask
        invariant offset == current * persize
        invariant forall j | 0 <= j < MAX_TASKS :: mTask[j] == if j < current then table[j] else FREE
      {
        var ep := if current + 1 == threadnum then size - 1 else offset + persize - 1;
        mTask[current] := Task(Stop, 0, NoCode, ep - offset + 1, Segment(current + 1, offset, ep, 0));
        offset := offset + persize;
      }
      assert mTask[..] == table;
    }

    /** pcs_multi_down_initinfo, followed by pcs_multi_down_setstart: cut the file into segments,
        write the first trailer and start the workers. A trailer that cannot be written costs the file. */
    method InitInfo(written: bool) returns (ok: bool)
      requires Valid() && control == Preparing && Enabled(config, State(), Init(written))
      requires config.remote != []
      modifies mTask, this`file, this`control
      ensures ok <==> old(file).Tmp? && written
      ensures State() == Apply(config, old(State()), Init(written))
    {
      CutFile();
      var seginfo: seq<Segment> := [];
      ok := file.Tmp?;
      if !ok {
        ClearTasks();
        control := Resting;
        return;
      }
      for current := 0 to MAX_TASKS
        modifies {}
        invariant seginfo == Collect(mTask[..current], Active)
      {
        assert mTask[..current + 1][..current] == mTask[..current];
        if mTask[current].seg.threadNum != 0 {
          seginfo := seginfo + [mTask[current].seg];
        }
      }
      assert mTask[..MAX_TASKS] == mTask[..];
      if !written {
        ClearTasks();
        file := NoFile;
        control := Resting;
        return false;
      }
      file := SetTrailer(file, seginfo);
      SetStart();
    }

    method SetStart()
      requires Valid()
      modifies mTask, this`control
      ensures mTask[..] == DownloadTable.SetStart(old(mTask[..])) && control == Polling
      ensures forall i | 0 <= i < MAX_TASKS ::
                mTask[i] == if old(mTask[i]).seg.threadNum == 0 then old(mTask[i]) else old(mTask[i]).(cond := Run)
    {
      for current := 0 to MAX_TASKS
        modifies mTask
        invariant forall j | 0 <= j < MAX_TASKS ::
                    mTask[j] == if j < current then Started(old(mTask[j])) else old(mTask[j])
      {
        if mTask[current].seg.threadNum != 0 {
          mTask[current] := mTask[current].(cond := Run);
        }
      }
      control := Polling;
      assert mTask[..] == DownloadTable.SetStart(old(mTask[..]));
    }

    /** pcs_multi_initinfo_from_file, followed by pcs_multi_down_setstart when it succeeds. */
    method InitInfoFromFile() returns (ok: bool)
      requires Valid() && Enabled(config, State(), Reload)
      modifies mTask, this`file, this`control
      ensures ok <==> forall k | 0 <= k < |old(file).trailer.segs| ::
                        var g := old(file).trailer.segs[k];
                        g.threadNum <= 4 && g.ds <= |config.remote| && (g.ds < 0 ==> !config.wide)
      ensures ok ==> forall i | 0 <= i < MAX_TASKS ::
                if i < |old(file).trailer.segs| then
                  var g := old(file).trailer.segs[i];
                  mTask[i].seg == g.(ds := if g.ds < 0 then 0 else g.ds) && mTask[i].downSize == g.ep - g.sp + 1 &&
                  (g.threadNum != 0 ==> mTask[i].cond == Run)
                else mTask[i].seg.threadNum == 0
      ensures !ok ==> file == NoFile && forall i | 0 <= i < MAX_TASKS :: mTask[i].seg.threadNum == 0
      ensures State() == Apply(config, old(State()), Reload)
    {
      var seginfo, size := file.trailer.segs, |config.remote|;
      ClearTasks();
      for current := 0 to |seginfo|
        modifies mTask, this`file
        invariant file == old(file)
        invariant Acceptable(seginfo[..current], size, config.wide)
        invariant forall j | 0 <= j < MAX_TASKS ::
                    mTask[j] == if j < current then LoadTask(seginfo, j) else FREE
      {
        if seginfo[current].threadNum > MAX_TASKS || DsExceeds(seginfo[current].ds, size, config.wide) {
          assert !Acceptable(seginfo, size, config.wide);
          ClearTasks();
          file := NoFile;
          return false;
        }
        var g := seginfo[current];
        if g.ds < 0 {
          g := g.(ds := 0);
        }
        if current < MAX_TASKS {
          mTask[current] := Task(Stop, 0, NoCode, g.ep - g.sp + 1, g);
        }
      }
      assert seginfo[..|seginfo|] == seginfo;
      assert mTask[..] == LoadTable(seginfo);
      SetStart();
      ok := true;
    }

    /** The start of pcs_multi_download_file: nothing to do for an empty file or when the local path
        exists, whatever it holds; else resume when the file carries a trailer, else create it. */
    method Start(creation: Creation, written: bool) returns (end: StartEnd)
      requires Valid() && control == Resting && result.None? && Quiescent(State())
      modifies mTask, this`file, this`control
      ensures end == Already <==> config.remote == [] || target.Some?
      ensures end == Already ==> State() == old(State())
      ensures end != Already && Resumable(old(file)) ==>
                State() == Apply(config, old(State()), Reload) && (end == Running <==> control == Polling)
      ensures end != Already && !Resumable(old(file)) ==>
                var es := match creation
                          case NotOpened => []
                          case NotSized => [RemoveTmp]
                          case Made => [Create, Init(written)];
                Execute(config, old(State()), es) == Some(State()) && (end == Running <==> creation.Made? && written)
    {
      if config.remote == [] || target.Some? {
        return Already;
      }
      var ok;
      if Resumable(file) {
        ok := InitInfoFromFile();
        return if ok then Running else NotStarted;
      }
      ghost var s0 := State();
      if creation == NotOpened {
        return NotStarted;
      } else if creation == NotSized {
        file := NoFile;
        assert [RemoveTmp][1..] == [];
        return NotStarted;
      }
      file := Tmp(if file.Tmp? then Resize(file.data, |config.remote|) else Zeros(|config.remote|), NoTrailer);
      control := Preparing;
      ghost var s1 := State();
      assert Enabled(config, s0, Create) && s1 == Apply(config, s0, Create);
      ok := InitInfo(written);
      assert Execute(config, s1, [Init(written)]) == Some(State());
      assert [Create, Init(written)][1..] == [Init(written)];
      end := if ok then Running else NotStarted;
    }

    /** The first half of pcs_multi_down_set_interupte: ask every worker to stop. */
    method RaiseInterrupt(drop: bool)
      requires Valid()
      modifies mTask, this`control
      ensures mTask[..] == SetFlags(old(mTask[..])) && control == Interrupting(drop)
      ensures forall i | 0 <= i < MAX_TASKS ::
                mTask[i] == if old(mTask[i]).seg.threadNum == 0 then old(mTask[i]) else old(mTask[i]).(statusRun := 1)
    {
      for current := 0 to MAX_TASKS
        modifies mTask
        invariant forall j | 0 <= j < MAX_TASKS ::
                    mTask[j] == if j < current then Flagged(old(mTask[j])) else old(mTask[j])
      {
        if mTask[current].seg.threadNum != 0 {
          mTask[current] := mTask[current].(statusRun := 1);
        }
      }
      control := Interrupting(drop);
      assert mTask[..] == SetFlags(old(mTask[..]));
    }

    /** Its second half: save every segment whose worker has not stopped with a final code. */
    method WriteInterruptInfo(written: bool)
      requires Valid() && control.Interrupting?
      modifies this`file, this`control
      ensures State() == Apply(config, old(State()), Commit(written))
    {
      var seginfo, segnum := new Segment[MAX_TASKS](i => FREE.seg), 0;
      for current := 0 to MAX_TASKS
        modifies seginfo
        invariant segnum <= current && seginfo[..segnum] == Collect(mTask[..current], KeptOnInterrupt)
      {
        assert mTask[..current + 1][..current] == mTask[..current];
        var t := mTask[current];
        if t.seg.threadNum == 0 { continue; }
        if t.cond == Stop && (t.reCode == Ok || t.reCode == NotFound) { continue; }
        seginfo[segnum] := t.seg;
        segnum := segnum + 1;
      }
      assert mTask[..MAX_TASKS] == mTask[..];
      if written {
        file := SetTrailer(file, seginfo[..segnum]);
      }
      control := if control.drop then Dropping else Resting;
    }

    /** pcs_multi_down_update_mdinfo: the periodic save leaves out segments that are already complete. */
    method UpdateMdinfo()
      requires Valid() && control == Polling
      modifies this`file
      ensures State() == Apply(config, old(State()), Save)
      ensures file.Tmp? <==> old(file).Tmp?
      ensures file.Tmp? ==> file.data == old(file).data
    {
      var seginfo, segnum := new Segment[MAX_TASKS](i => FREE.seg), 0;
      for current := 0 to MAX_TASKS
        modifies seginfo
        invariant segnum <= current && seginfo[..segnum] == Collect(mTask[..current], KeptOnUpdate)
      {
        assert mTask[..current + 1][..current] == mTask[..current];
        var t := mTask[current];
        if t.seg.threadNum == 0 { continue; }
        if t.cond == Stop && (t.reCode == Ok || t.reCode == NotFound) {
          continue;
        } else if t.seg.ds >= t.downSize {
          continue;
        }
        seginfo[segnum] := t.seg;
        segnum := segnum + 1;
      }
      assert mTask[..MAX_TASKS] == mTask[..];
      if segnum != 0 {
        file := SetTrailer(file, seginfo[..segnum]);
      }
    }

    /** pcs_multi_down_chk_condition: stop everything when a worker stopped with an error. */
    method ChkCondition() returns (ok: bool)
      requires Valid() && control == Polling
      modifies mTask, this`control
      ensures ok <==> forall i | 0 <= i < MAX_TASKS ::
                        var t := old(mTask[i]); t.seg.threadNum != 0 && t.cond == Stop ==> t.reCode != Err
      ensures !ok ==> AllTold(mTask[..])
      ensures mTask[..] == Woken(old(mTask[..])) || !ok
      ensures ok <==> FirstError(old(mTask[..])) == MAX_TASKS
      ensures control == if ok then Polling else Interrupting(false)
      ensures ok ==> forall i | 0 <= i < MAX_TASKS ::
                var t := old(mTask[i]);
                mTask[i] == if t.seg.threadNum != 0 && t.cond == Wait then t.(statusRun := 0, cond := Run) else t
      ensures State() == Apply(config, old(State()), CheckCondition)
    {
      ghost var ts: Table := mTask[..];
      ghost var e := FirstError(ts);
      for current := 0 to MAX_TASKS
        modifies mTask, this`control
        invariant control == Polling && current <= e
        invariant forall j | 0 <= j < MAX_TASKS :: mTask[j] == if j < current then Resumed(ts[j]) else ts[j]
      {
        assert mTask[current] == ts[current];
        var t := mTask[current];
        if t.seg.threadNum == 0 { continue; }
        if t.cond == Stop && t.reCode == Err {
          assert e == current;
          assert mTask[..] == Woken(ts);
          RaiseInterrupt(false);
          return false;
        }
        if t.cond == Wait {
          mTask[current] := t.(statusRun := 0, cond := Run);
        }
      }
      assert mTask[..] == Woken(ts);
      ok := true;
    }

    /** pcs_multi_down_update_progress. */
    method UpdateProgress()
      requires Valid()
      modifies this`now
      ensures now == LiveProgress(|config.remote|, mTask[..])
      ensures var lacks := (t: Task) => if t.seg.threadNum == 0 then 0 else t.downSize - t.seg.ds;
              now == |config.remote| - (lacks(mTask[0]) + lacks(mTask[1]) + lacks(mTask[2]) + lacks(mTask[3]))
    {
      var downsize: int := |config.remote|;
      for current := 0 to MAX_TASKS
        modifies {}
        invariant downsize == |config.remote| - Missing(mTask[..current])
      {
        assert mTask[..current + 1][..current] == mTask[..current];
        if mTask[current].seg.threadNum != 0 {
          downsize := downsize - (mTask[current].downSize - mTask[current].seg.ds);
        }
      }
      assert mTask[..MAX_TASKS] == mTask[..];
      MissingSlots(mTask[..]);
      now := downsize;
    }

    /** pcs_multi_down_chk_finish: truncate and rename when every worker succeeded. The finished file
        goes to the local path when that is free; else it goes beside it, and what was there stays. */
    method ChkFinish() returns (verdict: Verdict)
      requires Valid() && control == Polling
      modifies mTask, this`file, this`result, this`control, this`target, this`aside
      ensures verdict == Completed && old(target).None? ==> target == result && aside == old(aside)
      ensures verdict == Completed && old(target).Some? ==> target == old(target) && aside == result
      ensures verdict != Completed ==> target == old(target) && aside == old(aside)
      ensures verdict == Completed && old(Inv(config, State())) ==> result == Some(config.remote)
      ensures verdict == Completed <==>
                old(file).Tmp? && forall i | 0 <= i < MAX_TASKS ::
                  old(mTask[i]).seg.threadNum != 0 ==> old(mTask[i]).cond == Stop && old(mTask[i]).reCode == Ok
      ensures verdict == Gone ==> AllTold(mTask[..])
      ensures verdict == Completed <==> old(file).Tmp? && AllDone(old(mTask[..]))
      ensures verdict == Gone <==> GoneFirst(old(mTask[..]))
      ensures verdict == Gone <==>
                exists i | 0 <= i < MAX_TASKS ::
                  old(mTask[i]).seg.threadNum != 0 && old(mTask[i]).cond == Stop && old(mTask[i]).reCode == NotFound &&
                  forall j | 0 <= j < i :: old(mTask[j]).seg.threadNum != 0 ==> old(mTask[j]).cond == Stop
      ensures control == if verdict == Gone then Interrupting(true) else if verdict == Completed then Resting else Polling
      ensures State() == Apply(config, old(State()), CheckFinish)
    {
      var flag := 0;
      ghost var ts: Table := mTask[..];
      for current := 0 to MAX_TASKS
        modifies mTask, this`control
        invariant forall j | 0 <= j < current :: Active(ts[j]) ==> ts[j].cond == Stop && ts[j].reCode != NotFound
        invariant 0 <= flag <= current
        invariant flag == current <==> forall j | 0 <= j < current :: Active(ts[j]) ==> ts[j].reCode == Ok
      {
        assert mTask[current] == ts[current];
        var t := mTask[current];
        if t.seg.threadNum == 0 {
          flag := flag + 1;
          continue;
        }
        if t.cond == Run || t.cond == Wait {
          assert !GoneFirst(ts) && !AllDone(ts);
          return Busy;
        }
        if t.reCode == NotFound {
          assert StoppedNotFound(ts[current]) && !AllDone(ts);
          RaiseInterrupt(true);
          return Gone;
        } else if t.reCode == Ok {
          flag := flag + 1;
        }
      }
      assert !GoneFirst(ts);
      if flag != MAX_TASKS || file.NoFile? {
        return Busy;
      }
      CompletionMeans(config, State());
      result := Some(file.data);   // truncated to the file size
      if target.Some? {
        aside := result;           // renamed away, so that the rename to the local path fails
      } else {
        target := result;
      }
      file := NoFile;
      control := Resting;
      verdict := Completed;
    }

    /** trans_callback_multi_down: returns whether the transfer must stop. */
    method TransCallback(current: nat, dltotal: int, dlnow: nat) returns (stop: bool)
      requires Valid() && current < MAX_TASKS
      modifies mTask
      ensures stop <==> old(mTask[current]).statusRun == 1 || old(mTask[current]).statusRun == 2
      ensures stop || dltotal == 0 ==> mTask[..] == old(mTask[..])
      ensures !stop && dltotal != 0 ==>
                var t := old(mTask[current]);
                mTask[..] == old(mTask[..])[current := t.(seg := t.seg.(ds := t.downSize - dltotal + dlnow))]
      ensures old(Enabled(config, State(), Report(current, dlnow))) && dltotal == workers[current].total ==>
                State() == Apply(config, old(State()), Report(current, dlnow))
    {
      var task := mTask[current];
      if task.statusRun == 1 || task.statusRun == 2 {
        return true;
      }
      if dltotal == 0 {
        return false;
      }
      mTask[current] := task.(seg := task.seg.(ds := task.downSize - (dltotal - dlnow)));
      stop := false;
    }

    /** The end of a round of thread_down_task whose transfer began at offset `start`. */
    method WorkerExit(current: nat, start: int, outcome: Outcome)
      requires Valid() && Enabled(config, State(), Finish(current, outcome))
      requires start == workers[current].start
      modifies mTask, this`workers
      ensures State() == Apply(config, old(State()), Finish(current, outcome))
      ensures mTask[current].cond == Stop && mTask[current].seg == old(mTask[current]).seg
      ensures forall i | 0 <= i < MAX_TASKS && i != current :: mTask[i] == old(mTask[i])
    {
      var ret := ToInt32(start);   // what lseek returned
      if outcome == Absent {
        ret := -2;
      } else if outcome == Failed {
        ret := -1;
      }
      var task := mTask[current].(cond := Stop);
      if ret == -1 {
        task := task.(reCode := Err);
      } else if ret == -2 {
        task := task.(reCode := NotFound);
      } else {
        task := task.(reCode := Ok);
      }
      mTask[current] := task;
      workers := workers[current := Idle];
    }

    /** The start of a round of thread_down_task; `ready` says that directory, session and file could be had. */
    method WorkerBegin(current: nat, ready: bool) returns (ok: bool)
      requires Valid() && current < MAX_TASKS && Startable(State(), current)
      modifies mTask, this`workers
      ensures ok <==> ready && file.Tmp? && ToInt32(old(mTask[current]).seg.sp + old(mTask[current]).seg.ds) != -1
      ensures State() == Apply(config, old(State()), if ok then Begin(current) else BeginFails(current))
    {
      var task := mTask[current];
      var start := task.seg.sp + task.seg.ds;
      var ret := ToInt32(start);
      if !ready || file.NoFile? || ret == -1 {
        mTask[current] := task.(cond := Stop, reCode := Err);
        return false;
      }
      workers := workers[current := Transfer(start, Requested(task.seg, |config.remote|), start)];
      ok := true;
    }

    /** pcs_web_api_getdownfile_size: everything when the local file has the right size, else what the
        trailer says, or 0 without one. */
    method GetDownFileSize() returns (n: int)
      ensures n == if target.Some? && |target.value| == |config.remote| then |config.remote|
                   else if file.Tmp? && file.trailer.Saved? then SavedProgress(|config.remote|, file.trailer.segs) else 0
    {
      if target.Some? && |target.value| == |config.remote| {
        return |config.remote|;
      }
      if file.NoFile? || file.trailer.NoTrailer? {
        return 0;
      }
      var seginfo := file.trailer.segs;
      n := |config.remote|;
      for current := 0 to |seginfo|
        invariant n == SavedProgress(|config.remote|, seginfo[..current])
      {
        assert seginfo[..current + 1][..current] == seginfo[..current];
        n := n - (seginfo[current].ep - seginfo[current].sp + 1 - seginfo[current].ds);
      }
      assert seginfo[..|seginfo|] == seginfo;
    }

    /** What remains of pcs_multi_down_set_interupte once the flags are raised. */
    method Commits(written: bool, ghost s0: DownloadProtocol.State, ghost es: seq<Event>) returns (ghost es': seq<Event>)
      requires Valid() && control.Interrupting? && Execute(config, s0, es) == Some(State())
      modifies this`file, this`control
      ensures es' == es + [Commit(written)] && Execute(config, s0, es') == Some(State())
      ensures control == if old(control).drop then Dropping else Resting
    {
      Extend(config, s0, es, State(), Commit(written));
      es' := es + [Commit(written)];
      hide Execute, Apply;
      WriteInterruptInfo(written);
    }

    /** The temporary file of a file that is gone from the server. */
    method Drops(ghost s0: DownloadProtocol.State, ghost es: seq<Event>) returns (ghost es': seq<Event>)
      requires Valid() && control.Dropping? && Execute(config, s0, es) == Some(State())
      modifies this`file, this`control
      ensures es' == es + [Drop] && Execute(config, s0, es') == Some(State()) && control == Resting && file == NoFile
    {
      Extend(config, s0, es, State(), Drop);
      es' := es + [Drop];
      file := NoFile;
      control := Resting;
    }

    method Stops(written: bool) returns (ghost es: seq<Event>)
      requires Valid() && control == Polling
      modifies this`file, this`control, mTask
      ensures es == [Interrupt, Commit(written)] && Execute(config, old(State()), es) == Some(State()) && control == Resting
      ensures AllTold(mTask[..])
    {
      ghost var s0 := State();
      Extend(config, s0, [], s0, Interrupt);
      RaiseInterrupt(false);
      assert [] + [Interrupt] == [Interrupt];
      es := Commits(written, s0, [Interrupt]);
    }

    /** The progress display or the periodic save, whichever is due. */
    method Periodic(second: nat, ghost s0: DownloadProtocol.State, ghost es: seq<Event>) returns (ghost es': seq<Event>)
      requires Valid() && control == Polling && Execute(config, s0, es) == Some(State())
      modifies this`file, this`now
      ensures es' == es + DueSave(second) && Execute(config, s0, es') == Some(State())
      ensures file.Tmp? <==> old(file).Tmp?
    {
      es' := es;
      hide Execute, Apply;
      if second % 2 == 0 {
        UpdateProgress();
      } else if (second + 1) % 20 == 0 {
        Extend(config, s0, es, State(), Save);
        es' := es + [Save];
        UpdateMdinfo();
      }
      assert es + [] == es;
    }

    /** The end of a round that nothing stopped. */
    method Concludes(written: bool, ghost s0: DownloadProtocol.State, ghost es: seq<Event>)
      returns (end: RoundEnd, ghost es': seq<Event>)
      requires Valid() && control == Polling && Execute(config, s0, es) == Some(State())
      modifies this`file, this`result, this`control, this`target, this`aside, mTask
      ensures Execute(config, s0, es') == Some(State())
      ensures es' == es + [CheckFinish] + if end == Vanished then [Commit(written)] + [Drop] else []
      ensures end == Vanished || end == Finished || end == GoesOn
      ensures control == if end == GoesOn then Polling else Resting
      ensures target == if end == Finished && old(target).None? then result else old(target)
      ensures aside == if end == Finished && old(target).Some? then result else old(aside)
      ensures end == Finished <==> old(file).Tmp? && AllDone(old(mTask[..]))
      ensures end == Vanished <==> GoneFirst(old(mTask[..]))
      ensures end == Vanished ==> file == NoFile
      ensures end == Vanished ==> AllTold(mTask[..])
    {
      Extend(config, s0, es, State(), CheckFinish);
      hide Execute, Apply, Inv, AllDone, GoneFirst;
      es' := es + [CheckFinish];
      var verdict := ChkFinish();
      match verdict
      case Gone =>
        es' := Commits(written, s0, es');
        es' := Drops(s0, es');
        end := Vanished;
      case Completed => end := Finished;
      case Busy => end := GoesOn;
    }

    /** A round that was not asked to stop: look for failed workers, do what is due, look for completion. */
    method Continues(second: nat, written: bool) returns (end: RoundEnd, ghost es: seq<Event>)
      requires Valid() && control == Polling
      modifies this`file, this`result, this`control, this`now, this`target, this`aside, mTask
      ensures Execute(config, old(State()), es) == Some(State()) && es == Round(end, second, written) && end != Stopped
      ensures end == Aborted <==> FirstError(old(mTask[..])) < MAX_TASKS
      ensures end == Vanished <==> FirstError(old(mTask[..])) == MAX_TASKS && GoneFirst(old(mTask[..]))
      ensures end == Finished <==> old(file).Tmp? && AllDone(old(mTask[..]))
      ensures end == Vanished ==> file == NoFile
      ensures end == Vanished || end == Aborted ==> AllTold(mTask[..])
      ensures target == if end == Finished && old(target).None? then result else old(target)
      ensures aside == if end == Finished && old(target).Some? then result else old(aside)
      ensures control == if end == GoesOn then Polling else Resting
    {
      ghost var s0 := State();
      Extend(config, s0, [], s0, CheckCondition);
      hide *;
      es := [CheckCondition];
      assert [] + es == es;
      WakingDecidesNothing(mTask[..]);
      var ok := ChkCondition();
      RoundIs(Aborted, second, written);
      if !ok {
        es := Commits(written, s0, es);
        return Aborted, es;
      }
      es := Periodic(second, s0, es);
      end, es := Concludes(written, s0, es);
      RoundIs(end, second, written);
    }

    /** One round of the loop in pcs_multi_download_file: `interrupted` tells whether it was asked to
        stop, `written` whether a save after an interrupt succeeds. With nothing in between, a round
        is the run `es` of the protocol. */
    method Poll(second: nat, interrupted: bool, written: bool) returns (end: RoundEnd, ghost es: seq<Event>)
      requires Valid() && control == Polling
      modifies this`file, this`result, this`control, this`now, this`target, this`aside, mTask
      ensures Execute(config, old(State()), es) == Some(State()) && es == Round(end, second, written)
      ensures interrupted <==> end == Stopped
      ensures end == Aborted <==> !interrupted && FirstError(old(mTask[..])) < MAX_TASKS
      ensures end == Vanished <==> !interrupted && FirstError(old(mTask[..])) == MAX_TASKS && GoneFirst(old(mTask[..]))
      ensures end == Finished <==> !interrupted && old(file).Tmp? && AllDone(old(mTask[..]))
      ensures end == Vanished ==> file == NoFile
      ensures end == Vanished || end == Aborted || end == Stopped ==> AllTold(mTask[..])
      ensures Save in es <==> end != Stopped && end != Aborted && second % 20 == 19
      ensures target == if end == Finished && old(target).None? then result else old(target)
      ensures aside == if end == Finished && old(target).Some? then result else old(aside)
      ensures control == if end == GoesOn then Polling else Resting
    {
      if interrupted {
        es := Stops(written);
        end := Stopped;
      } else {
        end, es := Continues(second, written);
      }
      RoundSaves(end, second, written);
    }
  }

  /** How a round ends: the file is complete, gone from the server, a worker failed, the round was
      asked to stop, or there is another round. */
  datatype RoundEnd = Finished | Vanished | Aborted | Stopped | GoesOn

  function DueSave(second: nat): seq<Event> {
    if second % 2 != 0 && (second + 1) % 20 == 0 then [Save] else []
  }

  /** The controller events of a round, in order. */
  function Round(end: RoundEnd, second: nat, written: bool): seq<Event> {
    match end
    case Stopped => [Interrupt, Commit(written)]
    case Aborted => [CheckCondition] + [Commit(written)]
    case Vanished => [CheckCondition] + DueSave(second) + [CheckFinish] + [Commit(written)] + [Drop]
    case _ => [CheckCondition] + DueSave(second) + [CheckFinish]
  }

  lemma WakingDecidesNothing(ts: Table)
    ensures AllDone(Woken(ts)) <==> AllDone(ts)
    ensures GoneFirst(Woken(ts)) <==> GoneFirst(ts)
    ensures AllDone(ts) ==> FirstError(ts) == MAX_TASKS && !GoneFirst(ts)
  {
    var ts' := Woken(ts);
    assert forall i | 0 <= i < MAX_TASKS ::
      ts'[i].seg == ts[i].seg && ts'[i].reCode == ts[i].reCode && (ts'[i].cond == Stop <==> ts[i].cond == Stop);
    hide Woken, FirstError;
    SameCodes(ts, ts');
    SameCodes(ts', ts);
    assert AllDone(ts) ==> forall i | 0 <= i < MAX_TASKS :: !StoppedWithError(ts[i]);
  }

  lemma SameCodes(ts: Table, ts': Table)
    requires forall i | 0 <= i < MAX_TASKS ::
               ts'[i].seg == ts[i].seg && ts'[i].reCode == ts[i].reCode && (ts'[i].cond == Stop <==> ts[i].cond == Stop)
    ensures AllDone(ts) ==> AllDone(ts')
    ensures GoneFirst(ts) ==> GoneFirst(ts')
  {
    if GoneFirst(ts) {
      var i :| 0 <= i < MAX_TASKS && StoppedNotFound(ts[i]) && forall j | 0 <= j < i :: Active(ts[j]) ==> ts[j].cond == Stop;
      assert StoppedNotFound(ts'[i]);
    }
  }

  lemma RoundIs(end: RoundEnd, second: nat, written: bool)
    requires end != Stopped
    ensures Round(end, second, written) ==
            if end == Aborted then [CheckCondition] + [Commit(written)]
            else [CheckCondition] + DueSave(second) + [CheckFinish] + if end == Vanished then [Commit(written)] + [Drop] else []
  {
  }

  lemma RoundSaves(end: RoundEnd, second: nat, written: bool)
    ensures Save in Round(end, second, written) <==> end != Stopped && end != Aborted && second % 20 == 19
  {
  }

  /** What the invariant says when every worker has succeeded. */
  lemma CompletionMeans(c: Config, s: DownloadProtocol.State)
    requires s.file.Tmp? && s.control == Polling && AllDone(s.tasks)
    ensures Inv(c, s) ==> s.file.data == c.remote
  {
    if Inv(c, s) {
      AllDoneIsRemote(c, s.file.data, s.tasks);
    }
  }

  lemma Extend(c: Config, s0: DownloadProtocol.State, es: seq<Event>, s: DownloadProtocol.State, e: Event)
    requires Execute(c, s0, es) == Some(s) && Enabled(c, s, e)
    ensures Execute(c, s0, es + [e]) == Some(Apply(c, s, e))
  {
    ExecuteAppend(c, s0, es, [e]);
    assert [e][1..] == [];
  }
}
