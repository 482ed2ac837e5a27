/** The coverage invariant of the segmented download: the first table and trailer meet it, and every
    step of controller and workers keeps it, a save under its guard. */
module DownloadInvariant {
  import opened Wrappers
  import opened DownloadTable
  import opened DownloadProtocol

  // ---- Cutting a file ----------------------------------------------------------------

  /** The segments are non-empty, consecutive, start at 0 and end at the last byte. */
  lemma InitPartition(size: nat)
    requires size > 0
    ensures var ts := InitTable(size); var n := ThreadCount(size);
            && n == (if size < 10485760 then 1 else 4)
            && (forall i | 0 <= i < MAX_TASKS :: Active(ts[i]) <==> i < n)
            && (forall i | 0 <= i < n :: ts[i].seg.sp <= ts[i].seg.ep && ts[i].seg.ds == 0 &&
                                         ts[i].downSize == Length(ts[i].seg))
            && ts[0].seg.sp == 0 && ts[n - 1].seg.ep == size - 1
            && (forall i | 0 < i < n :: ts[i].seg.sp == ts[i - 1].seg.ep + 1)
            && (forall i | 0 <= i < n - 1 :: Length(ts[i].seg) == size / n)
            && (forall i | 0 <= i < n :: ts[i].seg.threadNum == i + 1 && ts[i].cond == Stop && ts[i].statusRun == 0)
            && Ordered(ts)
  {
    var n, per := ThreadCount(size), size / ThreadCount(size);
    if n == MAX_TASKS {
      assert per >= 1 && 4 * per <= size;
      var ts := InitTable(size);
      assert ts[0].seg.sp == 0 && ts[1].seg.sp == per && ts[2].seg.sp == 2 * per && ts[3].seg.sp == 3 * per;
    }
  }

  lemma SlotOf(size: nat, o: nat) returns (i: nat)
    requires o < size
    ensures i < ThreadCount(size) && InitTask(size, i).seg.sp <= o <= InitTask(size, i).seg.ep
  {
    InitPartition(size);
    var ts := InitTable(size);
    i := 0;
    while ts[i].seg.ep < o
      invariant i < ThreadCount(size) && ts[i].seg.sp <= o
      decreases MAX_TASKS - i
    {
      i := i + 1;
    }
  }

  // ---- Facts about bytes -------------------------------------------------------------

  /** Writing delivered bytes never spoils a byte that was right. */
  lemma WriteKeeps(c: Config, data: seq<byte>, pos: nat, k: nat)
    requires |data| == |c.remote| && pos + k <= |data|
    ensures var d := WriteAt(Tmp(data, NoTrailer), pos, Delivered(c, pos, k)).data;
            && |d| == |data|
            && (forall o | 0 <= o < |data| :: data[o] == c.remote[o] ==> d[o] == c.remote[o])
            && Good(c, d, pos, pos + k)
  {
  }

  // ---- Steps of the controller -------------------------------------------------------

  /** A fresh table covers the whole file, and so does the trailer written from it. */
  lemma InitCovers(size: nat, o: nat)
    requires o < size
    ensures TableCovers(SetStart(InitTable(size)), o)
    ensures SegsCover(Collect(InitTable(size), Active), o)
  {
    var i := SlotOf(size, o);
    var ts := InitTable(size);
    assert Needed(SetStart(ts)[i]) && Covers(SetStart(ts)[i].seg, o);
    var k := CollectComplete(ts, Active, i);
    assert Covers(Collect(ts, Active)[k], o);
  }

  lemma InitTrailer(c: Config, data: seq<byte>)
    requires c.remote != [] && |data| == |c.remote|
    ensures TrailerGood(c, data, Collect(InitTable(|c.remote|), Active))
  {
    InitPartition(|c.remote|);
    SaveShape(c, data, InitTable(|c.remote|), Active);
    forall o | 0 <= o < |data|
      ensures SegsCover(Collect(InitTable(|c.remote|), Active), o)
    {
      InitCovers(|c.remote|, o);
    }
  }

  lemma InitKeeps(c: Config, s: State, written: bool)
    requires c.remote != [] && Inv(c, s) && Enabled(c, s, Init(written))
    ensures Inv(c, Apply(c, s, Init(written)))
  {
    var size, s' := |c.remote|, Apply(c, s, Init(written));
    if s.file.Tmp? && written {
      InitTrailer(c, s.file.data);
      InitShapes(c, s);
      forall o | 0 <= o < size
        ensures TableCovers(s'.tasks, o)
      {
        InitCovers(size, o);
      }
    }
  }

  lemma InitShapes(c: Config, s: State)
    requires c.remote != [] && Inv(c, s) && Enabled(c, s, Init(true)) && s.file.Tmp?
    ensures Shapes(c, Apply(c, s, Init(true)))
  {
    InitPartition(|c.remote|);
    var ts, s' := InitTable(|c.remote|), Apply(c, s, Init(true));
    forall i | 0 <= i < MAX_TASKS
      ensures s'.tasks[i] == Started(ts[i]) && TaskShape(|c.remote|, s'.tasks[i])
    {
      if i < ThreadCount(|c.remote|) { assert Active(ts[i]); }
    }
  }

  /** Collected segments keep their order, their shape and their good prefixes. */
  lemma SaveShape(c: Config, data: seq<byte>, ts: Table, keep: Task -> bool)
    requires |data| == |c.remote| && Ordered(ts)
    requires forall i | 0 <= i < MAX_TASKS :: keep(ts[i]) ==>
               Active(ts[i]) && SegShape(|c.remote|, ts[i].seg) && SegGood(c, data, ts[i].seg)
    ensures var segs := Collect(ts, keep);
            && |segs| <= MAX_TASKS && OrderedSegs(segs)
            && forall k | 0 <= k < |segs| :: SegShape(|c.remote|, segs[k]) && SegGood(c, data, segs[k])
  {
    var segs := Collect(ts, keep);
    CollectOrdered(ts, keep);
    forall k | 0 <= k < |segs|
      ensures SegShape(|c.remote|, segs[k]) && SegGood(c, data, segs[k])
    {
      var i := CollectSound(ts, keep, k);
    }
  }

  lemma {:induction false} CollectOrdered(ts: seq<Task>, keep: Task -> bool)
    requires Ordered(ts) && forall i | 0 <= i < |ts| :: keep(ts[i]) ==> Active(ts[i])
    ensures OrderedSegs(Collect(ts, keep))
  {
    if ts != [] {
      var n := |ts| - 1;
      CollectOrdered(ts[..n], keep);
      var before := Collect(ts[..n], keep);
      forall k | 0 <= k < |before| && keep(ts[n])
        ensures before[k].ep < ts[n].seg.sp
      {
        var i := CollectSound(ts[..n], keep, k);
      }
    }
  }

  lemma ReloadShapes(c: Config, s: State)
    requires Inv(c, s) && Enabled(c, s, Reload)
    ensures Shapes(c, Apply(c, s, Reload))
  {
    var segs, s' := s.file.trailer.segs, Apply(c, s, Reload);
    if Acceptable(segs, |c.remote|, c.wide) {
      forall i | 0 <= i < MAX_TASKS
        ensures s'.tasks[i] == Started(LoadTask(segs, i)) && TaskShape(|c.remote|, s'.tasks[i])
      {
      }
    }
  }

  lemma ReloadCovers(c: Config, data: seq<byte>, segs: seq<Segment>)
    requires |data| == |c.remote| && TrailerGood(c, data, segs)
    ensures LiveCover(c, data, SetStart(LoadTable(segs)))
  {
    var ts := SetStart(LoadTable(segs));
    forall o | 0 <= o < |data| && data[o] != c.remote[o]
      ensures TableCovers(ts, o)
    {
      var k :| 0 <= k < |segs| && Covers(segs[k], o);
      assert Needed(ts[k]) && Covers(ts[k].seg, o);
    }
  }

  lemma ReloadKeeps(c: Config, s: State)
    requires Inv(c, s) && Enabled(c, s, Reload)
    ensures Inv(c, Apply(c, s, Reload))
  {
    ReloadShapes(c, s);
    ReloadCovers(c, s.file.data, s.file.trailer.segs);
  }

  /** A guarded save keeps every missing byte inside a saved segment. */
  lemma SaveKeepsCover(c: Config, data: seq<byte>, ts: Table, keep: Task -> bool)
    requires |data| == |c.remote| && LiveCover(c, data, ts) && DropsNothing(ts)
    requires forall i | 0 <= i < MAX_TASKS :: TaskShape(|c.remote|, ts[i]) && TaskGood(c, data, ts[i])
    requires keep == KeptOnUpdate || keep == KeptOnInterrupt
    ensures SavedCover(c, data, Collect(ts, keep))
  {
    forall o | 0 <= o < |data| && data[o] != c.remote[o]
      ensures SegsCover(Collect(ts, keep), o)
    {
      var i :| 0 <= i < MAX_TASKS && Needed(ts[i]) && Covers(ts[i].seg, o);
      var k := CollectComplete(ts, keep, i);
      assert Covers(Collect(ts, keep)[k], o);
    }
  }

  lemma SaveKeeps(c: Config, s: State, e: Event)
    requires Inv(c, s) && Enabled(c, s, e) && CarefulStep(s, e)
    requires e == Save || e == Commit(true)
    ensures Inv(c, Apply(c, s, e))
  {
    if s.file.Tmp? {
      var keep := if e == Save then KeptOnUpdate else KeptOnInterrupt;
      SaveShape(c, s.file.data, s.tasks, keep);
      SaveKeepsCover(c, s.file.data, s.tasks, keep);
    }
  }

  /** The flags and wake-ups of the controller change neither segments nor result codes. */
  lemma FlagsKeepCover(c: Config, data: seq<byte>, ts: Table, ts': Table)
    requires LiveCover(c, data, ts)
    requires forall i | 0 <= i < MAX_TASKS ::
               ts'[i].seg == ts[i].seg && ts'[i].cond == ts[i].cond && ts'[i].reCode == ts[i].reCode
    ensures LiveCover(c, data, ts')
  {
    forall o | 0 <= o < |data| && o < |c.remote| && data[o] != c.remote[o]
      ensures TableCovers(ts', o)
    {
      var i :| 0 <= i < MAX_TASKS && Needed(ts[i]) && Covers(ts[i].seg, o);
      assert Needed(ts'[i]) && Covers(ts'[i].seg, o);
    }
  }

  /** When every used slot has succeeded no byte is left to download. */
  lemma AllDoneIsRemote(c: Config, data: seq<byte>, ts: Table)
    requires |data| == |c.remote| && LiveCover(c, data, ts) && AllDone(ts)
    ensures data == c.remote
  {
    forall o | 0 <= o < |c.remote|
      ensures data[o] == c.remote[o]
    {
      assert !TableCovers(ts, o);
    }
  }

  /** Raising the interrupt flags keeps the invariant. */
  lemma RaisingKeeps(c: Config, s: State, drop: bool)
    requires Inv(c, s) && s.control == Polling
    ensures Inv(c, s.(tasks := SetFlags(s.tasks), control := Interrupting(drop)))
  {
    if s.file.Tmp? {
      FlagsKeepCover(c, s.file.data, s.tasks, SetFlags(s.tasks));
    }
  }

  lemma CompletionKeeps(c: Config, s: State)
    requires Inv(c, s) && s.control == Polling && s.file.Tmp? && AllDone(s.tasks)
    ensures Inv(c, s.(result := Some(s.file.data), file := NoFile, control := Resting))
  {
    AllDoneIsRemote(c, s.file.data, s.tasks);
  }

  lemma CheckFinishKeeps(c: Config, s: State)
    requires Inv(c, s) && Enabled(c, s, CheckFinish)
    ensures Inv(c, Apply(c, s, CheckFinish))
  {
    hide Inv;
    if AllDone(s.tasks) {
      if s.file.Tmp? {
        CompletionKeeps(c, s);
      }
    } else if GoneFirst(s.tasks) {
      RaisingKeeps(c, s, true);
    }
  }

  lemma InterruptKeeps(c: Config, s: State)
    requires Inv(c, s) && Enabled(c, s, Interrupt)
    ensures Inv(c, Apply(c, s, Interrupt))
  {
    hide Inv;
    RaisingKeeps(c, s, false);
  }

  /** No reachable table holds a waiting slot, so waking changes nothing. */
  lemma NothingToWake(c: Config, ts: Table)
    requires forall i | 0 <= i < MAX_TASKS :: TaskShape(|c.remote|, ts[i])
    ensures Woken(ts) == ts
  {
    forall i | 0 <= i < MAX_TASKS
      ensures Woken(ts)[i] == ts[i]
    {
      assert TaskShape(|c.remote|, ts[i]);
    }
  }

  lemma CheckConditionKeeps(c: Config, s: State)
    requires Inv(c, s) && Enabled(c, s, CheckCondition)
    ensures Inv(c, Apply(c, s, CheckCondition))
  {
    NothingToWake(c, s.tasks);
    hide Inv;
    if FirstError(s.tasks) < MAX_TASKS {
      RaisingKeeps(c, s, false);
    }
  }

  lemma QuietKeeps(c: Config, s: State, e: Event)
    requires Inv(c, s) && Enabled(c, s, e)
    requires e.Create? || e == Commit(false) || e.Drop? || e.RemoveTmp? || e.Crash?
    ensures Inv(c, Apply(c, s, e))
  {
  }

  // ---- Steps of the workers ----------------------------------------------------------

  lemma BeginKeeps(c: Config, s: State, i: nat)
    requires Inv(c, s) && Enabled(c, s, Begin(i))
    ensures Inv(c, Apply(c, s, Begin(i)))
  {
  }

  /** Changing one slot keeps coverage when the slot still covers what it covered or that part is good. */
  lemma SlotKeepsCover(c: Config, data: seq<byte>, ts: Table, i: nat, t: Task)
    requires i < MAX_TASKS && |data| == |c.remote| && LiveCover(c, data, ts)
    requires forall o | 0 <= o < |data| && Needed(ts[i]) && Covers(ts[i].seg, o) ::
               data[o] == c.remote[o] || (Needed(t) && Covers(t.seg, o))
    ensures LiveCover(c, data, ts[i := t])
  {
    var ts' := ts[i := t];
    forall o | 0 <= o < |data| && data[o] != c.remote[o]
      ensures TableCovers(ts', o)
    {
      var j :| 0 <= j < MAX_TASKS && Needed(ts[j]) && Covers(ts[j].seg, o);
      assert Needed(ts'[j]) && Covers(ts'[j].seg, o);
    }
  }

  lemma BeginFailsKeeps(c: Config, s: State, i: nat)
    requires Inv(c, s) && Enabled(c, s, BeginFails(i))
    ensures Inv(c, Apply(c, s, BeginFails(i)))
  {
    if s.file.Tmp? && (s.control == Polling || s.control.Interrupting?) {
      SlotKeepsCover(c, s.file.data, s.tasks, i, Stopped(s.tasks[i], Err));
    }
  }

  lemma ReportKeeps(c: Config, s: State, i: nat, dlnow: nat)
    requires Inv(c, s) && Enabled(c, s, Report(i, dlnow))
    ensures Inv(c, Apply(c, s, Report(i, dlnow)))
  {
    var s' := Apply(c, s, Report(i, dlnow));
    var t, w := s.tasks[i], s.workers[i];
    assert w.start + dlnow <= w.pos;
    assert s'.tasks[i].seg.sp + Max0(s'.tasks[i].seg.ds) <= w.pos;
    if s.file.Tmp? && (s.control == Polling || s.control.Interrupting?) {
      SlotKeepsCover(c, s.file.data, s.tasks, i, s'.tasks[i]);
    }
  }

  lemma FinishKeeps(c: Config, s: State, i: nat, outcome: Outcome)
    requires Inv(c, s) && Enabled(c, s, Finish(i, outcome))
    ensures Inv(c, Apply(c, s, Finish(i, outcome)))
  {
    var s' := Apply(c, s, Finish(i, outcome));
    if s.file.Tmp? && (s.control == Polling || s.control.Interrupting?) {
      SlotKeepsCover(c, s.file.data, s.tasks, i, s'.tasks[i]);
    }
  }

  /** A delivered write stays below the file size, so it never reaches the trailer. */
  lemma WriteStaysInData(c: Config, s: State, i: nat, k: nat)
    requires Inv(c, s) && Enabled(c, s, Write(i, k)) && s.file.Tmp?
    ensures s.workers[i].pos + k <= |c.remote|
    ensures Apply(c, s, Write(i, k)).file.trailer == s.file.trailer
  {
  }

  lemma WriteKeepsFile(c: Config, s: State, i: nat, k: nat)
    requires Inv(c, s) && Enabled(c, s, Write(i, k))
    ensures Inv(c, Apply(c, s, Write(i, k)))
  {
    if s.file.Tmp? {
      WriteStaysInData(c, s, i, k);
      WriteKeeps(c, s.file.data, s.workers[i].pos, k);
      var s' := Apply(c, s, Write(i, k));
      assert s'.file.data == WriteAt(Tmp(s.file.data, NoTrailer), s.workers[i].pos, Delivered(c, s.workers[i].pos, k)).data;
    }
  }

  // ---- Every step --------------------------------------------------------------------

  lemma StepKeeps(c: Config, s: State, e: Event)
    requires c.remote != [] && Inv(c, s) && Enabled(c, s, e) && CarefulStep(s, e)
    ensures Inv(c, Apply(c, s, e))
  {
    match e
    case Init(written) => InitKeeps(c, s, written);
    case Reload => ReloadKeeps(c, s);
    case Save => SaveKeeps(c, s, e);
    case Commit(written) => if written { SaveKeeps(c, s, e); } else { QuietKeeps(c, s, e); }
    case CheckCondition => CheckConditionKeeps(c, s);
    case CheckFinish => CheckFinishKeeps(c, s);
    case Interrupt => InterruptKeeps(c, s);
    case Create => QuietKeeps(c, s, e);
    case Drop => QuietKeeps(c, s, e);
    case RemoveTmp => QuietKeeps(c, s, e);
    case Crash => QuietKeeps(c, s, e);
    case Begin(i) => BeginKeeps(c, s, i);
    case BeginFails(i) => BeginFailsKeeps(c, s, i);
    case Write(i, k) => WriteKeepsFile(c, s, i, k);
    case Report(i, dlnow) => ReportKeeps(c, s, i, dlnow);
    case Finish(i, outcome) => FinishKeeps(c, s, i, outcome);
  }
}
