/** Runs of the download protocol that show how it fails, and that it fails in no other case: for which
    remote files an unguarded run can report different bytes, and how a negative ds gets into a trailer. */
module DownloadRuns {
  import opened Wrappers
  import opened DownloadTable
  import opened DownloadProtocol
  import opened DownloadInvariant
  import opened DownloadSafety
  import opened DownloadLoss

  // ---- A run that loses every segment ------------------------------------------------

  /** No first offset is truncated to -1, so that every worker can begin. */
  predicate AllCanBegin(size: nat) {
    forall i | 0 <= i < ThreadCount(size) :: ToInt32(InitTask(size, i).seg.sp) != -1
  }

  function AbsentTable(size: nat, n: nat): Table {
    var ts := SetStart(InitTable(size));
    seq(MAX_TASKS, i requires 0 <= i < MAX_TASKS => if i < n then Stopped(ts[i], NotFound) else ts[i])
  }

  /** The first `n` workers were told the file does not exist. */
  function AbsentUpTo(c: Config, n: nat): State {
    Started0(c).(tasks := AbsentTable(|c.remote|, n))
  }

  function Asking(c: Config, n: nat): State
    requires n < MAX_TASKS
  {
    var s := AbsentUpTo(c, n);
    s.(workers := s.workers[n := Transfer(s.tasks[n].seg.sp, Requested(s.tasks[n].seg, |c.remote|), s.tasks[n].seg.sp)])
  }

  lemma SlotWaits(size: nat, n: nat)
    requires size > 0 && AllCanBegin(size) && n < ThreadCount(size)
    ensures n < MAX_TASKS
    ensures var t := AbsentTable(size, n)[n];
            && Active(t) && t.cond == Run && t.seg.ds == 0 && ToInt32(t.seg.sp) != -1
            && AbsentTable(size, n + 1) == AbsentTable(size, n)[n := Stopped(t, NotFound)]
  {
    hide ToInt32;
    assert InitTable(size)[n] == InitTask(size, n);
  }

  lemma Asks(c: Config, n: nat)
    requires c.remote != [] && AllCanBegin(|c.remote|) && n < ThreadCount(|c.remote|)
    ensures n < MAX_TASKS && Leads(c, AbsentUpTo(c, n), Begin(n), Asking(c, n))
  {
    SlotWaits(|c.remote|, n);
    hide AbsentTable, InitTable, Collect, ToInt32, Requested;
  }

  lemma IsToldAbsent(c: Config, n: nat)
    requires c.remote != [] && AllCanBegin(|c.remote|) && n < ThreadCount(|c.remote|)
    ensures n < MAX_TASKS && Leads(c, Asking(c, n), Finish(n, Absent), AbsentUpTo(c, n + 1))
  {
    SlotWaits(|c.remote|, n);
    hide AbsentTable, InitTable, Collect, ToInt32, Requested;
    assert Asking(c, n).workers[n := Idle] == NoWorkers();
  }

  lemma {:induction false} RunToAbsentUpTo(c: Config, n: nat) returns (es: seq<Event>)
    requires c.remote != [] && AllCanBegin(|c.remote|) && n <= ThreadCount(|c.remote|)
    ensures Execute(c, InitialState(), es) == Some(AbsentUpTo(c, n))
  {
    if n == 0 {
      es := RunToStarted(c);
      assert AbsentTable(|c.remote|, 0) == SetStart(InitTable(|c.remote|));
    } else {
      es := RunToAbsentUpTo(c, n - 1);
      Asks(c, n - 1);
      IsToldAbsent(c, n - 1);
      es := Then(c, InitialState(), es, AbsentUpTo(c, n - 1), Begin(n - 1), Asking(c, n - 1));
      es := Then(c, InitialState(), es, Asking(c, n - 1), Finish(n - 1, Absent), AbsentUpTo(c, n));
    }
  }

  lemma {:induction false} CollectNone(ts: seq<Task>, keep: Task -> bool)
    requires forall i | 0 <= i < |ts| :: !keep(ts[i])
    ensures Collect(ts, keep) == []
  {
    if ts != [] {
      CollectNone(ts[..|ts| - 1], keep);
    }
  }

  /** The trailer written when every worker stopped with "not found" has no segment. */
  function Emptied(c: Config, control: Control, tasks: Table, result: Option<seq<byte>>): State {
    State(Tmp(Zeros(|c.remote|), Saved([])), tasks, NoWorkers(), control, result)
  }

  lemma EmptySave(c: Config)
    requires c.remote != []
    ensures var s := AbsentUpTo(c, ThreadCount(|c.remote|));
            var ts := SetFlags(s.tasks);
            && Leads(c, s, Interrupt, s.(tasks := ts, control := Interrupting(false)))
            && Leads(c, s.(tasks := ts, control := Interrupting(false)), Commit(true), Emptied(c, Resting, ts, None))
  {
    InitPartition(|c.remote|);
    var ts := SetFlags(AbsentUpTo(c, ThreadCount(|c.remote|)).tasks);
    CollectNone(ts, KeptOnInterrupt);
  }

  lemma EmptyReload(c: Config, ts: Table)
    ensures var s := Emptied(c, Polling, FreeTable(), None);
            && Leads(c, Emptied(c, Resting, ts, None), Reload, s)
            && Leads(c, s, CheckFinish, State(NoFile, FreeTable(), NoWorkers(), Resting, Some(Zeros(|c.remote|))))
  {
    assert SetStart(LoadTable([])) == FreeTable();
  }

  /** Every worker is told the file does not exist, the table is saved on an interrupt and read
      back: nothing is left to do, and the file of zeros is complete. */
  lemma RunToZeros(c: Config) returns (es: seq<Event>)
    requires c.remote != [] && AllCanBegin(|c.remote|)
    ensures var r := Execute(c, InitialState(), es); r.Some? && r.value.result == Some(Zeros(|c.remote|))
  {
    var s := AbsentUpTo(c, ThreadCount(|c.remote|));
    var ts := SetFlags(s.tasks);
    es := RunToAbsentUpTo(c, ThreadCount(|c.remote|));
    EmptySave(c);
    EmptyReload(c, ts);
    hide Leads, Apply, Enabled, Emptied;
    es := Then(c, InitialState(), es, s, Interrupt, s.(tasks := ts, control := Interrupting(false)));
    es := Then(c, InitialState(), es, s.(tasks := ts, control := Interrupting(false)), Commit(true), Emptied(c, Resting, ts, None));
    es := Then(c, InitialState(), es, Emptied(c, Resting, ts, None), Reload, Emptied(c, Polling, FreeTable(), None));
    es := Then(c, InitialState(), es, Emptied(c, Polling, FreeTable(), None), CheckFinish,
               State(NoFile, FreeTable(), NoWorkers(), Resting, Some(Zeros(|c.remote|))));
  }

  // ---- A remote file of zeros --------------------------------------------------------

  ghost predicate AllZeros(data: seq<byte>) { forall o | 0 <= o < |data| :: data[o] == 0 }

  ghost predicate ZeroState(c: Config, s: State) {
    && (s.file.Tmp? ==> |s.file.data| == |c.remote| && AllZeros(s.file.data))
    && (s.result.Some? ==> |s.result.value| == |c.remote| && AllZeros(s.result.value))
  }

  lemma WriteKeepsZeros(f: TmpFile, pos: nat, chunk: seq<byte>)
    requires f.Tmp? && AllZeros(f.data) && AllZeros(chunk)
    ensures var f' := WriteAt(f, pos, chunk); f'.Tmp? && |f'.data| == |f.data| && AllZeros(f'.data)
  {
  }

  lemma StepKeepsZeros(c: Config, s: State, e: Event)
    requires AllZeros(c.remote) && Enabled(c, s, e) && ZeroState(c, s)
    ensures ZeroState(c, Apply(c, s, e))
  {
    if e.Write? && s.file.Tmp? {
      WriteKeepsZeros(s.file, s.workers[e.i].pos, Delivered(c, s.workers[e.i].pos, e.k));
    }
  }

  lemma {:induction false} RunKeepsZeros(c: Config, s: State, es: seq<Event>)
    requires AllZeros(c.remote) && ZeroState(c, s)
    ensures Execute(c, s, es).Some? ==> ZeroState(c, Execute(c, s, es).value)
    decreases |es|
  {
    hide Enabled, Apply, ZeroState, AllZeros;
    if es != [] && Enabled(c, s, es[0]) {
      StepKeepsZeros(c, s, es[0]);
      RunKeepsZeros(c, Apply(c, s, es[0]), es[1..]);
    }
  }

  // ---- A segment nobody can begin ----------------------------------------------------

  /** A worker would begin this segment at an offset that is truncated to -1. */
  predicate Stuck(g: Segment) {
    1 <= g.threadNum <= MAX_TASKS && g.ds == 0 && g.sp <= g.ep && ToInt32(g.sp) == -1
  }

  predicate Holds(t: Task, w: Worker, g: Segment) {
    t.seg == g && t.downSize == Length(g) && w.Idle? && !Skipped(t)
  }

  predicate StuckIn(s: State, g: Segment) {
    exists i | 0 <= i < MAX_TASKS :: Holds(s.tasks[i], s.workers[i], g)
  }

  predicate StuckSaved(f: TmpFile, g: Segment) {
    f.Tmp? && f.trailer.Saved? ==> |f.trailer.segs| <= MAX_TASKS && g in f.trailer.segs
  }

  predicate StuckState(s: State, g: Segment) {
    && s.result.None? && StuckSaved(s.file, g)
    && (s.control == Polling || s.control.Interrupting? ==> StuckIn(s, g))
  }

  lemma SaveKeepsStuck(ts: Table, ws: Workers, g: Segment, keep: Task -> bool)
    requires Stuck(g) && exists i | 0 <= i < MAX_TASKS :: Holds(ts[i], ws[i], g)
    requires keep == KeptOnUpdate || keep == KeptOnInterrupt
    ensures |Collect(ts, keep)| <= MAX_TASKS && g in Collect(ts, keep)
  {
    var i :| 0 <= i < MAX_TASKS && Holds(ts[i], ws[i], g);
    var k := CollectComplete(ts, keep, i);
  }

  lemma InitSticks(c: Config, s: State, written: bool, k: nat)
    requires k < ThreadCount(|c.remote|) && Enabled(c, s, Init(written))
    requires var g := InitTask(|c.remote|, k).seg; Stuck(g) && StuckState(s, g)
    ensures StuckState(Apply(c, s, Init(written)), InitTask(|c.remote|, k).seg)
  {
    var ts := InitTable(|c.remote|);
    assert ts[k] == InitTask(|c.remote|, k);
    hide ToInt32, InitTask;
    if s.file.Tmp? && written {
      var j := CollectComplete(ts, Active, k);
      assert Holds(SetStart(ts)[k], s.workers[k], ts[k].seg);
    }
  }

  lemma ReloadSticks(c: Config, s: State, g: Segment)
    requires Enabled(c, s, Reload) && Stuck(g) && StuckState(s, g)
    ensures StuckState(Apply(c, s, Reload), g)
  {
    hide ToInt32;
    var segs := s.file.trailer.segs;
    if Acceptable(segs, |c.remote|, c.wide) {
      var k :| 0 <= k < |segs| && segs[k] == g;
      assert Holds(SetStart(LoadTable(segs))[k], s.workers[k], g);
    }
  }

  /** Raised flags and wake-ups leave the segment where it is. */
  lemma FlagsStick(s: State, ts: Table, g: Segment)
    requires StuckIn(s, g)
    requires ts == SetFlags(s.tasks) || ts == Woken(s.tasks) || ts == SetFlags(Woken(s.tasks))
    ensures StuckIn(s.(tasks := ts), g)
  {
    var i :| 0 <= i < MAX_TASKS && Holds(s.tasks[i], s.workers[i], g);
    assert Holds(ts[i], s.workers[i], g);
  }

  lemma PollSticks(c: Config, s: State, e: Event, g: Segment)
    requires Enabled(c, s, e) && Stuck(g) && StuckState(s, g)
    requires e.CheckCondition? || e.CheckFinish? || e.Interrupt?
    ensures StuckState(Apply(c, s, e), g)
  {
    var i :| 0 <= i < MAX_TASKS && Holds(s.tasks[i], s.workers[i], g);
    assert !AllDone(s.tasks) by {
      assert Active(s.tasks[i]);
    }
    var ts := Apply(c, s, e).tasks;
    if ts != s.tasks {
      FlagsStick(s, ts, g);
    }
  }

  lemma SaveSticks(c: Config, s: State, e: Event, g: Segment)
    requires Enabled(c, s, e) && Stuck(g) && StuckState(s, g) && (e.Save? || e.Commit?)
    ensures StuckState(Apply(c, s, e), g)
  {
    SaveKeepsStuck(s.tasks, s.workers, g, KeptOnUpdate);
    SaveKeepsStuck(s.tasks, s.workers, g, KeptOnInterrupt);
    hide Collect, ToInt32, Holds;
  }

  /** No worker ever begins the segment, so none reports on it or finishes it. */
  lemma WorkSticks(c: Config, s: State, e: Event, g: Segment)
    requires Enabled(c, s, e) && Stuck(g) && StuckState(s, g)
    requires e.Begin? || e.BeginFails? || e.Write? || e.Report? || e.Finish?
    ensures StuckState(Apply(c, s, e), g)
  {
    hide ToInt32;
    var s' := Apply(c, s, e);
    if s.control == Polling || s.control.Interrupting? {
      var i :| 0 <= i < MAX_TASKS && Holds(s.tasks[i], s.workers[i], g);
      assert Holds(s'.tasks[i], s'.workers[i], g);
    }
  }

  lemma QuietSticks(c: Config, s: State, e: Event, g: Segment)
    requires Enabled(c, s, e) && StuckState(s, g)
    requires e.Create? || e.Drop? || e.RemoveTmp? || e.Crash?
    ensures StuckState(Apply(c, s, e), g)
  {
  }

  lemma StepSticks(c: Config, s: State, e: Event, k: nat)
    requires k < ThreadCount(|c.remote|) && Enabled(c, s, e)
    requires var g := InitTask(|c.remote|, k).seg; Stuck(g) && StuckState(s, g)
    ensures StuckState(Apply(c, s, e), InitTask(|c.remote|, k).seg)
  {
    hide Stuck, InitTask, ToInt32, Collect, StuckIn;
    var g := InitTask(|c.remote|, k).seg;
    match e
    case Init(written) => InitSticks(c, s, written, k);
    case Reload => ReloadSticks(c, s, g);
    case CheckCondition => PollSticks(c, s, e, g);
    case CheckFinish => PollSticks(c, s, e, g);
    case Interrupt => PollSticks(c, s, e, g);
    case Save => SaveSticks(c, s, e, g);
    case Commit(_) => SaveSticks(c, s, e, g);
    case Begin(_) => WorkSticks(c, s, e, g);
    case BeginFails(_) => WorkSticks(c, s, e, g);
    case Write(_, _) => WorkSticks(c, s, e, g);
    case Report(_, _) => WorkSticks(c, s, e, g);
    case Finish(_, _) => WorkSticks(c, s, e, g);
    case _ => QuietSticks(c, s, e, g);
  }

  lemma {:induction false} RunSticks(c: Config, s: State, es: seq<Event>, k: nat)
    requires k < ThreadCount(|c.remote|)
    requires var g := InitTask(|c.remote|, k).seg; Stuck(g) && StuckState(s, g)
    ensures Execute(c, s, es).Some? ==> Execute(c, s, es).value.result.None?
    decreases |es|
  {
    hide Enabled, Apply, Stuck, InitTask;
    if es != [] && Enabled(c, s, es[0]) {
      StepSticks(c, s, es[0], k);
      RunSticks(c, Apply(c, s, es[0]), es[1..], k);
    }
  }

  // ---- Which files an unguarded run can corrupt --------------------------------------

  /** The run ends with a download reported as complete whose bytes are not the remote ones. */
  predicate ReportsOther(c: Config, es: seq<Event>) {
    var r := Execute(c, InitialState(), es);
    r.Some? && r.value.result.Some? && r.value.result.value != c.remote
  }

  lemma NeverReports(c: Config, es: seq<Event>)
    requires c.remote != [] && !AllCanBegin(|c.remote|)
    ensures !ReportsOther(c, es)
  {
    var k :| 0 <= k < ThreadCount(|c.remote|) && ToInt32(InitTask(|c.remote|, k).seg.sp) == -1;
    InitPartition(|c.remote|);
    assert InitTable(|c.remote|)[k] == InitTask(|c.remote|, k);
    RunSticks(c, InitialState(), es, k);
  }

  /** With no guard on the saves, some run reports a file that differs from the remote one, exactly
      when the remote file is not all zeros and every worker can begin. */
  lemma CorruptibleIff(c: Config)
    requires c.remote != []
    ensures (exists es :: ReportsOther(c, es)) <==> AllCanBegin(|c.remote|) && !AllZeros(c.remote)
  {
    if !AllCanBegin(|c.remote|) {
      forall es ensures !ReportsOther(c, es) {
        NeverReports(c, es);
      }
    } else if AllZeros(c.remote) {
      forall es ensures !ReportsOther(c, es) {
        RunKeepsZeros(c, InitialState(), es);
      }
    } else {
      var es := RunToZeros(c);
      assert ReportsOther(c, es);
    }
  }

  // ---- How a negative ds gets into a trailer -----------------------------------------

  /** The length of the first of four segments. */
  function Quarter(c: Config): nat { |c.remote| / 4 }

  predicate Cut(c: Config) { |c.remote| >= MULTI_LIMIT && ToInt32(Quarter(c)) != -1 }

  /** The initial table, with `ds` for its first segment. */
  function FirstAt(c: Config, ds: int): Table {
    var ts := SetStart(InitTable(|c.remote|));
    ts[0 := ts[0].(seg := ts[0].seg.(ds := ds))]
  }

  function FirstSegs(c: Config, ds: int): seq<Segment> {
    var ts := FirstAt(c, ds);
    [ts[0].seg, ts[1].seg, ts[2].seg, ts[3].seg]
  }

  /** A polling state over some data and trailer, with the first worker in a given transfer. */
  function Working(c: Config, data: seq<byte>, tr: Trailer, ds: int, w: Worker): State {
    State(Tmp(data, tr), FirstAt(c, ds), NoWorkers()[0 := w], Polling, None)
  }

  function Saving(data: seq<byte>, tr: Trailer, ts: Table, ws: Workers): State {
    State(Tmp(data, tr), ts, ws, Interrupting(false), None)
  }

  function AtRest(data: seq<byte>, tr: Trailer, ts: Table, ws: Workers): State {
    State(Tmp(data, tr), ts, ws, Resting, None)
  }

  lemma FirstSegment(c: Config)
    requires |c.remote| >= MULTI_LIMIT
    ensures var ts := InitTable(|c.remote|);
            && ts[0].seg == Segment(1, 0, Quarter(c) - 1, 0) && ts[0].downSize == Quarter(c)
            && ts[0].statusRun == 0 && 0 < Quarter(c) && 4 * Quarter(c) <= |c.remote|
            && FirstAt(c, 0) == SetStart(ts)
            && forall i | 0 <= i < MAX_TASKS :: Active(ts[i])
  {
  }

  lemma CollectFour(ts: Table, keep: Task -> bool)
    requires forall i | 0 <= i < MAX_TASKS :: keep(ts[i])
    ensures Collect(ts, keep) == [ts[0].seg, ts[1].seg, ts[2].seg, ts[3].seg]
  {
    assert ts[..3][..2] == ts[..2] && ts[..2][..1] == ts[..1] && ts[..1][..0] == [];
    assert Collect(ts[..1], keep) == [ts[0].seg];
    assert Collect(ts[..2], keep) == [ts[0].seg, ts[1].seg];
    assert Collect(ts[..3], keep) == [ts[0].seg, ts[1].seg, ts[2].seg];
  }

  /** An interrupt saves all four segments, then the process dies. */
  lemma SavesAndDies(c: Config, data: seq<byte>, tr: Trailer, ds: int, w: Worker)
    requires Cut(c)
    ensures var ts := SetFlags(FirstAt(c, ds)); var ws := NoWorkers()[0 := w]; var tr' := Saved(FirstSegs(c, ds));
            && Leads(c, Working(c, data, tr, ds, w), Interrupt, Saving(data, tr, ts, ws))
            && Leads(c, Saving(data, tr, ts, ws), Commit(true), AtRest(data, tr', ts, ws))
            && Leads(c, AtRest(data, tr', ts, ws), Crash, AtRest(data, tr', FreeTable(), NoWorkers()))
  {
    var ts := SetFlags(FirstAt(c, ds));
    FirstSegment(c);
    CollectFour(ts, KeptOnInterrupt);
    assert Collect(ts, KeptOnInterrupt) == FirstSegs(c, ds);
    hide InitTable, Collect, FirstSegs, FirstAt;
  }

  lemma SaveAndDie(c: Config, es: seq<Event>, data: seq<byte>, tr: Trailer, ds: int, w: Worker) returns (es': seq<Event>)
    requires Cut(c) && Execute(c, InitialState(), es) == Some(Working(c, data, tr, ds, w))
    ensures es' == es + [Interrupt, Commit(true), Crash]
    ensures Execute(c, InitialState(), es') == Some(AtRest(data, Saved(FirstSegs(c, ds)), FreeTable(), NoWorkers()))
  {
    var s0, s, ts, ws := InitialState(), Working(c, data, tr, ds, w), SetFlags(FirstAt(c, ds)), NoWorkers()[0 := w];
    var tr' := Saved(FirstSegs(c, ds));
    SavesAndDies(c, data, tr, ds, w);
    hide Execute, Leads, Working, Saving, AtRest, FirstSegs, FirstAt, InitialState;
    es' := Then(c, s0, es, s, Interrupt, Saving(data, tr, ts, ws));
    es' := Then(c, s0, es', Saving(data, tr, ts, ws), Commit(true), AtRest(data, tr', ts, ws));
    es' := Then(c, s0, es', AtRest(data, tr', ts, ws), Crash, AtRest(data, tr', FreeTable(), NoWorkers()));
  }

  function Data1(c: Config): seq<byte>
    requires |c.remote| >= MULTI_LIMIT
  {
    FirstSegment(c);
    Filled(c, Zeros(|c.remote|), InitTable(|c.remote|)[0].seg)
  }

  function Trailer0(c: Config): Trailer { Saved(Collect(InitTable(|c.remote|), Active)) }

  lemma FirstRound(c: Config)
    requires Cut(c)
    ensures var q := Quarter(c); var tr := Trailer0(c); var zs := Zeros(|c.remote|);
            && Started0(c) == Working(c, zs, tr, 0, Idle)
            && Leads(c, Working(c, zs, tr, 0, Idle), Begin(0), Working(c, zs, tr, 0, Transfer(0, q, 0)))
            && Leads(c, Working(c, zs, tr, 0, Transfer(0, q, 0)), Write(0, q), Working(c, Data1(c), tr, 0, Transfer(0, q, q)))
            && Leads(c, Working(c, Data1(c), tr, 0, Transfer(0, q, q)), Report(0, q), Working(c, Data1(c), tr, q, Transfer(0, q, q)))
  {
    var q := Quarter(c);
    FirstSegment(c);
    hide InitTable, Collect;
    assert Delivered(c, 0, q) == c.remote[0..q];
    assert NoWorkers()[0 := Idle] == NoWorkers();
  }

  lemma FirstReload(c: Config, data: seq<byte>)
    requires Cut(c)
    ensures var q := Quarter(c); var tr := Saved(FirstSegs(c, q));
            Leads(c, AtRest(data, tr, FreeTable(), NoWorkers()), Reload, Working(c, data, tr, q, Idle))
  {
    FirstSegment(c);
    assert SetStart(LoadTable(FirstSegs(c, Quarter(c)))) == FirstAt(c, Quarter(c));
    hide InitTable, Collect, LoadTable;
    assert NoWorkers()[0 := Idle] == NoWorkers();
  }

  /** The segment is saved at full length, so its worker asks for everything up to the end of the file. */
  lemma SecondRound(c: Config, data: seq<byte>, tr: Trailer)
    requires Cut(c)
    ensures var q := Quarter(c); var w := Transfer(q, |c.remote| - q, q);
            && Leads(c, Working(c, data, tr, q, Idle), Begin(0), Working(c, data, tr, q, w))
            && Leads(c, Working(c, data, tr, q, w), Report(0, 0), Working(c, data, tr, 2 * q - |c.remote|, w))
  {
    FirstSegment(c);
    hide InitTable, Collect, FirstSegs;
  }

  lemma RunFirstRound(c: Config) returns (es: seq<Event>)
    requires Cut(c)
    ensures var q := Quarter(c);
            && es == [Create, Init(true), Begin(0), Write(0, q), Report(0, q)]
            && Execute(c, InitialState(), es) == Some(Working(c, Data1(c), Trailer0(c), q, Transfer(0, q, q)))
  {
    var q: nat, s0, zs, tr := Quarter(c), InitialState(), Zeros(|c.remote|), Trailer0(c);
    es := RunToStarted(c);
    FirstRound(c);
    hide Execute, Leads, Working, Started0, InitialState, Data1, Trailer0, Zeros, Quarter;
    es := Then(c, s0, es, Working(c, zs, tr, 0, Idle), Begin(0), Working(c, zs, tr, 0, Transfer(0, q, 0)));
    es := Then(c, s0, es, Working(c, zs, tr, 0, Transfer(0, q, 0)), Write(0, q), Working(c, Data1(c), tr, 0, Transfer(0, q, q)));
    es := Then(c, s0, es, Working(c, Data1(c), tr, 0, Transfer(0, q, q)), Report(0, q), Working(c, Data1(c), tr, q, Transfer(0, q, q)));
  }

  lemma RunSecondRound(c: Config, es: seq<Event>, data: seq<byte>) returns (es': seq<Event>)
    requires Cut(c)
    requires Execute(c, InitialState(), es) == Some(AtRest(data, Saved(FirstSegs(c, Quarter(c))), FreeTable(), NoWorkers()))
    ensures var q := Quarter(c);
            && es' == es + [Reload, Begin(0), Report(0, 0)]
            && Execute(c, InitialState(), es') ==
               Some(Working(c, data, Saved(FirstSegs(c, q)), 2 * q - |c.remote|, Transfer(q, |c.remote| - q, q)))
  {
    var q: nat, s0, tr := Quarter(c), InitialState(), Saved(FirstSegs(c, Quarter(c)));
    var w := Transfer(q, |c.remote| - q, q);
    FirstReload(c, data);
    SecondRound(c, data, tr);
    hide Execute, Leads, Working, AtRest, InitialState, FirstSegs, Quarter;
    es' := Then(c, s0, es, AtRest(data, tr, FreeTable(), NoWorkers()), Reload, Working(c, data, tr, q, Idle));
    es' := Then(c, s0, es', Working(c, data, tr, q, Idle), Begin(0), Working(c, data, tr, q, w));
    es' := Then(c, s0, es', Working(c, data, tr, q, w), Report(0, 0), Working(c, data, tr, 2 * q - |c.remote|, w));
  }

  /** The first worker finishes its segment without stopping and the table is saved; after a crash it
      asks again, from the end of its segment, and the table is saved before anything has come. */
  function NegativeRun(c: Config): seq<Event> {
    [Create, Init(true), Begin(0), Write(0, Quarter(c)), Report(0, Quarter(c)), Interrupt, Commit(true), Crash] +
    [Reload, Begin(0), Report(0, 0), Interrupt, Commit(true), Crash]
  }

  lemma NegativeRunEnds(c: Config)
    requires Cut(c)
    ensures Execute(c, InitialState(), NegativeRun(c)) ==
            Some(AtRest(Data1(c), Saved(FirstSegs(c, 2 * Quarter(c) - |c.remote|)), FreeTable(), NoWorkers()))
  {
    var q: nat := Quarter(c);
    var es := RunFirstRound(c);
    hide Execute, AtRest, Working, Data1, Trailer0, FirstSegs, InitialState;
    es := SaveAndDie(c, es, Data1(c), Trailer0(c), q, Transfer(0, q, q));
    es := RunSecondRound(c, es, Data1(c));
    es := SaveAndDie(c, es, Data1(c), Saved(FirstSegs(c, q)), 2 * q - |c.remote|, Transfer(q, |c.remote| - q, q));
    assert es == NegativeRun(c);
  }

  lemma {:induction false} UnfinishedIsFound(c: Config, s: State, es: seq<Event>)
    requires forall e | e in es :: !e.Finish?
    ensures FoundRun(c, s, es)
    decreases |es|
  {
    if es != [] && Enabled(c, s, es[0]) {
      assert es[0] in es && forall e | e in es[1..] :: e in es;
      UnfinishedIsFound(c, Apply(c, s, es[0]), es[1..]);
    }
  }

  /** A guarded run of every file of 10 MiB or more (whose second segment a worker can begin) ends with
      a trailer whose first ds is negative; reading it back throws the file away exactly when size_t
      has 64 bits. */
  lemma NegativeDsIsSaved(c: Config)
    requires Cut(c)
    ensures CarefulRun(c, InitialState(), NegativeRun(c))
    ensures var r := Execute(c, InitialState(), NegativeRun(c));
            && r.Some? && r.value.file.Tmp? && r.value.file.trailer.Saved?
            && |r.value.file.trailer.segs| > 0 && r.value.file.trailer.segs[0].ds == 2 * Quarter(c) - |c.remote| < 0
            && Enabled(c, r.value, Reload)
            && (Apply(c, r.value, Reload).file.NoFile? <==> c.wide)
  {
    UnfinishedIsFound(c, InitialState(), NegativeRun(c));
    FoundIsCareful(c, InitialState(), NegativeRun(c));
    NegativeRunEnds(c);
    FirstSegment(c);
    NegativeSegs(c);
  }

  lemma NegativeSegs(c: Config)
    requires Cut(c)
    ensures var ds := 2 * Quarter(c) - |c.remote|;
            && FirstSegs(c, ds)[0].ds == ds < 0
            && (Acceptable(FirstSegs(c, ds), |c.remote|, c.wide) <==> !c.wide)
  {
    FirstSegment(c);
  }
}
