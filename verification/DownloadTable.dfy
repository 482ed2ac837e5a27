/** The task table of the segmented download and the passes over it (web_api.c):
    how a file is cut into segments, what a trailer save keeps, how a saved trailer
    is read back, and what the controller concludes from the table.  */
module DownloadTable {
  import opened Wrappers

  const MAX_TASKS := 4            // PCS_MULTI_DOWNNUM
  const MULTI_LIMIT := 10485760   // PCS_MULTI_DOWNLIMIT

  datatype Cond = Stop | Run | Wait
  datatype ReCode = NoCode | Ok | Err | NotFound

  /** One byte range [sp, ep] with ds bytes reported as downloaded; threadNum 0 marks a free slot. */
  datatype Segment = Segment(threadNum: int, sp: int, ep: int, ds: int)

  datatype Task = Task(cond: Cond, statusRun: int, reCode: ReCode, downSize: int, seg: Segment)

  type Table = ts: seq<Task> | |ts| == MAX_TASKS witness FreeTable()

  const FREE: Task := Task(Stop, 0, NoCode, 0, Segment(0, 0, 0, 0))

  function FreeTable(): seq<Task> {
    [FREE, FREE, FREE, FREE]
  }

  predicate Active(t: Task) { t.seg.threadNum != 0 }

  function Length(g: Segment): int { g.ep - g.sp + 1 }

  // ---- What a save keeps -------------------------------------------------------------

  /** A stopped worker whose result code makes both save routines skip its segment. */
  predicate Skipped(t: Task) {
    t.cond == Stop && (t.reCode == Ok || t.reCode == NotFound)
  }

  predicate KeptOnInterrupt(t: Task) { Active(t) && !Skipped(t) }

  predicate KeptOnUpdate(t: Task) { KeptOnInterrupt(t) && t.seg.ds < t.downSize }

  /** The segments of the slots that satisfy `keep`, in slot order. */
  function Collect(ts: seq<Task>, keep: Task -> bool): (segs: seq<Segment>)
    ensures |segs| <= |ts|
  {
    if ts == [] then [] else
      var before := Collect(ts[..|ts| - 1], keep);
      if keep(ts[|ts| - 1]) then before + [ts[|ts| - 1].seg] else before
  }

  lemma {:induction false} CollectSound(ts: seq<Task>, keep: Task -> bool, k: nat) returns (i: nat)
    requires k < |Collect(ts, keep)|
    ensures i < |ts| && keep(ts[i]) && ts[i].seg == Collect(ts, keep)[k]
  {
    var n := |ts| - 1;
    if k < |Collect(ts[..n], keep)| {
      i := CollectSound(ts[..n], keep, k);
    } else {
      i := n;
    }
  }

  lemma {:induction false} CollectComplete(ts: seq<Task>, keep: Task -> bool, i: nat) returns (k: nat)
    requires i < |ts| && keep(ts[i])
    ensures k < |Collect(ts, keep)| && Collect(ts, keep)[k] == ts[i].seg
  {
    var n := |ts| - 1;
    if i == n {
      k := |Collect(ts, keep)| - 1;
    } else {
      k := CollectComplete(ts[..n], keep, i);
    }
  }

  /** What each save writes, slot by slot: an interrupt leaves out the slots whose worker stopped with
      success or with "not found", the periodic save also those at full length. */
  lemma SavedSegments(ts: Table)
    ensures var kept := (t: Task) =>
              t.seg.threadNum != 0 && !(t.cond == Stop && (t.reCode == Ok || t.reCode == NotFound));
            Collect(ts, KeptOnInterrupt) ==
              (if kept(ts[0]) then [ts[0].seg] else []) + (if kept(ts[1]) then [ts[1].seg] else []) +
              (if kept(ts[2]) then [ts[2].seg] else []) + (if kept(ts[3]) then [ts[3].seg] else [])
    ensures var kept := (t: Task) =>
              t.seg.threadNum != 0 && t.seg.ds < t.downSize &&
              !(t.cond == Stop && (t.reCode == Ok || t.reCode == NotFound));
            Collect(ts, KeptOnUpdate) ==
              (if kept(ts[0]) then [ts[0].seg] else []) + (if kept(ts[1]) then [ts[1].seg] else []) +
              (if kept(ts[2]) then [ts[2].seg] else []) + (if kept(ts[3]) then [ts[3].seg] else [])
  {
    CollectSlots(ts, KeptOnInterrupt);
    CollectSlots(ts, KeptOnUpdate);
  }

  lemma CollectSlots(ts: Table, keep: Task -> bool)
    ensures Collect(ts, keep) ==
            (if keep(ts[0]) then [ts[0].seg] else []) + (if keep(ts[1]) then [ts[1].seg] else []) +
            (if keep(ts[2]) then [ts[2].seg] else []) + (if keep(ts[3]) then [ts[3].seg] else [])
  {
    assert ts[..4] == ts && ts[..4][..3] == ts[..3] && ts[..3][..2] == ts[..2] && ts[..2][..1] == ts[..1];
    assert ts[..1][..0] == [] && Collect(ts[..0], keep) == [];
    assert Collect(ts[..1], keep) == if keep(ts[0]) then [ts[0].seg] else [];
    assert Collect(ts[..2], keep) == Collect(ts[..1], keep) + if keep(ts[1]) then [ts[1].seg] else [];
    assert Collect(ts[..3], keep) == Collect(ts[..2], keep) + if keep(ts[2]) then [ts[2].seg] else [];
  }

  // ---- Cutting a file into segments --------------------------------------------------

  function ThreadCount(size: nat): nat {
    if size < MULTI_LIMIT then 1 else MAX_TASKS
  }

  /** The slot that pcs_multi_down_initinfo fills for thread `i`. */
  function InitTask(size: nat, i: nat): Task {
    var n := ThreadCount(size);
    var per := size / n;
    if i < n then
      var sp := i * per;
      var ep := if i + 1 == n then size - 1 else sp + per - 1;
      Task(Stop, 0, NoCode, ep - sp + 1, Segment(i + 1, sp, ep, 0))
    else FREE
  }

  function InitTable(size: nat): Table {
    seq(MAX_TASKS, i requires 0 <= i < MAX_TASKS => InitTask(size, i))
  }

  // ---- Starting, interrupting, polling -----------------------------------------------

  function Started(t: Task): Task {
    if Active(t) then t.(cond := Run) else t
  }

  function Flagged(t: Task): Task {
    if Active(t) then t.(statusRun := 1) else t
  }

  function SetStart(ts: Table): Table {
    seq(MAX_TASKS, i requires 0 <= i < MAX_TASKS => Started(ts[i]))
  }

  function SetFlags(ts: Table): Table {
    seq(MAX_TASKS, i requires 0 <= i < MAX_TASKS => Flagged(ts[i]))
  }

  predicate StoppedWithError(t: Task) {
    Active(t) && t.cond == Stop && t.reCode == Err
  }

  /** The first slot whose worker stopped with an error, or MAX_TASKS. */
  function FirstError(ts: Table, from: nat := 0): (k: nat)
    requires from <= MAX_TASKS
    ensures from <= k <= MAX_TASKS
    ensures k < MAX_TASKS ==> StoppedWithError(ts[k])
    ensures forall j | from <= j < k :: !StoppedWithError(ts[j])
    decreases MAX_TASKS - from
  {
    if from == MAX_TASKS || StoppedWithError(ts[from]) then from else FirstError(ts, from + 1)
  }

  function Resumed(t: Task): Task {
    if Active(t) && t.cond == Wait then t.(cond := Run, statusRun := 0) else t
  }

  /** pcs_multi_down_chk_condition wakes the waiting slots it passes before the first error. */
  function Woken(ts: Table): Table {
    var e := FirstError(ts);
    seq(MAX_TASKS, i requires 0 <= i < MAX_TASKS => if i < e then Resumed(ts[i]) else ts[i])
  }

  /** Every used slot has stopped with success: the only way to report completion. */
  predicate AllDone(ts: Table) {
    forall i | 0 <= i < MAX_TASKS :: Active(ts[i]) ==> ts[i].cond == Stop && ts[i].reCode == Ok
  }

  predicate StoppedNotFound(t: Task) {
    Active(t) && t.cond == Stop && t.reCode == NotFound
  }

  /** Some slot was told the file does not exist and no earlier slot is still busy. */
  predicate GoneFirst(ts: Table) {
    exists i | 0 <= i < MAX_TASKS :: StoppedNotFound(ts[i]) &&
      forall j | 0 <= j < i :: Active(ts[j]) ==> ts[j].cond == Stop
  }

  // ---- Reading a trailer back --------------------------------------------------------

  /** `ds > size` as C evaluates it: with a 64-bit size_t the signed ds is converted to unsigned,
      so a negative ds compares greater; with a 32-bit size_t the comparison is signed. */
  predicate DsExceeds(ds: int, size: nat, wide: bool) {
    if wide then ds < 0 || ds > size else ds > size
  }

  predicate Acceptable(segs: seq<Segment>, size: nat, wide: bool) {
    forall k | 0 <= k < |segs| :: segs[k].threadNum <= MAX_TASKS && !DsExceeds(segs[k].ds, size, wide)
  }

  function LoadTask(segs: seq<Segment>, i: nat): Task {
    if i < |segs| then
      var g := segs[i].(ds := Max0(segs[i].ds));
      Task(Stop, 0, NoCode, Length(g), g)
    else FREE
  }

  function LoadTable(segs: seq<Segment>): Table {
    seq(MAX_TASKS, i requires 0 <= i < MAX_TASKS => LoadTask(segs, i))
  }

  // ---- Progress ----------------------------------------------------------------------

  /** Bytes the used slots still miss. */
  function Missing(ts: seq<Task>): int {
    if ts == [] then 0 else
      var t := ts[|ts| - 1];
      Missing(ts[..|ts| - 1]) + if Active(t) then t.downSize - t.seg.ds else 0
  }

  /** Bytes the saved segments still miss. */
  function MissingSaved(segs: seq<Segment>): int {
    if segs == [] then 0 else
      var g := segs[|segs| - 1];
      MissingSaved(segs[..|segs| - 1]) + (Length(g) - g.ds)
  }

  /** What the progress routine shows while a download runs. */
  function LiveProgress(size: nat, ts: seq<Task>): int { size - Missing(ts) }

  /** What pcs_web_api_getdownfile_size recomputes from the trailer. */
  function SavedProgress(size: nat, segs: seq<Segment>): int { size - MissingSaved(segs) }

  /** Every byte that a used slot gains is gained by the displayed progress, and nothing else is. */
  lemma ProgressCounts(size: nat, ts: Table, i: nat, t: Task)
    requires i < MAX_TASKS && ts[i].seg.threadNum != 0 && t.seg.threadNum != 0 && t.downSize == ts[i].downSize
    ensures LiveProgress(size, ts[i := t]) - LiveProgress(size, ts) == t.seg.ds - ts[i].seg.ds
    ensures LiveProgress(size, FreeTable()) == size
  {
    MissingSlots(ts);
    MissingSlots(ts[i := t]);
    MissingSlots(FreeTable());
  }

  /** Each saved segment takes what it still misses off the progress a trailer shows. */
  lemma SavedProgressCounts(size: nat, segs: seq<Segment>, g: Segment)
    ensures SavedProgress(size, []) == size
    ensures SavedProgress(size, segs + [g]) == SavedProgress(size, segs) - (g.ep - g.sp + 1 - g.ds)
  {
    assert (segs + [g])[..|segs|] == segs;
  }

  function Lacks(t: Task): int { if t.seg.threadNum == 0 then 0 else t.downSize - t.seg.ds }

  lemma MissingSlots(ts: Table)
    ensures Missing(ts) == Lacks(ts[0]) + Lacks(ts[1]) + Lacks(ts[2]) + Lacks(ts[3])
  {
    assert ts[..4] == ts && ts[..4][..3] == ts[..3] && ts[..3][..2] == ts[..2] && ts[..2][..1] == ts[..1];
    assert ts[..1][..0] == [] && Missing(ts[..0]) == 0;
    assert Missing(ts[..1]) == Lacks(ts[0]);
    assert Missing(ts[..2]) == Missing(ts[..1]) + Lacks(ts[1]);
    assert Missing(ts[..3]) == Missing(ts[..2]) + Lacks(ts[2]);
  }

  // ---- The worker --------------------------------------------------------------------

  /** lseek returns a wide offset that the worker stores in an `int`. */
  function ToInt32(n: int): int {
    var m := n % 0x1_0000_0000;
    if m >= 0x8000_0000 then m - 0x1_0000_0000 else m
  }

  datatype Outcome = Complete | Failed | Absent

  /** The result code a worker stores. On success `ret` still holds the truncated offset,
      so an offset congruent to -1 or -2 modulo 2^32 is taken for an error code. */
  function ExitCode(start: int, outcome: Outcome): ReCode {
    var ret := match outcome
               case Complete => ToInt32(start)
               case Failed => -1
               case Absent => -2;
    if ret == -1 then Err else if ret == -2 then NotFound else Ok
  }
}
