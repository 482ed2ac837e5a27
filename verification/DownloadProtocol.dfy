/** The resumable segmented download as a transition system (web_api.c): a controller that
    polls, saves and interrupts, up to four workers that write into one temporary file, and
    crashes of the whole process at any moment.

    Assumptions about the environment, each visible in `Enabled`:
    a transfer delivers the remote bytes in order from the requested offset, never more than
    requested, and an error response delivers nothing; a progress report never exceeds what has
    been written; a trailer save is one atomic step; no worker is at work while the table is
    rebuilt. Where the finished bytes are put is left to the controller.  */
module DownloadProtocol {
  import opened Wrappers
  import opened DownloadTable

  /** The remote file, and whether size_t is 64 bits wide. */
  datatype Config = Config(remote: seq<byte>, wide: bool)

  datatype Trailer = NoTrailer | Saved(segs: seq<Segment>)

  /** The temporary file: the bytes below the file size, and the trailer from that offset on. */
  datatype TmpFile = NoFile | Tmp(data: seq<byte>, trailer: Trailer)

  /** A worker's transfer: first offset, number of bytes requested, next offset to write. */
  datatype Worker = Idle | Transfer(start: int, total: int, pos: int)

  datatype Control = Resting | Preparing | Polling | Interrupting(drop: bool) | Dropping

  type Workers = ws: seq<Worker> | |ws| == MAX_TASKS witness NoWorkers()

  datatype State = State(
    file: TmpFile, tasks: Table, workers: Workers, control: Control, result: Option<seq<byte>>)

  datatype Event =
    | Create                  // make or resize the temporary file
    | Init(written: bool)     // cut the file into segments and write the first trailer, which may fail
    | Reload                  // read the segments back from the trailer
    | CheckCondition          // look for a worker that stopped with an error
    | Save                    // periodic trailer save
    | CheckFinish             // look for completion
    | Interrupt               // tell every worker to stop
    | Commit(written: bool)   // trailer save after an interrupt, which may fail
    | Drop                    // remove the temporary file of a file that is gone
    | RemoveTmp               // the user deletes the download, or the file cannot be made
    | Crash                   // the process dies; only the file survives
    | Begin(i: nat)
    | BeginFails(i: nat)
    | Write(i: nat, k: nat)
    | Report(i: nat, dlnow: nat)
    | Finish(i: nat, outcome: Outcome)

  function NoWorkers(): seq<Worker> { [Idle, Idle, Idle, Idle] }

  function InitialState(): State {
    State(NoFile, FreeTable(), NoWorkers(), Resting, None)
  }

  predicate Quiescent(s: State) { forall i | 0 <= i < MAX_TASKS :: s.workers[i].Idle? }

  function Zeros(n: nat): seq<byte> { seq(n, _ => 0) }

  /** ftruncate keeps what fits and fills with zeros. */
  function Resize(data: seq<byte>, size: nat): (d: seq<byte>)
    ensures |d| == size && forall k | 0 <= k < size :: d[k] == if k < |data| then data[k] else 0
  {
    if |data| >= size then data[..size] else data + Zeros(size - |data|)
  }

  function SetTrailer(f: TmpFile, segs: seq<Segment>): TmpFile {
    if f.Tmp? then f.(trailer := Saved(segs)) else f
  }

  /** A write that runs past the data damages the trailer. */
  function WriteAt(f: TmpFile, pos: nat, chunk: seq<byte>): TmpFile {
    if f.NoFile? then f
    else if pos + |chunk| <= |f.data| then f.(data := f.data[..pos] + chunk + f.data[pos + |chunk|..])
    else Tmp(Resize(Resize(f.data, pos) + chunk, |f.data|), NoTrailer)
  }

  /** The `k` bytes a transfer delivers at offset `pos`; there is nothing beyond the remote end. */
  function Delivered(c: Config, pos: int, k: nat): seq<byte> {
    seq(k, j requires 0 <= j < k => if 0 <= pos + j < |c.remote| then c.remote[pos + j] else 0)
  }

  /** A request for zero bytes becomes an open-ended range. */
  function Requested(g: Segment, size: nat): nat {
    var length := g.ep - (g.sp + g.ds) + 1;
    if length == 0 then Max0(size - (g.sp + g.ds)) else Max0(length)
  }

  predicate Enabled(c: Config, s: State, e: Event) {
    match e
    case Create => s.control == Resting && s.result.None? && Quiescent(s) &&
                   (s.file.NoFile? || s.file.trailer.NoTrailer?)
    case Init(_) => s.control == Preparing && Quiescent(s)
    case Reload => s.control == Resting && s.result.None? && Quiescent(s) &&
                   s.file.Tmp? && s.file.trailer.Saved?
    case CheckCondition => s.control == Polling
    case Save => s.control == Polling
    case CheckFinish => s.control == Polling
    case Interrupt => s.control == Polling
    case Commit(_) => s.control.Interrupting?
    case Drop => s.control == Dropping
    case RemoveTmp => true
    case Crash => true
    case Begin(i) => i < MAX_TASKS && Startable(s, i) && s.file.Tmp? &&
                     ToInt32(s.tasks[i].seg.sp + s.tasks[i].seg.ds) != -1
    case BeginFails(i) => i < MAX_TASKS && Startable(s, i)
    case Write(i, k) => i < MAX_TASKS && s.workers[i].Transfer? && s.workers[i].pos >= 0 &&
                        s.workers[i].pos + k <= s.workers[i].start + s.workers[i].total
    case Report(i, dlnow) => i < MAX_TASKS && s.workers[i].Transfer? &&
                             s.tasks[i].statusRun == 0 && s.workers[i].total != 0 &&
                             s.workers[i].start + dlnow <= s.workers[i].pos
    case Finish(i, outcome) =>
      i < MAX_TASKS && s.workers[i].Transfer? &&
      var w := s.workers[i];
      (outcome == Complete ==> w.pos == w.start + w.total) && (outcome == Absent ==> w.pos == w.start)
  }

  predicate Startable(s: State, i: nat)
    requires i < MAX_TASKS
  {
    s.workers[i].Idle? && s.control != Preparing && Active(s.tasks[i]) && s.tasks[i].cond == Run
  }

  function Stopped(t: Task, code: ReCode): Task { t.(cond := Stop, reCode := code) }

  function Apply(c: Config, s: State, e: Event): State
    requires Enabled(c, s, e)
  {
    var size := |c.remote|;
    match e
    case Create =>
      s.(file := Tmp(if s.file.Tmp? then Resize(s.file.data, size) else Zeros(size), NoTrailer),
         control := Preparing)
    case Init(written) =>
      if s.file.NoFile? || !written then s.(tasks := FreeTable(), file := NoFile, control := Resting)
      else s.(tasks := SetStart(InitTable(size)),
              file := SetTrailer(s.file, Collect(InitTable(size), Active)), control := Polling)
    case Reload =>
      if Acceptable(s.file.trailer.segs, size, c.wide)
      then s.(tasks := SetStart(LoadTable(s.file.trailer.segs)), control := Polling)
      else s.(tasks := FreeTable(), file := NoFile)
    case CheckCondition =>
      if FirstError(s.tasks) < MAX_TASKS
      then s.(tasks := SetFlags(Woken(s.tasks)), control := Interrupting(false))
      else s.(tasks := Woken(s.tasks))
    case Save =>
      var segs := Collect(s.tasks, KeptOnUpdate);
      if segs == [] then s else s.(file := SetTrailer(s.file, segs))
    case CheckFinish =>
      if AllDone(s.tasks) then
        if s.file.NoFile? then s   // truncate fails
        else s.(result := Some(s.file.data), file := NoFile, control := Resting)
      else if GoneFirst(s.tasks) then s.(tasks := SetFlags(s.tasks), control := Interrupting(true))
      else s
    case Interrupt => s.(tasks := SetFlags(s.tasks), control := Interrupting(false))
    case Commit(written) =>
      s.(file := if written then SetTrailer(s.file, Collect(s.tasks, KeptOnInterrupt)) else s.file,
         control := if s.control.drop then Dropping else Resting)
    case Drop => s.(file := NoFile, control := Resting)
    case RemoveTmp => s.(file := NoFile)
    case Crash => s.(tasks := FreeTable(), workers := NoWorkers(), control := Resting)
    case Begin(i) =>
      var start := s.tasks[i].seg.sp + s.tasks[i].seg.ds;
      s.(workers := s.workers[i := Transfer(start, Requested(s.tasks[i].seg, size), start)])
    case BeginFails(i) => s.(tasks := s.tasks[i := Stopped(s.tasks[i], Err)])
    case Write(i, k) =>
      var w := s.workers[i];
      s.(file := WriteAt(s.file, w.pos, Delivered(c, w.pos, k)),
         workers := s.workers[i := w.(pos := w.pos + k)])
    case Report(i, dlnow) =>
      var t := s.tasks[i];
      s.(tasks := s.tasks[i := t.(seg := t.seg.(ds := t.downSize - (s.workers[i].total - dlnow)))])
    case Finish(i, outcome) =>
      s.(tasks := s.tasks[i := Stopped(s.tasks[i], ExitCode(s.workers[i].start, outcome))],
         workers := s.workers[i := Idle])
  }

  /** The state after a run, or None when some event of it is not possible. */
  function Execute(c: Config, s: State, es: seq<Event>): Option<State>
    decreases |es|
  {
    if es == [] then Some(s)
    else if !Enabled(c, s, es[0]) then None
    else Execute(c, Apply(c, s, es[0]), es[1..])
  }

  // ---- What a trailer save may lose --------------------------------------------------

  /** No worker was told the file does not exist while bytes of its segment were still missing. */
  predicate DropsNothing(ts: Table) {
    forall i | 0 <= i < MAX_TASKS :: StoppedNotFound(ts[i]) ==> ts[i].seg.ds >= ts[i].downSize
  }

  /** The save guard: a caller can check it on the table just before the save. */
  predicate CarefulStep(s: State, e: Event) {
    e == Save || e == Commit(true) ==> DropsNothing(s.tasks)
  }

  predicate CarefulRun(c: Config, s: State, es: seq<Event>)
    decreases |es|
  {
    es == [] || !Enabled(c, s, es[0]) ||
    (CarefulStep(s, es[0]) && CarefulRun(c, Apply(c, s, es[0]), es[1..]))
  }

  // ---- The invariant -----------------------------------------------------------------

  ghost predicate Good(c: Config, data: seq<byte>, lo: int, hi: int) {
    forall o | 0 <= o < |data| && o < |c.remote| && lo <= o < hi :: data[o] == c.remote[o]
  }

  predicate SegShape(size: nat, g: Segment) {
    1 <= g.threadNum <= MAX_TASKS && 0 <= g.sp <= g.ep < size && g.ds <= Length(g)
  }

  predicate TaskShape(size: nat, t: Task) {
    t.cond != Wait && (Active(t) ==> SegShape(size, t.seg) && t.downSize == Length(t.seg))
  }

  predicate WorkerShape(size: nat, t: Task, w: Worker) {
    match w
    case Idle => Active(t) && t.cond == Run ==> t.seg.ds >= 0
    case Transfer(start, total, pos) =>
      Active(t) && t.cond == Run && t.seg.sp <= start <= t.seg.ep + 1 && start <= pos <= start + total &&
      total == (if start <= t.seg.ep then t.seg.ep + 1 - start else size - start)
  }

  /** The bytes a segment reports as downloaded are the remote bytes. */
  ghost predicate SegGood(c: Config, data: seq<byte>, g: Segment) {
    Good(c, data, g.sp, g.sp + Max0(g.ds))
  }

  ghost predicate TaskGood(c: Config, data: seq<byte>, t: Task) {
    Active(t) ==>
      SegGood(c, data, t.seg) && (t.cond == Stop && t.reCode == Ok ==> Good(c, data, t.seg.sp, t.seg.ep + 1))
  }

  ghost predicate WorkerGood(c: Config, data: seq<byte>, t: Task, w: Worker) {
    w.Transfer? ==> Good(c, data, t.seg.sp, w.pos)
  }

  /** The part of a segment that is still to be downloaded contains `o`. */
  predicate Covers(g: Segment, o: int) { g.sp + Max0(g.ds) <= o <= g.ep }

  predicate Needed(t: Task) { Active(t) && !(t.cond == Stop && t.reCode == Ok) }

  predicate TableCovers(ts: Table, o: int) {
    exists i | 0 <= i < MAX_TASKS :: Needed(ts[i]) && Covers(ts[i].seg, o)
  }

  predicate SegsCover(segs: seq<Segment>, o: int) {
    exists k | 0 <= k < |segs| :: Covers(segs[k], o)
  }

  /** Every byte is the remote byte or lies in the open part of an unfinished segment. */
  ghost predicate LiveCover(c: Config, data: seq<byte>, ts: Table) {
    forall o | 0 <= o < |data| && o < |c.remote| :: data[o] == c.remote[o] || TableCovers(ts, o)
  }

  ghost predicate SavedCover(c: Config, data: seq<byte>, segs: seq<Segment>) {
    forall o | 0 <= o < |data| && o < |c.remote| :: data[o] == c.remote[o] || SegsCover(segs, o)
  }

  /** Used segments lie in increasing order and never overlap. */
  predicate Ordered(ts: seq<Task>) {
    forall i, j | 0 <= i < j < |ts| :: Active(ts[i]) && Active(ts[j]) ==> ts[i].seg.ep < ts[j].seg.sp
  }

  predicate OrderedSegs(segs: seq<Segment>) {
    forall i, j | 0 <= i < j < |segs| :: segs[i].ep < segs[j].sp
  }

  ghost predicate TrailerGood(c: Config, data: seq<byte>, segs: seq<Segment>) {
    && |segs| <= MAX_TASKS
    && OrderedSegs(segs)
    && (forall k | 0 <= k < |segs| :: SegShape(|c.remote|, segs[k]) && SegGood(c, data, segs[k]))
    && SavedCover(c, data, segs)
  }

  predicate Shapes(c: Config, s: State) {
    && Ordered(s.tasks)
    && (forall i | 0 <= i < MAX_TASKS :: TaskShape(|c.remote|, s.tasks[i]))
    && (forall i | 0 <= i < MAX_TASKS :: WorkerShape(|c.remote|, s.tasks[i], s.workers[i]))
    && (s.control == Preparing ==> Quiescent(s))
  }

  ghost predicate FileGood(c: Config, s: State) {
    s.file.Tmp? ==>
      && |s.file.data| == |c.remote|
      && (s.control != Preparing ==>
            forall i | 0 <= i < MAX_TASKS ::
              TaskGood(c, s.file.data, s.tasks[i]) && WorkerGood(c, s.file.data, s.tasks[i], s.workers[i]))
      && (s.control == Polling || s.control.Interrupting? ==> LiveCover(c, s.file.data, s.tasks))
      && (s.file.trailer.Saved? ==> TrailerGood(c, s.file.data, s.file.trailer.segs))
  }

  ghost predicate Inv(c: Config, s: State) {
    Shapes(c, s) && FileGood(c, s) && (s.result.Some? ==> s.result.value == c.remote)
  }
}
