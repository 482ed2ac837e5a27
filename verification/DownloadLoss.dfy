/** When a trailer save loses bytes, exactly, and a family of runs in which it does. */
module DownloadLoss {
  import opened Wrappers
  import opened DownloadTable
  import opened DownloadProtocol
  import opened DownloadInvariant

  // ---- The exact condition for one save ----------------------------------------------

  /** File contents that agree with a table. */
  ghost predicate Consistent(c: Config, data: seq<byte>, ts: Table) {
    && |data| == |c.remote|
    && (forall i | 0 <= i < MAX_TASKS :: TaskGood(c, data, ts[i]))
    && LiveCover(c, data, ts)
  }

  /** A file right everywhere except at `o`. */
  function SpoiledAt(remote: seq<byte>, o: nat): seq<byte>
    requires o < |remote|
  {
    remote[o := if remote[o] == 0 then 1 else 0]
  }

  /** Both saves keep every missing byte, whatever the file holds, exactly when no slot is
      reported as not found with bytes still missing. */
  lemma SaveIsSafeIff(c: Config, ts: Table, keep: Task -> bool)
    requires Ordered(ts) && forall i | 0 <= i < MAX_TASKS :: TaskShape(|c.remote|, ts[i])
    requires keep == KeptOnUpdate || keep == KeptOnInterrupt
    ensures DropsNothing(ts) <==>
            (forall data | Consistent(c, data, ts) :: SavedCover(c, data, Collect(ts, keep)))
  {
    if DropsNothing(ts) {
      forall data | Consistent(c, data, ts)
        ensures SavedCover(c, data, Collect(ts, keep))
      {
        SaveKeepsCover(c, data, ts, keep);
      }
    } else {
      var i :| 0 <= i < MAX_TASKS && StoppedNotFound(ts[i]) && ts[i].seg.ds < ts[i].downSize;
      DroppedByteIsLost(c, ts, keep, i);
    }
  }

  lemma DroppedByteIsLost(c: Config, ts: Table, keep: Task -> bool, i: nat)
    requires Ordered(ts) && forall i | 0 <= i < MAX_TASKS :: TaskShape(|c.remote|, ts[i])
    requires keep == KeptOnUpdate || keep == KeptOnInterrupt
    requires i < MAX_TASKS && StoppedNotFound(ts[i]) && ts[i].seg.ds < ts[i].downSize
    ensures exists data :: Consistent(c, data, ts) && !SavedCover(c, data, Collect(ts, keep))
  {
    var o := ts[i].seg.sp + Max0(ts[i].seg.ds);
    var data, segs := SpoiledAt(c.remote, o), Collect(ts, keep);
    forall k | 0 <= k < |segs|
      ensures !Covers(segs[k], o)
    {
      var j := CollectSound(ts, keep, k);
      assert j != i;
    }
    assert data[o] != c.remote[o] && !SegsCover(segs, o);
    SpoiledIsConsistent(c, ts, i);
  }

  lemma SpoiledIsConsistent(c: Config, ts: Table, i: nat)
    requires Ordered(ts) && forall i | 0 <= i < MAX_TASKS :: TaskShape(|c.remote|, ts[i])
    requires i < MAX_TASKS && TaskShape(|c.remote|, ts[i])
    requires StoppedNotFound(ts[i]) && ts[i].seg.ds < ts[i].downSize
    ensures Consistent(c, SpoiledAt(c.remote, ts[i].seg.sp + Max0(ts[i].seg.ds)), ts)
  {
    var o := ts[i].seg.sp + Max0(ts[i].seg.ds);
    var data := SpoiledAt(c.remote, o);
    assert TableCovers(ts, o) by {
      assert Needed(ts[i]) && Covers(ts[i].seg, o);
    }
    forall j | 0 <= j < MAX_TASKS
      ensures TaskGood(c, data, ts[j])
    {
      assert TaskShape(|c.remote|, ts[j]);
      if j != i && Active(ts[j]) {
        assert o < ts[j].seg.sp || ts[j].seg.ep < o;
      }
    }
  }

  // ---- A family of losing runs -------------------------------------------------------

  lemma {:induction false} ExecuteAppend(c: Config, s: State, es: seq<Event>, fs: seq<Event>)
    requires Execute(c, s, es).Some?
    ensures Execute(c, s, es + fs) == Execute(c, Execute(c, s, es).value, fs)
    decreases |es|
  {
    if es == [] {
      assert es + fs == fs;
    } else {
      ExecuteAppend(c, Apply(c, s, es[0]), es[1..], fs);
      assert (es + fs)[0] == es[0] && (es + fs)[1..] == es[1..] + fs;
    }
  }

  predicate Leads(c: Config, s: State, e: Event, s': State) {
    Enabled(c, s, e) && Apply(c, s, e) == s'
  }

  lemma Then(c: Config, s0: State, es: seq<Event>, s: State, e: Event, s': State) returns (es': seq<Event>)
    requires Execute(c, s0, es) == Some(s) && Leads(c, s, e, s')
    ensures es' == es + [e] && Execute(c, s0, es') == Some(s')
  {
    es' := es + [e];
    ExecuteAppend(c, s0, es, [e]);
    assert [e][1..] == [];
  }

  function Filled(c: Config, data: seq<byte>, g: Segment): seq<byte>
    requires |data| == |c.remote| && 0 <= g.sp <= g.ep < |data|
  {
    data[..g.sp] + c.remote[g.sp..g.ep + 1] + data[g.ep + 1..]
  }

  predicate Fresh(c: Config, s: State, i: nat) {
    && i < MAX_TASKS && s.control == Polling && s.file.Tmp? && |s.file.data| == |c.remote|
    && Active(s.tasks[i]) && s.tasks[i].cond == Run && s.tasks[i].seg.ds == 0 && s.workers[i] == Idle
    && 0 <= s.tasks[i].seg.sp <= s.tasks[i].seg.ep < |c.remote| < 0x8000_0000
  }

  function Transferring(s: State, i: nat, pos: int): State
    requires i < MAX_TASKS
  {
    s.(workers := s.workers[i := Transfer(s.tasks[i].seg.sp, Max0(Length(s.tasks[i].seg)), pos)])
  }

  function SlotDone(c: Config, s: State, i: nat): State
    requires Fresh(c, s, i)
  {
    s.(tasks := s.tasks[i := Stopped(s.tasks[i], Ok)],
       file := s.file.(data := Filled(c, s.file.data, s.tasks[i].seg)))
  }

  /** The state once the whole segment is written but the worker has not stopped. */
  function Written(c: Config, s: State, i: nat): State
    requires Fresh(c, s, i)
  {
    var g := s.tasks[i].seg;
    Transferring(s, i, g.ep + 1).(file := s.file.(data := Filled(c, s.file.data, g)))
  }

  lemma WholeBegin(c: Config, s: State, i: nat)
    requires Fresh(c, s, i)
    ensures Leads(c, s, Begin(i), Transferring(s, i, s.tasks[i].seg.sp))
  {
  }

  lemma WholeWrite(c: Config, s: State, i: nat)
    requires Fresh(c, s, i)
    ensures var g := s.tasks[i].seg;
            Leads(c, Transferring(s, i, g.sp), Write(i, Length(g)), Written(c, s, i))
  {
    var g := s.tasks[i].seg;
    assert Delivered(c, g.sp, Length(g)) == c.remote[g.sp..g.ep + 1];
  }

  lemma WholeFinish(c: Config, s: State, i: nat)
    requires Fresh(c, s, i)
    ensures Leads(c, Written(c, s, i), Finish(i, Complete), SlotDone(c, s, i))
  {
    assert Written(c, s, i).workers[i := Idle] == s.workers;
  }

  /** One worker downloads its whole segment. */
  lemma CompleteSlot(c: Config, s0: State, es: seq<Event>, s: State, i: nat) returns (es': seq<Event>)
    requires Execute(c, s0, es) == Some(s) && Fresh(c, s, i)
    ensures Execute(c, s0, es') == Some(SlotDone(c, s, i))
  {
    WholeBegin(c, s, i);
    WholeWrite(c, s, i);
    WholeFinish(c, s, i);
    var g := s.tasks[i].seg;
    es' := Then(c, s0, es, s, Begin(i), Transferring(s, i, g.sp));
    es' := Then(c, s0, es', Transferring(s, i, g.sp), Write(i, Length(g)), Written(c, s, i));
    es' := Then(c, s0, es', Written(c, s, i), Finish(i, Complete), SlotDone(c, s, i));
  }

  // The states of the losing run.

  function Started0(c: Config): State {
    var ts := InitTable(|c.remote|);
    State(Tmp(Zeros(|c.remote|), Saved(Collect(ts, Active))), SetStart(ts), NoWorkers(), Polling, None)
  }

  function WithoutSecond(c: Config): seq<Segment> {
    var ts := InitTable(|c.remote|);
    [ts[0].seg, ts[2].seg, ts[3].seg]
  }

  function SecondAbsent(c: Config): State {
    var s := Started0(c);
    s.(tasks := s.tasks[1 := Stopped(s.tasks[1], NotFound)])
  }

  function Reloaded(c: Config): State {
    State(Tmp(Zeros(|c.remote|), Saved(WithoutSecond(c))), SetStart(LoadTable(WithoutSecond(c))),
          NoWorkers(), Polling, None)
  }

  lemma RunToStarted(c: Config) returns (es: seq<Event>)
    requires c.remote != []
    ensures es == [Create, Init(true)] && Execute(c, InitialState(), es) == Some(Started0(c))
  {
    var s0 := InitialState();
    var s1 := State(Tmp(Zeros(|c.remote|), NoTrailer), FreeTable(), NoWorkers(), Preparing, None);
    es := Then(c, s0, [], s0, Create, s1);
    es := Then(c, s0, es, s1, Init(true), Started0(c));
  }

  lemma RunToAbsent(c: Config) returns (es: seq<Event>)
    requires MULTI_LIMIT <= |c.remote| < 0x8000_0000
    ensures Execute(c, InitialState(), es) == Some(SecondAbsent(c))
  {
    es := RunToStarted(c);
    var s := Started0(c);
    InitPartition(|c.remote|);
    assert Active(s.tasks[1]) && s.tasks[1].seg.ds == 0;
    var s1 := Transferring(s, 1, s.tasks[1].seg.sp);
    WholeBegin(c, s, 1);
    es := Then(c, InitialState(), es, s, Begin(1), s1);
    assert s1.workers[1 := Idle] == s.workers;
    es := Then(c, InitialState(), es, s1, Finish(1, Absent), SecondAbsent(c));
  }

  lemma SaveLosesSecond(c: Config)
    requires MULTI_LIMIT <= |c.remote| < 0x8000_0000
    ensures var s := SecondAbsent(c);
            Leads(c, s, Save, s.(file := SetTrailer(s.file, WithoutSecond(c))))
  {
    InitPartition(|c.remote|);
    CollectThree(SecondAbsent(c).tasks);
  }

  lemma ReloadWithoutSecond(c: Config, s: State)
    requires MULTI_LIMIT <= |c.remote| < 0x8000_0000
    requires s == State(Tmp(Zeros(|c.remote|), Saved(WithoutSecond(c))), FreeTable(), NoWorkers(), Resting, None)
    ensures Leads(c, s, Reload, Reloaded(c))
  {
    InitPartition(|c.remote|);
  }

  /** The second worker is told the file does not exist, the table is saved, the process dies and
      starts again: the trailer no longer knows the second segment. */
  lemma RunToReloaded(c: Config) returns (es: seq<Event>)
    requires MULTI_LIMIT <= |c.remote| < 0x8000_0000
    ensures Execute(c, InitialState(), es) == Some(Reloaded(c))
  {
    es := RunToAbsent(c);
    SaveLosesSecond(c);
    var s := SecondAbsent(c);
    var s1 := s.(file := SetTrailer(s.file, WithoutSecond(c)));
    es := Then(c, InitialState(), es, s, Save, s1);
    var s2 := State(Tmp(Zeros(|c.remote|), Saved(WithoutSecond(c))), FreeTable(), NoWorkers(), Resting, None);
    es := Then(c, InitialState(), es, s1, Crash, s2);
    ReloadWithoutSecond(c, s2);
    es := Then(c, InitialState(), es, s2, Reload, Reloaded(c));
  }

  lemma CollectThree(ts: Table)
    requires KeptOnUpdate(ts[0]) && !KeptOnUpdate(ts[1]) && KeptOnUpdate(ts[2]) && KeptOnUpdate(ts[3])
    ensures Collect(ts, KeptOnUpdate) == [ts[0].seg, ts[2].seg, ts[3].seg]
  {
    assert ts[..3][..2] == ts[..2] && ts[..2][..1] == ts[..1] && ts[..1][..0] == [];
    assert Collect(ts[..1], KeptOnUpdate) == [ts[0].seg];
    assert Collect(ts[..2], KeptOnUpdate) == [ts[0].seg];
    assert Collect(ts[..3], KeptOnUpdate) == [ts[0].seg, ts[2].seg];
  }

  function ThreeDone(c: Config): State
    requires MULTI_LIMIT <= |c.remote| < 0x8000_0000
  {
    ReloadedSegments(c);
    SlotDone(c, SlotDone(c, SlotDone(c, Reloaded(c), 0), 1), 2)
  }

  lemma RunToThreeDone(c: Config) returns (es: seq<Event>)
    requires MULTI_LIMIT <= |c.remote| < 0x8000_0000
    ensures Execute(c, InitialState(), es) == Some(ThreeDone(c))
  {
    es := RunToReloaded(c);
    ReloadedSegments(c);
    es := CompleteSlot(c, InitialState(), es, Reloaded(c), 0);
    es := CompleteSlot(c, InitialState(), es, SlotDone(c, Reloaded(c), 0), 1);
    es := CompleteSlot(c, InitialState(), es, SlotDone(c, SlotDone(c, Reloaded(c), 0), 1), 2);
  }

  lemma ThreeDoneReports(c: Config, o: nat)
    requires MULTI_LIMIT <= |c.remote| < 0x8000_0000
    requires |c.remote| / 4 <= o < |c.remote| / 4 * 2
    ensures var s := ThreeDone(c);
            && Enabled(c, s, CheckFinish)
            && var r := Apply(c, s, CheckFinish).result;
               r.Some? && |r.value| == |c.remote| && r.value[o] == 0
  {
    ReloadedSegments(c);
  }

  /** Without the guard the promise fails: for every remote file of 10 MiB or more (below 2 GiB)
      whose second quarter is not all zeros, some run reports a file that differs from it. */
  lemma UnguardedSaveCorrupts(c: Config, o: nat)
    requires MULTI_LIMIT <= |c.remote| < 0x8000_0000
    requires |c.remote| / 4 <= o < |c.remote| / 4 * 2 && c.remote[o] != 0
    ensures exists es :: var r := Execute(c, InitialState(), es);
              r.Some? && r.value.result.Some? && r.value.result.value != c.remote
  {
    var es := RunToThreeDone(c);
    ThreeDoneReports(c, o);
    var s := ThreeDone(c);
    es := Then(c, InitialState(), es, s, CheckFinish, Apply(c, s, CheckFinish));
  }

  lemma ReloadedSegments(c: Config)
    requires MULTI_LIMIT <= |c.remote| < 0x8000_0000
    ensures var ts := Reloaded(c).tasks; var per := |c.remote| / 4;
            && (forall i | 0 <= i < 3 :: Fresh(c, Reloaded(c), i))
            && ts[0].seg.ep == per - 1 && ts[1].seg.sp == 2 * per && ts[2].seg.sp == 3 * per
            && !Active(ts[3])
  {
    InitPartition(|c.remote|);
  }

  // ---- Reload and progress -----------------------------------------------------------

  /** In every guarded run a saved trailer is accepted again unless size_t is 64 bits wide and a
      saved ds is negative. */
  lemma ReloadAcceptsIff(c: Config, s: State)
    requires Inv(c, s) && s.file.Tmp? && s.file.trailer.Saved?
    ensures Acceptable(s.file.trailer.segs, |c.remote|, c.wide) <==>
            (c.wide ==> forall k | 0 <= k < |s.file.trailer.segs| :: s.file.trailer.segs[k].ds >= 0)
  {
    var segs := s.file.trailer.segs;
    forall k | 0 <= k < |segs|
      ensures DsExceeds(segs[k].ds, |c.remote|, c.wide) <==> c.wide && segs[k].ds < 0
    {
      assert SegShape(|c.remote|, segs[k]);
    }
  }

  /** The bytes missing from the segments a save leaves out. */
  function MissingDropped(ts: seq<Task>, keep: Task -> bool): int {
    if ts == [] then 0 else
      var t := ts[|ts| - 1];
      MissingDropped(ts[..|ts| - 1], keep) +
      if Active(t) && !keep(t) then t.downSize - t.seg.ds else 0
  }

  lemma {:induction false} MissingSplits(ts: seq<Task>, keep: Task -> bool)
    requires forall i | 0 <= i < |ts| :: keep(ts[i]) ==> Active(ts[i])
    requires forall i | 0 <= i < |ts| :: Active(ts[i]) ==> ts[i].downSize == Length(ts[i].seg)
    ensures MissingSaved(Collect(ts, keep)) + MissingDropped(ts, keep) == Missing(ts)
  {
    if ts != [] {
      var n := |ts| - 1;
      MissingSplits(ts[..n], keep);
      var before := Collect(ts[..n], keep);
      assert (before + [ts[n].seg])[..|before|] == before;
    }
  }

  lemma {:induction false} DroppedIsZeroIff(ts: seq<Task>, keep: Task -> bool)
    requires forall i | 0 <= i < |ts| :: Active(ts[i]) ==> ts[i].seg.ds <= ts[i].downSize
    ensures MissingDropped(ts, keep) >= 0
    ensures MissingDropped(ts, keep) == 0 <==>
            (forall i | 0 <= i < |ts| :: Active(ts[i]) && !keep(ts[i]) ==> ts[i].seg.ds == ts[i].downSize)
  {
    if ts != [] {
      DroppedIsZeroIff(ts[..|ts| - 1], keep);
    }
  }

  /** The progress recomputed from a trailer is never below the live progress, and equals it
      exactly when every segment the save left out is at full ds. */
  lemma SavedProgressIsLiveProgressIff(c: Config, ts: Table, keep: Task -> bool)
    requires forall i | 0 <= i < MAX_TASKS :: TaskShape(|c.remote|, ts[i])
    requires keep == KeptOnUpdate || keep == KeptOnInterrupt
    ensures var size := |c.remote|;
            && LiveProgress(size, ts) <= SavedProgress(size, Collect(ts, keep))
            && (LiveProgress(size, ts) == SavedProgress(size, Collect(ts, keep)) <==>
                (forall i | 0 <= i < MAX_TASKS :: Active(ts[i]) && !keep(ts[i]) ==> ts[i].seg.ds == ts[i].downSize))
  {
    MissingSplits(ts, keep);
    DroppedIsZeroIff(ts, keep);
  }

  /** Reading the trailer back starts at the progress the trailer shows, when no saved ds is negative. */
  lemma {:induction false} ReloadKeepsProgress(c: Config, segs: seq<Segment>)
    requires |segs| <= MAX_TASKS
    requires forall k | 0 <= k < |segs| :: SegShape(|c.remote|, segs[k]) && segs[k].ds >= 0
    ensures LiveProgress(|c.remote|, SetStart(LoadTable(segs))) == SavedProgress(|c.remote|, segs)
  {
    LoadedMissing(segs, MAX_TASKS);
    assert SetStart(LoadTable(segs))[..MAX_TASKS] == SetStart(LoadTable(segs));
    assert segs[..|segs|] == segs;
  }

  lemma {:induction false} LoadedMissing(segs: seq<Segment>, n: nat)
    requires |segs| <= MAX_TASKS && n <= MAX_TASKS
    requires forall k | 0 <= k < |segs| :: 1 <= segs[k].threadNum && segs[k].ds >= 0
    ensures Missing(SetStart(LoadTable(segs))[..n]) == MissingSaved(segs[..if n < |segs| then n else |segs|])
  {
    var ts := SetStart(LoadTable(segs));
    if n > 0 {
      LoadedMissing(segs, n - 1);
      assert ts[..n][..n - 1] == ts[..n - 1];
      if n <= |segs| {
        assert segs[..n][..n - 1] == segs[..n - 1];
      }
    }
  }

  // ---- Result codes ------------------------------------------------------------------

  /** A worker that completed its transfer reports success exactly when its first offset is not
      congruent to -1 or -2 modulo 2^32; at -2 it reports a file that does not exist. */
  lemma CompleteReportsOkIff(start: nat)
    ensures ExitCode(start, Complete) == Ok <==>
            start % 0x1_0000_0000 != 0xFFFF_FFFF && start % 0x1_0000_0000 != 0xFFFF_FFFE
    ensures ExitCode(start, Complete) == NotFound <==> start % 0x1_0000_0000 == 0xFFFF_FFFE
  {
  }
}
