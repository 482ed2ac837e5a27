/** Safety of the segmented download over every run: a completed download is the remote file, and on
    the way every byte is right or still to be fetched. */
module DownloadSafety {
  import opened Wrappers
  import opened DownloadTable
  import opened DownloadProtocol
  import opened DownloadInvariant

  lemma {:induction false} RunKeeps(c: Config, s: State, es: seq<Event>)
    requires c.remote != [] && Inv(c, s) && CarefulRun(c, s, es)
    ensures Execute(c, s, es).Some? ==> Inv(c, Execute(c, s, es).value)
    decreases |es|
  {
    if es != [] && Enabled(c, s, es[0]) {
      StepKeeps(c, s, es[0]);
      RunKeeps(c, Apply(c, s, es[0]), es[1..]);
    }
  }

  /** In every interleaving of workers, polls, saves, interrupts and crashes in which no save meets
      an unfinished segment reported as not found, a completed download is the remote file. */
  lemma CompletedDownloadIsRemote(c: Config, es: seq<Event>)
    requires c.remote != [] && CarefulRun(c, InitialState(), es)
    ensures var r := Execute(c, InitialState(), es);
            r.Some? && r.value.result.Some? ==> r.value.result.value == c.remote
  {
    RunKeeps(c, InitialState(), es);
  }

  /** In every such state each byte is right or still to be downloaded, both in the live table
      and in the saved trailer. */
  lemma EveryByteAccountedFor(c: Config, es: seq<Event>, o: nat)
    requires c.remote != [] && CarefulRun(c, InitialState(), es) && o < |c.remote|
    ensures var r := Execute(c, InitialState(), es);
            r.Some? && r.value.file.Tmp? ==>
              var s := r.value;
              && |s.file.data| == |c.remote|
              && (s.control == Polling ==> s.file.data[o] == c.remote[o] || TableCovers(s.tasks, o))
              && (s.file.trailer.Saved? ==>
                    s.file.data[o] == c.remote[o] || SegsCover(s.file.trailer.segs, o))
  {
    RunKeeps(c, InitialState(), es);
  }

  // ---- Runs without "not found" --------------------------------------------------------

  predicate NoneNotFound(ts: Table) { forall i | 0 <= i < MAX_TASKS :: ts[i].reCode != NotFound }

  /** A worker stops with the code for a file that does not exist. */
  predicate EndsNotFound(s: State, e: Event) {
    e.Finish? && e.i < MAX_TASKS && s.workers[e.i].Transfer? &&
    ExitCode(s.workers[e.i].start, e.outcome) == NotFound
  }

  predicate FoundRun(c: Config, s: State, es: seq<Event>)
    decreases |es|
  {
    es == [] || !Enabled(c, s, es[0]) ||
    (!EndsNotFound(s, es[0]) && FoundRun(c, Apply(c, s, es[0]), es[1..]))
  }

  lemma StepKeepsNoneNotFound(c: Config, s: State, e: Event)
    requires Enabled(c, s, e) && NoneNotFound(s.tasks) && !EndsNotFound(s, e)
    ensures NoneNotFound(Apply(c, s, e).tasks)
  {
  }

  lemma {:induction false} FoundIsCareful(c: Config, s: State, es: seq<Event>)
    requires NoneNotFound(s.tasks) && FoundRun(c, s, es)
    ensures CarefulRun(c, s, es)
    decreases |es|
  {
    hide Apply, Enabled;
    if es != [] && Enabled(c, s, es[0]) {
      StepKeepsNoneNotFound(c, s, es[0]);
      FoundIsCareful(c, Apply(c, s, es[0]), es[1..]);
    }
  }

  /** In every run in which no worker stops with "not found", a completed download is the remote file,
      with no condition on the saves. */
  lemma CompletedWithoutNotFoundIsRemote(c: Config, es: seq<Event>)
    requires c.remote != [] && FoundRun(c, InitialState(), es)
    ensures var r := Execute(c, InitialState(), es);
            r.Some? && r.value.result.Some? ==> r.value.result.value == c.remote
  {
    FoundIsCareful(c, InitialState(), es);
    CompletedDownloadIsRemote(c, es);
  }

  /** The server never answers that the file does not exist. */
  predicate NeverAbsent(es: seq<Event>) { forall e | e in es :: !(e.Finish? && e.outcome == Absent) }

  /** No offset below 2^32 - 2 is truncated to the code for "not found". */
  lemma FinishIsFound(c: Config, s: State, i: nat, outcome: Outcome)
    requires Inv(c, s) && Enabled(c, s, Finish(i, outcome)) && outcome != Absent && |c.remote| < 0xFFFF_FFFE
    ensures ExitCode(s.workers[i].start, outcome) != NotFound
  {
    assert WorkerShape(|c.remote|, s.tasks[i], s.workers[i]) && TaskShape(|c.remote|, s.tasks[i]);
  }

  /** For a file below 4 GiB less two bytes such runs are all those in which the server never says so. */
  lemma {:induction false} NeverAbsentIsFound(c: Config, s: State, es: seq<Event>)
    requires c.remote != [] && |c.remote| < 0xFFFF_FFFE && Inv(c, s) && NoneNotFound(s.tasks) && NeverAbsent(es)
    ensures FoundRun(c, s, es)
    decreases |es|
  {
    hide Inv, Apply, Enabled;
    if es != [] && Enabled(c, s, es[0]) {
      assert es[0] in es;
      if es[0].Finish? {
        FinishIsFound(c, s, es[0].i, es[0].outcome);
      }
      StepKeepsNoneNotFound(c, s, es[0]);
      StepKeeps(c, s, es[0]);
      NeverAbsentIsFound(c, Apply(c, s, es[0]), es[1..]);
    }
  }
}
