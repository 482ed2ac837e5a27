/** What stopping means: once the controller has told the workers to stop, no used slot gets any further
    until the table is built anew. */
module DownloadStop {
  import opened Wrappers
  import opened DownloadTable
  import opened DownloadProtocol

  /** The values of the flag on which the callback of a transfer gives up. */
  predicate Told(t: Task) { t.statusRun == 1 || t.statusRun == 2 }

  predicate AllTold(ts: Table) { forall i | 0 <= i < MAX_TASKS :: ts[i].seg.threadNum != 0 ==> Told(ts[i]) }

  /** The controller is done with the table, and every used slot was told to stop. */
  predicate Stopping(s: State) { s.control != Polling && AllTold(s.tasks) }

  /** No slot in use can record progress. */
  ghost predicate NoProgress(c: Config, s: State) {
    forall i: nat, dlnow: nat | i < MAX_TASKS && s.tasks[i].seg.threadNum != 0 :: !Enabled(c, s, Report(i, dlnow))
  }

  /** Whenever the controller stops polling with segments left, by an interrupt, a worker that failed or
      a file that is gone, every used slot has been told, and its segment and its codes are as they were. */
  lemma StopTellsAll(c: Config, s: State, e: Event)
    requires Enabled(c, s, e) && s.control == Polling && Apply(c, s, e).control.Interrupting?
    ensures var s' := Apply(c, s, e);
            && Stopping(s') && NoProgress(c, s')
            && forall i | 0 <= i < MAX_TASKS ::
                 s'.tasks[i].seg == s.tasks[i].seg && s'.tasks[i].downSize == s.tasks[i].downSize &&
                 s'.tasks[i].reCode == s.tasks[i].reCode
  {
  }

  /** The controller cuts the file or reads the trailer, and polls from then on. */
  predicate Rebuilds(c: Config, s: State, e: Event)
    requires Enabled(c, s, e)
  {
    (e.Init? || e.Reload?) && Apply(c, s, e).control == Polling
  }

  /** A step keeps the workers stopped exactly unless it builds the table anew. */
  lemma StoppedUntilRebuilt(c: Config, s: State, e: Event)
    requires Enabled(c, s, e) && Stopping(s)
    ensures Stopping(Apply(c, s, e)) <==> !Rebuilds(c, s, e)
  {
  }

  predicate NeverRebuilds(c: Config, s: State, es: seq<Event>)
    decreases |es|
  {
    es == [] || (Enabled(c, s, es[0]) && !Rebuilds(c, s, es[0]) && NeverRebuilds(c, Apply(c, s, es[0]), es[1..]))
  }

  /** After the stop no used slot records progress, over every run up to the next table. */
  lemma {:induction false} StopIsObeyed(c: Config, s: State, es: seq<Event>)
    requires Stopping(s) && NeverRebuilds(c, s, es)
    ensures var r := Execute(c, s, es); r.Some? && Stopping(r.value) && NoProgress(c, r.value)
    decreases |es|
  {
    if es != [] {
      StoppedUntilRebuilt(c, s, es[0]);
      StopIsObeyed(c, Apply(c, s, es[0]), es[1..]);
    }
  }

  /** So the bytes a slot reports stay what they were when it was told, as long as it is in use. */
  lemma {:induction false} StopFreezesProgress(c: Config, s: State, es: seq<Event>, i: nat)
    requires Stopping(s) && NeverRebuilds(c, s, es) && i < MAX_TASKS
    ensures var r := Execute(c, s, es);
            r.Some? && (r.value.tasks[i].seg == s.tasks[i].seg || r.value.tasks[i].seg.threadNum == 0)
    decreases |es|
  {
    if es != [] {
      StoppedUntilRebuilt(c, s, es[0]);
      StopFreezesProgress(c, Apply(c, s, es[0]), es[1..], i);
    }
  }
}
