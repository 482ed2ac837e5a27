/** The two web worker threads and their dispatcher (main.c), as steps that each hold the mutex once. */
module WorkerPool {
  import opened Wrappers

  /** What the dispatcher hands over: the raw request, its URL, the value of `opt`, and the socket. */
  datatype Request = Request(buf: seq<text>, url: seq<text>, opt: seq<text>, fd: int)

  const BUF_SIZE := 4096
  const OPT_SIZE := 1024

  /** strncpy into a cleared buffer of `size` bytes. */
  function Cut(s: seq<text>, size: nat): (t: seq<text>)
    requires size > 0
    ensures |t| == (if |s| < size then |s| else size - 1) && t <= s
  {
    if |s| < size then s else s[..size - 1]
  }

  function Copied(r: Request): Request {
    Request(Cut(r.buf, BUF_SIZE), Cut(r.url, BUF_SIZE), Cut(r.opt, OPT_SIZE), r.fd)
  }

  /** mutiServer[i]; `id` says which accepted request the buffers were filled from. */
  datatype Slot = Slot(busy: bool, request: Request, id: nat)

  /** Where a worker thread is: at the condition variable, or between its two critical sections. */
  datatype Phase = Waiting | Handling(id: nat, seen: Request)

  datatype Entry =
    | Start(id: nat, worker: nat, request: Request)
    | Close(id: nat, worker: nat, fd: int)

  /** `accepted` lists the requests the dispatcher was given; the last may still lack a slot. */
  datatype State = State(
    slots: seq<Slot>, phases: seq<Phase>, accepted: seq<Request>, pending: bool, log: seq<Entry>)

  datatype Event =
    | Offer(request: Request)     // multi_server_alloctask is entered
    | Alloc                       // one pass of its loop
    | Take(worker: nat)           // a worker looks at its status
    | Finish(worker: nat)         // a worker closes the socket and becomes idle

  predicate Shaped(s: State) { |s.slots| == 2 && |s.phases| == 2 && (s.pending ==> s.accepted != []) }

  predicate Enabled(s: State, e: Event) {
    Shaped(s) &&
    match e
    case Offer(_) => !s.pending
    case Alloc => s.pending
    case Take(w) => w < 2 && s.phases[w].Waiting?
    case Finish(w) => w < 2 && s.phases[w].Handling?
  }

  /** The first idle slot, or 2. */
  function Idle(slots: seq<Slot>): (i: nat)
    requires |slots| == 2
    ensures i <= 2 && (i < 2 ==> !slots[i].busy)
  {
    if !slots[0].busy then 0 else if !slots[1].busy then 1 else 2
  }

  function Step(s: State, e: Event): (t: State)
    requires Enabled(s, e)
    ensures Shaped(t)
  {
    match e
    case Offer(r) => if r.fd == 0 then s else s.(accepted := s.accepted + [r], pending := true)
    case Alloc =>
      var i, id := Idle(s.slots), |s.accepted| - 1;
      if i == 2 then s
      else s.(slots := s.slots[i := Slot(true, Copied(s.accepted[id]), id)], pending := false)
    case Take(w) =>
      var slot := s.slots[w];
      if !slot.busy then s
      else s.(phases := s.phases[w := Handling(slot.id, slot.request)], log := s.log + [Start(slot.id, w, slot.request)])
    case Finish(w) =>
      var slot := s.slots[w];
      s.(slots := s.slots[w := slot.(busy := false)], phases := s.phases[w := Waiting],
         log := s.log + [Close(slot.id, w, slot.request.fd)])
  }

  const EMPTY := Request([], [], [], 0)

  /** Before the first request both slots are idle. */
  function Init(): State {
    State([Slot(false, EMPTY, 0), Slot(false, EMPTY, 0)], [Waiting, Waiting], [], false, [])
  }

  // ---- What every step keeps ---------------------------------------------------------

  /** How often the log says that request `id` was started, or its socket closed. */
  function Starts(log: seq<Entry>, id: nat): nat {
    if log == [] then 0 else
      var e := log[|log| - 1];
      Starts(log[..|log| - 1], id) + if e.Start? && e.id == id then 1 else 0
  }

  function Closes(log: seq<Entry>, id: nat): nat {
    if log == [] then 0 else
      var e := log[|log| - 1];
      Closes(log[..|log| - 1], id) + if e.Close? && e.id == id then 1 else 0
  }

  /** Whether request `id` is in a slot that no worker has taken yet. */
  function Queued(slot: Slot, phase: Phase, id: nat): nat {
    if slot.busy && phase.Waiting? && slot.id == id then 1 else 0
  }

  function Running(phase: Phase, id: nat): nat {
    if phase.Handling? && phase.id == id then 1 else 0
  }

  function Pending(s: State, id: nat): nat {
    if s.pending && id == |s.accepted| - 1 then 1 else 0
  }

  /** Every accepted request is in exactly one place, and every started one is running or closed. */
  predicate Balanced(s: State, id: nat)
    requires Shaped(s)
  {
    && Pending(s, id) + Queued(s.slots[0], s.phases[0], id) + Queued(s.slots[1], s.phases[1], id) + Starts(s.log, id)
       == (if id < |s.accepted| then 1 else 0)
    && Starts(s.log, id) == Running(s.phases[0], id) + Running(s.phases[1], id) + Closes(s.log, id)
  }

  /** A busy slot holds the copy of its request; a worker at work has the slot it started with. */
  predicate SlotSound(s: State, w: nat)
    requires Shaped(s) && w < 2
  {
    var slot, phase := s.slots[w], s.phases[w];
    && (slot.busy ==> slot.id < |s.accepted| && slot.request == Copied(s.accepted[slot.id]))
    && (phase.Handling? ==> slot.busy && phase.id == slot.id && phase.seen == slot.request &&
                            Start(slot.id, w, slot.request) in s.log)
  }

  /** What the log says about entry `k`: the right contents and socket, and a close only after its start. */
  predicate EntrySound(s: State, k: nat)
    requires k < |s.log|
  {
    match s.log[k]
    case Start(id, w, r) => id < |s.accepted| && r == Copied(s.accepted[id])
    case Close(id, w, fd) => id < |s.accepted| && fd == s.accepted[id].fd &&
                             Start(id, w, Copied(s.accepted[id])) in s.log[..k]
  }

  ghost predicate Inv(s: State) {
    && Shaped(s) && (forall id: nat :: Balanced(s, id)) && SlotSound(s, 0) && SlotSound(s, 1)
    && forall k | 0 <= k < |s.log| :: EntrySound(s, k)
  }

  lemma InitInv()
    ensures Inv(Init())
  {
  }

  lemma LogOne(log: seq<Entry>, e: Entry, id: nat)
    ensures Starts([], id) == 0 == Closes([], id)
    ensures Starts(log + [e], id) == Starts(log, id) + if e.Start? && e.id == id then 1 else 0
    ensures Closes(log + [e], id) == Closes(log, id) + if e.Close? && e.id == id then 1 else 0
  {
    assert (log + [e])[..|log|] == log;
  }

  lemma StepBalanced(s: State, e: Event, id: nat)
    requires Shaped(s) && Balanced(s, id) && Enabled(s, e) && SlotSound(s, 0) && SlotSound(s, 1)
    ensures Balanced(Step(s, e), id)
  {
    hide Starts, Closes, Copied;
    match e
    case Offer(_) =>
    case Alloc =>
    case Take(w) => LogOne(s.log, Start(s.slots[w].id, w, s.slots[w].request), id);
    case Finish(w) => LogOne(s.log, Close(s.slots[w].id, w, s.slots[w].request.fd), id);
  }

  lemma StepSlotSound(s: State, e: Event, w: nat)
    requires Inv(s) && Enabled(s, e) && w < 2
    ensures SlotSound(Step(s, e), w)
  {
    hide Balanced, EntrySound, Copied;
  }

  lemma StepEntrySound(s: State, e: Event, k: nat)
    requires Inv(s) && Enabled(s, e) && k < |Step(s, e).log|
    ensures EntrySound(Step(s, e), k)
  {
    hide Balanced;
    var t := Step(s, e);
    if k < |s.log| {
      assert EntrySound(s, k);
      assert t.log[..k] == s.log[..k];
    } else {
      assert t.log[..k] == s.log;
    }
  }

  lemma StepKeeps(s: State, e: Event)
    requires Inv(s) && Enabled(s, e)
    ensures Inv(Step(s, e))
  {
    hide Balanced, SlotSound, EntrySound, Step;
    forall id: nat ensures Balanced(Step(s, e), id) {
      StepBalanced(s, e, id);
    }
    StepSlotSound(s, e, 0);
    StepSlotSound(s, e, 1);
    forall k | 0 <= k < |Step(s, e).log| ensures EntrySound(Step(s, e), k) {
      StepEntrySound(s, e, k);
    }
  }

  // ---- Whole runs --------------------------------------------------------------------

  predicate EnabledRun(s: State, es: seq<Event>)
    decreases |es|
  {
    es == [] || (Enabled(s, es[0]) && EnabledRun(Step(s, es[0]), es[1..]))
  }

  function Run(s: State, es: seq<Event>): (t: State)
    requires EnabledRun(s, es)
    ensures Shaped(s) ==> Shaped(t)
    decreases |es|
  {
    if es == [] then s else Run(Step(s, es[0]), es[1..])
  }

  lemma {:induction false} RunKeeps(s: State, es: seq<Event>)
    requires Inv(s) && EnabledRun(s, es)
    ensures Inv(Run(s, es))
    decreases |es|
  {
    hide Inv, Step;
    if es != [] {
      StepKeeps(s, es[0]);
      RunKeeps(Step(s, es[0]), es[1..]);
    }
  }

  /** In every interleaving an accepted request is started at most once, its socket closed at most
      once and only then; when nothing is pending and both slots are idle, each happened exactly once. */
  lemma HandledExactlyOnce(es: seq<Event>, id: nat)
    requires EnabledRun(Init(), es)
    ensures var s := Run(Init(), es);
            && Closes(s.log, id) <= Starts(s.log, id) <= 1
            && (id >= |s.accepted| ==> Starts(s.log, id) == 0)
            && (id < |s.accepted| && !s.pending && !s.slots[0].busy && !s.slots[1].busy ==>
                  Starts(s.log, id) == 1 && Closes(s.log, id) == 1)
  {
    InitInv();
    RunKeeps(Init(), es);
    var s := Run(Init(), es);
    hide Run, EntrySound, Starts, Closes;
    assert Balanced(s, id);
  }

  /** Every entry of the log has the contents of its request, and every close follows its start by
      the same worker. */
  lemma LogTellsTheTruth(es: seq<Event>, k: nat)
    requires EnabledRun(Init(), es) && k < |Run(Init(), es).log|
    ensures EntrySound(Run(Init(), es), k)
    ensures var s := Run(Init(), es);
            match s.log[k]
            case Start(id, w, r) => id < |s.accepted| && r == Copied(s.accepted[id])
            case Close(id, w, fd) =>
              id < |s.accepted| && fd == s.accepted[id].fd && exists i | 0 <= i < k ::
                s.log[i].Start? && s.log[i].id == id && s.log[i].worker == w
  {
    hide Run;
    InitInv();
    RunKeeps(Init(), es);
    var s := Run(Init(), es);
    assert EntrySound(s, k);
    if s.log[k].Close? {
      var entry := Start(s.log[k].id, s.log[k].worker, Copied(s.accepted[s.log[k].id]));
      var i :| 0 <= i < k && s.log[..k][i] == entry;
      assert s.log[i] == entry;
    }
  }

  predicate Spares(es: seq<Event>, w: nat) { Finish(w) !in es }

  /** A busy slot is not rewritten until its own worker has finished. */
  lemma {:induction false} BusySlotStays(s: State, es: seq<Event>, w: nat)
    requires Shaped(s) && w < 2 && s.slots[w].busy && EnabledRun(s, es) && Spares(es, w)
    ensures Shaped(Run(s, es)) && Run(s, es).slots[w] == s.slots[w]
    decreases |es|
  {
    if es != [] {
      assert es[0] != Finish(w);
      BusySlotStays(Step(s, es[0]), es[1..], w);
    }
  }

  /** What is left to do: each request passes through at most three more steps. */
  function Work(s: State): nat
    requires Shaped(s)
  {
    (if s.pending then 3 else 0) + WorkIn(s.slots[0], s.phases[0]) + WorkIn(s.slots[1], s.phases[1])
  }

  function WorkIn(slot: Slot, phase: Phase): nat {
    if phase.Handling? then 1 else if slot.busy then 2 else 0
  }

  /** Steps other than new requests only reduce the work, and while there is work one of them does. */
  lemma WorkGoesDown(s: State, e: Event)
    requires Inv(s) && Enabled(s, e) && !e.Offer?
    ensures Step(s, e) == s || Work(Step(s, e)) == Work(s) - 1
  {
    hide Balanced, EntrySound, Copied;
  }

  lemma SomeStepWorks(s: State)
    requires Inv(s) && Work(s) > 0
    ensures exists e: Event :: Enabled(s, e) && !e.Offer? && Work(Step(s, e)) == Work(s) - 1
  {
    hide Balanced, EntrySound, Copied;
    var e := if s.phases[0].Handling? then Finish(0) else if s.phases[1].Handling? then Finish(1)
             else if s.slots[0].busy then Take(0) else if s.slots[1].busy then Take(1) else Alloc;
    assert Enabled(s, e);
    WorkGoesDown(s, e);
    if e.Take? {
      assert Step(s, e).phases[e.worker].Handling?;
    } else if e.Finish? {
      assert Step(s, e).phases[e.worker].Waiting?;
    } else {
      assert !Step(s, e).pending;
    }
  }

  /** With no work left every accepted request was handled and closed once. */
  lemma NoWorkMeansDone(s: State, id: nat)
    requires Inv(s) && Work(s) == 0 && id < |s.accepted|
    ensures Starts(s.log, id) == 1 && Closes(s.log, id) == 1
  {
    hide EntrySound, Starts, Closes;
    assert Balanced(s, id);
  }

  /** Requests that fit the buffers arrive unchanged, longer parts are cut to what fits. */
  lemma FittingRequestsIntact(r: Request)
    ensures |r.buf| < 4096 && |r.url| < 4096 && |r.opt| < 1024 ==> Copied(r) == r
    ensures Copied(r).fd == r.fd && Copied(r).buf <= r.buf && Copied(r).url <= r.url && Copied(r).opt <= r.opt
    ensures |Copied(r).buf| == Min(|r.buf|, 4095) && |Copied(r).url| == Min(|r.url|, 4095)
    ensures |Copied(r).opt| == Min(|r.opt|, 1023)
  {
  }

  // ---- The threads' code -------------------------------------------------------------

  /** threadStruct. */
  class ThreadStr {
    var status: int
    var buf: seq<text>
    var httpUrl: seq<text>
    var opt: seq<text>
    var fd: int

    constructor ()
      ensures status == 0 && buf == [] && httpUrl == [] && opt == [] && fd == 0
    {
      status, buf, httpUrl, opt, fd := 0, [], [], [], 0;
    }

    ghost function Contents(): Request
      reads this
    {
      Request(buf, httpUrl, opt, fd)
    }
  }

  class Pool {
    const first: ThreadStr
    const second: ThreadStr
    ghost var state: State

    ghost predicate Mirrors(t: ThreadStr, slot: Slot)
      reads t
    {
      (t.status != 0 <==> slot.busy) && t.Contents() == slot.request
    }

    ghost predicate Valid()
      reads this, first, second
    {
      first != second && Shaped(state) && Mirrors(first, state.slots[0]) && Mirrors(second, state.slots[1])
    }

    constructor ()
      ensures Valid() && state == Init() && fresh(first) && fresh(second)
    {
      first := new ThreadStr();
      second := new ThreadStr();
      state := Init();
    }

    function Server(i: nat): ThreadStr
      requires i < 2
    {
      if i == 0 then first else second
    }

    /** multi_server_alloctask up to its loop: -1 without a request or a socket. */
    method Enter(buf: Option<seq<text>>, url: Option<seq<text>>, opt: Option<seq<text>>, sockfd: int) returns (ret: int)
      requires Valid() && !state.pending
      modifies this`state
      ensures Valid() && (ret == -1 || ret == 0)
      ensures ret == 0 <==> buf.Some? && url.Some? && opt.Some? && sockfd != 0
      ensures ret == 0 ==>
                state == Step(old(state), Offer(Request(buf.value, url.value, opt.value, sockfd))) && state.pending
      ensures ret == -1 ==> state == old(state)
    {
      if buf.None? || url.None? || opt.None? || sockfd == 0 {
        return -1;
      }
      state := Step(state, Offer(Request(buf.value, url.value, opt.value, sockfd)));
      return 0;
    }

    /** One pass of the loop, under the mutex: fill the first idle slot, if there is one. */
    method AllocPass(buf: seq<text>, url: seq<text>, opt: seq<text>, sockfd: int) returns (done: bool)
      requires Valid() && state.pending && state.accepted[|state.accepted| - 1] == Request(buf, url, opt, sockfd)
      modifies this`state, first, second
      ensures Valid() && state == Step(old(state), Alloc) && (done <==> !state.pending)
      ensures done <==> old(first.status) == 0 || old(second.status) == 0
      ensures old(first.status) == 0 ==>
                first.status == 1 && first.Contents() == Copied(Request(buf, url, opt, sockfd)) &&
                second.status == old(second.status) && second.Contents() == old(second.Contents())
      ensures old(first.status) != 0 ==> first.status == old(first.status) && first.Contents() == old(first.Contents())
      ensures old(first.status) != 0 && old(second.status) == 0 ==>
                second.status == 1 && second.Contents() == Copied(Request(buf, url, opt, sockfd))
      ensures old(first.status) != 0 && old(second.status) != 0 ==>
                second.status == old(second.status) && second.Contents() == old(second.Contents())
    {
      var i := 0;
      while i < 2
        invariant i <= 2 && Valid() && state == old(state)
        invariant forall k | 0 <= k < i :: state.slots[k].busy
      {
        if Server(i).status != 0 {
          i := i + 1;
          continue;
        }
        var t := Server(i);
        t.buf, t.httpUrl, t.opt := Cut(buf, BUF_SIZE), Cut(url, BUF_SIZE), Cut(opt, OPT_SIZE);
        t.fd := sockfd;
        t.status := 1;
        break;
      }
      state := Step(state, Alloc);
      return i < 2;
    }

    /** A worker's look at its own status. */
    method TakeTask(w: nat) returns (ready: bool)
      requires Valid() && Enabled(state, Take(w))
      modifies this`state
      ensures Valid() && state == Step(old(state), Take(w)) && (ready <==> state.phases[w].Handling?)
      ensures ready <==> Server(w).status != 0
    {
      ready := Server(w).status != 0;
      state := Step(state, Take(w));
    }

    /** A worker's second critical section; `closed` is the descriptor passed to close. */
    method FinishTask(w: nat) returns (closed: int)
      requires Valid() && Enabled(state, Finish(w))
      modifies this`state, first, second
      ensures Valid() && state == Step(old(state), Finish(w)) && closed == old(state).slots[w].request.fd
      ensures closed == old(Server(w).fd) && Server(w).status == 0 && Server(1 - w).status == old(Server(1 - w).status)
      ensures first.Contents() == old(first.Contents()) && second.Contents() == old(second.Contents())
    {
      var t := Server(w);
      closed := t.fd;
      t.status := 0;
      state := Step(state, Finish(w));
    }
  }
}
