/**
 The batcher: one loop collects requests into a batch and hands full or old batches to a
 bounded queue; a pool of workers writes batches and answers every request in them. Callbacks
 are channels of capacity one, named here by the request they belong to.
 */
module Batcher {
  import opened Types

  type CallbackId = nat

  datatype Request = Request(writes: seq<Record>, callback: CallbackId)

  datatype Batch = Batch(records: seq<Record>, callbacks: seq<CallbackId>, totalSize: int)

  /** `timer` in batchLoop: nil, a timer that will fire, or one that has fired already. */
  datatype Timer = Off | Armed | Spent

  datatype Worker = Idle | Writing(batch: Batch) | Replying(waiting: seq<CallbackId>, ok: bool)

  datatype Reply = Reply(callback: CallbackId, ok: bool)

  datatype Config = Config(maxBatchBytes: int, maxConcurrent: nat)

  datatype State = State(
    current: Option<Batch>,
    timer: Timer,
    // the batch batchLoop is blocked on sending
    sending: Option<Batch>,
    queue: seq<Batch>,
    // the queue is closed and batchLoop has returned
    closed: bool,
    workers: seq<Worker>,
    replies: seq<Reply>,
    // for the record: requests received, batches workers have taken, what shutdown dropped, which
    // of the taken batches each worker took last, and what writing them answered
    accepted: seq<Request>,
    taken: seq<Batch>,
    dropped: Option<Batch>,
    numbers: seq<nat>,
    outcomes: map<nat, bool>)

  function Init(c: Config): State {
    var workers, numbers := seq(c.maxConcurrent, i => Idle), seq(c.maxConcurrent, i => 0);
    State(None, Off, None, [], false, workers, [], [], [], None, numbers, map[])
  }

  datatype Event =
    | Write(request: Request)
    | TimerFires
    | Deliver
    | Shutdown
    | Take(worker: nat)
    | Written(worker: nat, ok: bool)
    | Notify(worker: nat)

  // ---- batches ----

  function Size(rs: seq<Record>): nat {
    if rs == [] then 0 else Size(rs[..|rs| - 1]) + |rs[|rs| - 1].key| + |rs[|rs| - 1].value|
  }

  const EMPTY_BATCH := Batch([], [], 0)

  function Append(b: Batch, r: Request): Batch {
    Batch(b.records + r.writes, b.callbacks + [r.callback], b.totalSize + Size(r.writes))
  }

  // ---- the steps ----

  predicate AtHead(s: State) {
    !s.closed && s.sending == None
  }

  predicate IsWorker(s: State, w: nat) {
    w < |s.workers| == |s.numbers|
  }

  predicate Enabled(c: Config, s: State, e: Event) {
    match e
    case Write(r) => AtHead(s) && forall q :: q in s.accepted ==> q.callback != r.callback
    case TimerFires => AtHead(s) && s.timer == Armed
    case Deliver => s.sending.Some? && |s.queue| < c.maxConcurrent
    case Shutdown => AtHead(s)
    case Take(w) => IsWorker(s, w) && s.workers[w] == Idle && s.queue != []
    case Written(w, ok) => IsWorker(s, w) && s.workers[w].Writing?
    case Notify(w) => IsWorker(s, w) && s.workers[w].Replying? && s.workers[w].waiting != []
  }

  /** Hand the current batch over. */
  function Flush(s: State, b: Batch): State {
    s.(sending := Some(b), current := None, timer := Off)
  }

  function OnWrite(c: Config, s: State, r: Request): State {
    var b := Append(if s.current.Some? then s.current.value else EMPTY_BATCH, r);
    var s' := s.(accepted := s.accepted + [r], current := Some(b), timer := if s.current.Some? then s.timer else Armed);
    if b.totalSize >= c.maxBatchBytes then Flush(s', b) else s'
  }

  function OnTimer(s: State): State {
    if s.current.Some? && s.current.value.records != [] then Flush(s, s.current.value) else s.(timer := Spent)
  }

  function Answers(callbacks: seq<CallbackId>, ok: bool): (r: seq<Reply>)
    ensures |r| == |callbacks| && forall i :: 0 <= i < |r| ==> r[i] == Reply(callbacks[i], ok)
  {
    seq(|callbacks|, i requires 0 <= i < |callbacks| => Reply(callbacks[i], ok))
  }

  function OnShutdown(s: State): State {
    s.(closed := true, current := None, dropped := s.current,
       replies := s.replies + if s.current.Some? then Answers(s.current.value.callbacks, false) else [])
  }

  function Next(c: Config, s: State, e: Event): State
    requires Enabled(c, s, e)
  {
    match e
    case Write(r) => OnWrite(c, s, r)
    case TimerFires => OnTimer(s)
    case Deliver => s.(queue := s.queue + [s.sending.value], sending := None)
    case Shutdown => OnShutdown(s)
    case Take(w) =>
      s.(workers := s.workers[w := Writing(s.queue[0])], numbers := s.numbers[w := |s.taken|],
         taken := s.taken + [s.queue[0]], queue := s.queue[1..])
    case Written(w, ok) =>
      var waiting := s.workers[w].batch.callbacks;
      s.(workers := s.workers[w := if waiting == [] then Idle else Replying(waiting, ok)],
         outcomes := s.outcomes[s.numbers[w] := ok])
    case Notify(w) =>
      var Replying(waiting, ok) := s.workers[w];
      s.(replies := s.replies + [Reply(waiting[0], ok)],
         workers := s.workers[w := if |waiting| == 1 then Idle else Replying(waiting[1..], ok)])
  }

  function Run(c: Config, events: seq<Event>): Option<State> {
    if events == [] then Some(Init(c)) else
    match Run(c, events[..|events| - 1])
    case None => None
    case Some(s) =>
      var e := events[|events| - 1];
      if Enabled(c, s, e) then Some(Next(c, s, e)) else None
  }

  lemma RunStep(c: Config, events: seq<Event>, e: Event)
    requires Run(c, events).Some? && Enabled(c, Run(c, events).value, e)
    ensures Run(c, events + [e]) == Some(Next(c, Run(c, events).value, e))
  {
    hide Enabled, Next;
    assert (events + [e])[..|events|] == events;
  }

  // ---- where the callbacks are ----

  function Waiting(w: Worker): seq<CallbackId> {
    match w
    case Idle => []
    case Writing(b) => b.callbacks
    case Replying(waiting, _) => waiting
  }

  function Count(callbacks: seq<CallbackId>, x: CallbackId): nat {
    if callbacks == [] then 0 else
    Count(callbacks[..|callbacks| - 1], x) + if callbacks[|callbacks| - 1] == x then 1 else 0
  }

  function Held(workers: seq<Worker>, x: CallbackId): nat {
    if workers == [] then 0 else Held(workers[..|workers| - 1], x) + Count(Waiting(workers[|workers| - 1]), x)
  }

  function Queued(batches: seq<Batch>, x: CallbackId): nat {
    if batches == [] then 0 else Queued(batches[..|batches| - 1], x) + Count(batches[|batches| - 1].callbacks, x)
  }

  function InBatch(b: Option<Batch>, x: CallbackId): nat {
    if b.Some? then Count(b.value.callbacks, x) else 0
  }

  function Replied(rs: seq<Reply>, x: CallbackId): nat {
    if rs == [] then 0 else Replied(rs[..|rs| - 1], x) + if rs[|rs| - 1].callback == x then 1 else 0
  }

  function Received(rs: seq<Request>, x: CallbackId): nat {
    if rs == [] then 0 else Received(rs[..|rs| - 1], x) + if rs[|rs| - 1].callback == x then 1 else 0
  }

  /** How many times `x` is in the current batch, on its way to the queue, in it, with a worker, or answered. */
  function Places(s: State, x: CallbackId): nat {
    InBatch(s.current, x) + InBatch(s.sending, x) + Queued(s.queue, x) + Held(s.workers, x) + Replied(s.replies, x)
  }

  lemma {:induction false} CountConcat(a: seq<CallbackId>, b: seq<CallbackId>, x: CallbackId)
    ensures Count(a + b, x) == Count(a, x) + Count(b, x)
  {
    if b == [] {
      assert a + b == a;
    } else {
      assert (a + b)[..|a + b| - 1] == a + b[..|b| - 1];
      CountConcat(a, b[..|b| - 1], x);
    }
  }

  lemma {:induction false} HeldUpdate(workers: seq<Worker>, w: nat, v: Worker, x: CallbackId)
    requires w < |workers|
    ensures Held(workers[w := v], x) == Held(workers, x) - Count(Waiting(workers[w]), x) + Count(Waiting(v), x)
  {
    hide Count, Waiting;
    var n := |workers| - 1;
    if w == n {
      assert workers[w := v][..n] == workers[..n];
    } else {
      assert workers[w := v][..n] == workers[..n][w := v];
      HeldUpdate(workers[..n], w, v, x);
    }
  }

  lemma {:induction false} QueuedConcat(a: seq<Batch>, b: seq<Batch>, x: CallbackId)
    ensures Queued(a + b, x) == Queued(a, x) + Queued(b, x)
  {
    if b == [] {
      assert a + b == a;
    } else {
      assert (a + b)[..|a + b| - 1] == a + b[..|b| - 1];
      QueuedConcat(a, b[..|b| - 1], x);
    }
  }

  lemma QueuedOne(b: Batch, x: CallbackId)
    ensures Queued([b], x) == Count(b.callbacks, x)
  {
    assert [b][..0] == [];
  }

  lemma {:induction false} RepliedConcat(a: seq<Reply>, b: seq<Reply>, x: CallbackId)
    ensures Replied(a + b, x) == Replied(a, x) + Replied(b, x)
  {
    if b == [] {
      assert a + b == a;
    } else {
      assert (a + b)[..|a + b| - 1] == a + b[..|b| - 1];
      RepliedConcat(a, b[..|b| - 1], x);
    }
  }

  lemma {:induction false} RepliedAnswers(callbacks: seq<CallbackId>, ok: bool, x: CallbackId)
    ensures Replied(Answers(callbacks, ok), x) == Count(callbacks, x)
  {
    if callbacks != [] {
      var init := callbacks[..|callbacks| - 1];
      RepliedAnswers(init, ok, x);
      assert Answers(callbacks, ok)[..|init|] == Answers(init, ok);
    }
  }

  /** The head of a list and the rest of it. */
  lemma CountHead(callbacks: seq<CallbackId>, x: CallbackId)
    requires callbacks != []
    ensures Count(callbacks, x) == (if callbacks[0] == x then 1 else 0) + Count(callbacks[1..], x)
  {
    assert callbacks == [callbacks[0]] + callbacks[1..];
    CountConcat([callbacks[0]], callbacks[1..], x);
    assert [callbacks[0]][..0] == [];
  }

  // ---- every callback is in exactly one place ----

  lemma NotifyConserves(c: Config, s: State, w: nat, x: CallbackId)
    requires Enabled(c, s, Notify(w))
    ensures Places(Next(c, s, Notify(w)), x) == Places(s, x)
  {
    hide Count, Held, Queued, Replied;
    var s', waiting := Next(c, s, Notify(w)), s.workers[w].waiting;
    var reply := Reply(waiting[0], s.workers[w].ok);
    HeldUpdate(s.workers, w, s'.workers[w], x);
    CountHead(waiting, x);
    RepliedConcat(s.replies, [reply], x);
    RepliedAnswers([waiting[0]], s.workers[w].ok, x);
    assert Answers([waiting[0]], s.workers[w].ok) == [reply];
    CountOne(waiting[0], x);
    NoCallbacks(x);
    assert |waiting| == 1 ==> waiting[1..] == [];
  }

  lemma CountOne(y: CallbackId, x: CallbackId)
    ensures Count([y], x) == if y == x then 1 else 0
  {
    assert [y][..0] == [];
  }

  lemma NoCallbacks(x: CallbackId)
    ensures Count([], x) == 0
  {
  }

  /** No step loses, duplicates or invents a callback. */
  lemma StepConserves(c: Config, s: State, e: Event, x: CallbackId)
    requires Enabled(c, s, e)
    ensures Places(Next(c, s, e), x) == Places(s, x) + if e.Write? && e.request.callback == x then 1 else 0
  {
    hide Count, Held, Queued, Replied, Size, Waiting;
    NoCallbacks(x);
    match e
    case Write(r) =>
      var b := if s.current.Some? then s.current.value else EMPTY_BATCH;
      CountConcat(b.callbacks, [r.callback], x);
      CountOne(r.callback, x);
    case TimerFires =>
    case Deliver =>
      QueuedConcat(s.queue, [s.sending.value], x);
      QueuedOne(s.sending.value, x);
    case Shutdown => ShutdownConserves(c, s, x);
    case Take(w) => TakeConserves(c, s, w, x);
    case Written(w, ok) => WrittenConserves(c, s, w, ok, x);
    case Notify(w) => NotifyConserves(c, s, w, x);
  }

  lemma ShutdownConserves(c: Config, s: State, x: CallbackId)
    requires Enabled(c, s, Shutdown)
    ensures Places(Next(c, s, Shutdown), x) == Places(s, x)
  {
    hide Count, Held, Queued, Replied, Answers;
    if s.current.Some? {
      RepliedConcat(s.replies, Answers(s.current.value.callbacks, false), x);
      RepliedAnswers(s.current.value.callbacks, false, x);
    } else {
      assert s.replies + [] == s.replies;
    }
  }

  lemma TakeConserves(c: Config, s: State, w: nat, x: CallbackId)
    requires Enabled(c, s, Take(w))
    ensures Places(Next(c, s, Take(w)), x) == Places(s, x)
  {
    hide Count, Held, Queued, Replied;
    NoCallbacks(x);
    assert s.queue == [s.queue[0]] + s.queue[1..];
    QueuedConcat([s.queue[0]], s.queue[1..], x);
    QueuedOne(s.queue[0], x);
    HeldUpdate(s.workers, w, Writing(s.queue[0]), x);
  }

  lemma WrittenConserves(c: Config, s: State, w: nat, ok: bool, x: CallbackId)
    requires Enabled(c, s, Written(w, ok))
    ensures Places(Next(c, s, Written(w, ok)), x) == Places(s, x)
  {
    hide Count, Held, Queued, Replied;
    NoCallbacks(x);
    HeldUpdate(s.workers, w, Next(c, s, Written(w, ok)).workers[w], x);
  }

  lemma {:induction false} RunConserves(c: Config, events: seq<Event>, x: CallbackId)
    requires Run(c, events).Some?
    ensures Places(Run(c, events).value, x) == Received(Run(c, events).value.accepted, x) <= 1
  {
    hide Places, Next, Enabled;
    if events == [] {
      InitConserves(c, x);
    } else {
      RunConserves(c, events[..|events| - 1], x);
      var s, e := Run(c, events[..|events| - 1]).value, events[|events| - 1];
      StepConserves(c, s, e, x);
      StepReceives(c, s, e, x);
    }
  }

  lemma {:induction false} NobodyHolds(workers: seq<Worker>, x: CallbackId)
    requires forall i :: 0 <= i < |workers| ==> workers[i] == Idle
    ensures Held(workers, x) == 0
  {
    if workers != [] {
      NobodyHolds(workers[..|workers| - 1], x);
    }
  }

  lemma InitConserves(c: Config, x: CallbackId)
    ensures Places(Init(c), x) == 0 == Received(Init(c).accepted, x)
  {
    NobodyHolds(Init(c).workers, x);
  }

  lemma {:induction false} NotReceived(rs: seq<Request>, x: CallbackId)
    requires forall q :: q in rs ==> q.callback != x
    ensures Received(rs, x) == 0
  {
    if rs != [] {
      NotReceived(rs[..|rs| - 1], x);
    }
  }

  lemma ReceivedOneMore(rs: seq<Request>, r: Request, x: CallbackId)
    ensures Received(rs + [r], x) == Received(rs, x) + if r.callback == x then 1 else 0
  {
    assert (rs + [r])[..|rs|] == rs;
  }

  lemma {:induction false} StepReceives(c: Config, s: State, e: Event, x: CallbackId)
    requires Enabled(c, s, e) && Received(s.accepted, x) <= 1
    ensures Received(Next(c, s, e).accepted, x) == Received(s.accepted, x) +
        if e.Write? && e.request.callback == x then 1 else 0
    ensures Received(Next(c, s, e).accepted, x) <= 1
  {
    hide Size, Append, Received;
    if e.Write? {
      ReceivedOneMore(s.accepted, e.request, x);
      if e.request.callback == x {
        NotReceived(s.accepted, x);
      }
    }
  }

  lemma {:induction false} ReceivedMember(rs: seq<Request>, q: Request)
    requires q in rs
    ensures Received(rs, q.callback) >= 1
  {
    if rs[|rs| - 1] != q {
      ReceivedMember(rs[..|rs| - 1], q);
    }
  }

  lemma {:induction false} RepliedMember(rs: seq<Reply>, x: CallbackId, i: nat)
    requires i < |rs| && rs[i].callback == x
    ensures Replied(rs, x) >= 1
    ensures Replied(rs, x) == 1 ==> forall j :: 0 <= j < |rs| && rs[j].callback == x ==> j == i
  {
    var n := |rs| - 1;
    if i < n {
      RepliedMember(rs[..n], x, i);
      assert rs[..n][i] == rs[i];
    }
    forall j | Replied(rs, x) == 1 && 0 <= j < n && rs[j].callback == x
      ensures j == i
    {
      if i == n {
        RepliedMember(rs[..n], x, j);
      }
    }
  }

  /**
   In every reachable state, shutdown included, each accepted request's callback is in exactly
   one place, a callback nobody handed in is nowhere, and no callback has been answered twice:
   a send on a callback channel never finds it full.
   */
  lemma ExactlyOneReply(c: Config, events: seq<Event>)
    requires Run(c, events).Some?
    ensures var s := Run(c, events).value;
            && (forall q :: q in s.accepted ==> Places(s, q.callback) == 1)
            && (forall x :: Places(s, x) == 0 || exists q :: q in s.accepted && q.callback == x)
            && (forall i, j | 0 <= i < |s.replies| && 0 <= j < |s.replies| ::
                s.replies[i].callback == s.replies[j].callback ==> i == j)
    ensures forall w: nat :: Enabled(c, Run(c, events).value, Notify(w)) ==>
              forall i :: 0 <= i < |Run(c, events).value.replies| ==>
                Run(c, events).value.replies[i].callback != Run(c, events).value.workers[w].waiting[0]
  {
    hide Places, Run, Received, Replied;
    var s := Run(c, events).value;
    forall q | q in s.accepted
      ensures Places(s, q.callback) == 1
    {
      RunConserves(c, events, q.callback);
      ReceivedMember(s.accepted, q);
    }
    forall x
      ensures Places(s, x) == 0 || exists q :: q in s.accepted && q.callback == x
    {
      RunConserves(c, events, x);
      if forall q :: q in s.accepted ==> q.callback != x {
        NotReceived(s.accepted, x);
      }
    }
    NoSecondReply(c, events, s);
  }

  lemma NoSecondReply(c: Config, events: seq<Event>, s: State)
    requires Run(c, events) == Some(s)
    ensures forall i, j | 0 <= i < |s.replies| && 0 <= j < |s.replies| ::
              s.replies[i].callback == s.replies[j].callback ==> i == j
    ensures forall w: nat :: Enabled(c, s, Notify(w)) ==>
              forall i :: 0 <= i < |s.replies| ==> s.replies[i].callback != s.workers[w].waiting[0]
  {
    hide Run, Received, Replied, Held, Queued, Count, Next;
    forall i, j | 0 <= i < |s.replies| && 0 <= j < |s.replies| && s.replies[i].callback == s.replies[j].callback
      ensures i == j
    {
      RunConserves(c, events, s.replies[i].callback);
      RepliedMember(s.replies, s.replies[i].callback, i);
    }
    forall w: nat, i | Enabled(c, s, Notify(w)) && 0 <= i < |s.replies|
      ensures s.replies[i].callback != s.workers[w].waiting[0]
    {
      var x := s.workers[w].waiting[0];
      RunConserves(c, events, x);
      HeldMember(s.workers, w, x);
      if s.replies[i].callback == x {
        RepliedMember(s.replies, x, i);
      }
    }
  }

  lemma {:induction false} HeldMember(workers: seq<Worker>, w: nat, x: CallbackId)
    requires w < |workers| && Waiting(workers[w]) != [] && Waiting(workers[w])[0] == x
    ensures Held(workers, x) >= 1
  {
    if w == |workers| - 1 {
      CountHead(Waiting(workers[w]), x);
    } else {
      HeldMember(workers[..|workers| - 1], w, x);
    }
  }

  // ---- which batch holds which requests ----

  function Writes(rs: seq<Request>): seq<Record> {
    if rs == [] then [] else Writes(rs[..|rs| - 1]) + rs[|rs| - 1].writes
  }

  function Callbacks(rs: seq<Request>): (c: seq<CallbackId>)
    ensures |c| == |rs| && forall i :: 0 <= i < |rs| ==> c[i] == rs[i].callback
  {
    seq(|rs|, i requires 0 <= i < |rs| => rs[i].callback)
  }

  /** The batch is made of exactly these requests, in this order. */
  predicate IsBatchOf(b: Batch, rs: seq<Request>) {
    rs != [] && b.records == Writes(rs) && b.callbacks == Callbacks(rs)
  }

  /** The batches, one after the other, are made of the requests, one after the other. */
  predicate Matches(bs: seq<Batch>, rs: seq<Request>) {
    if bs == [] then rs == [] else
    var last, n := bs[|bs| - 1], |bs[|bs| - 1].callbacks|;
    n <= |rs| && IsBatchOf(last, rs[|rs| - n..]) && Matches(bs[..|bs| - 1], rs[..|rs| - n])
  }

  lemma MatchesOneMore(bs: seq<Batch>, rs: seq<Request>, b: Batch, more: seq<Request>)
    requires Matches(bs, rs) && IsBatchOf(b, more)
    ensures Matches(bs + [b], rs + more)
  {
    hide IsBatchOf;
    assert |more| == |b.callbacks| by {
      BatchLength(b, more);
    }
    assert (bs + [b])[..|bs|] == bs && (rs + more)[|rs|..] == more && (rs + more)[..|rs|] == rs;
  }

  lemma BatchLength(b: Batch, rs: seq<Request>)
    requires IsBatchOf(b, rs)
    ensures |rs| == |b.callbacks|
  {
  }

  lemma WritesStep(rs: seq<Request>, r: Request)
    ensures Writes(rs + [r]) == Writes(rs) + r.writes
  {
    assert (rs + [r])[..|rs|] == rs;
  }

  lemma AppendIsBatchOf(b: Batch, rs: seq<Request>, r: Request)
    requires IsBatchOf(b, rs) || (rs == [] && b == EMPTY_BATCH)
    ensures IsBatchOf(Append(b, r), rs + [r])
  {
    WritesStep(rs, r);
  }

  lemma {:induction false} MatchesApart(bs: seq<Batch>, b: Batch, rs: seq<Request>)
    requires Matches(bs + [b], rs)
    ensures var m := |rs| - |b.callbacks|;
            m >= 0 && IsBatchOf(b, rs[m..]) && Matches(bs, rs[..m])
  {
    hide IsBatchOf;
    assert (bs + [b])[..|bs|] == bs;
  }

  /** A request that joins the last batch. */
  lemma LastGrows(bs: seq<Batch>, b: Batch, rs: seq<Request>, r: Request)
    requires Matches(bs + [b], rs)
    ensures Matches(bs + [Append(b, r)], rs + [r])
  {
    hide IsBatchOf, Append, Matches;
    var m := |rs| - |b.callbacks|;
    MatchesApart(bs, b, rs);
    AppendIsBatchOf(b, rs[m..], r);
    MatchesOneMore(bs, rs[..m], Append(b, r), rs[m..] + [r]);
    assert rs[..m] + (rs[m..] + [r]) == rs + [r];
  }

  function Offset(bs: seq<Batch>): nat {
    if bs == [] then 0 else Offset(bs[..|bs| - 1]) + |bs[|bs| - 1].callbacks|
  }

  lemma {:induction false} OffsetMonotone(bs: seq<Batch>, n: nat, m: nat)
    requires n <= m <= |bs|
    ensures Offset(bs[..n]) <= Offset(bs[..m])
    decreases m
  {
    if n < m {
      assert bs[..m][..m - 1] == bs[..m - 1];
      OffsetMonotone(bs, n, m - 1);
    }
  }

  /** Batch `n` is made of the requests after those of the batches before it. */
  lemma {:induction false} MatchesAt(bs: seq<Batch>, rs: seq<Request>, n: nat) returns (lo: nat, hi: nat)
    requires Matches(bs, rs) && n < |bs|
    ensures lo == Offset(bs[..n]) && hi == Offset(bs[..n + 1])
    ensures lo < hi <= |rs| && IsBatchOf(bs[n], rs[lo..hi])
    decreases |bs|
  {
    hide IsBatchOf, Offset;
    var last := |bs| - 1;
    var m := |rs| - |bs[last].callbacks|;
    MatchesLength(bs[..last], rs[..m]);
    MatchesLength(bs, rs);
    if n == last {
      lo, hi := m, |rs|;
      assert bs[..n + 1] == bs && rs[lo..hi] == rs[m..];
      NotEmpty(bs[last], rs[m..]);
    } else {
      lo, hi := MatchesAt(bs[..last], rs[..m], n);
      assert bs[..last][..n] == bs[..n] && bs[..last][..n + 1] == bs[..n + 1] && rs[..m][lo..hi] == rs[lo..hi];
    }
  }

  lemma NotEmpty(b: Batch, rs: seq<Request>)
    requires IsBatchOf(b, rs)
    ensures rs != []
  {
  }

  lemma {:induction false} MatchesLength(bs: seq<Batch>, rs: seq<Request>)
    requires Matches(bs, rs)
    ensures |rs| == Offset(bs)
    decreases |bs|
  {
    hide IsBatchOf;
    if bs != [] {
      MatchesLength(bs[..|bs| - 1], rs[..|rs| - |bs[|bs| - 1].callbacks|]);
    }
  }

  predicate Distinct(rs: seq<Request>) {
    forall i, j :: 0 <= i < j < |rs| ==> rs[i].callback != rs[j].callback
  }

  /** The request a callback of the batch belongs to. */
  lemma PlaceOf(b: Batch, rs: seq<Request>, lo: nat, hi: nat, x: CallbackId) returns (i: nat)
    requires lo <= hi <= |rs| && IsBatchOf(b, rs[lo..hi]) && x in b.callbacks
    ensures lo <= i < hi && rs[i].callback == x
  {
    hide Writes;
    var k :| 0 <= k < |b.callbacks| && b.callbacks[k] == x;
    i := lo + k;
    assert rs[lo..hi][k] == rs[i];
  }

  lemma CallbackAt(b: Batch, rs: seq<Request>, lo: nat, hi: nat, i: nat)
    requires lo <= i < hi <= |rs| && IsBatchOf(b, rs[lo..hi])
    ensures rs[i].callback in b.callbacks
  {
    hide Writes;
    assert rs[lo..hi][i - lo] == rs[i];
    assert b.callbacks[i - lo] == rs[i].callback;
  }

  /** A callback is in one batch only. */
  lemma OneBatchEach(bs: seq<Batch>, rs: seq<Request>, n: nat, m: nat, x: CallbackId)
    requires Matches(bs, rs) && Distinct(rs) && n < |bs| && m < |bs|
    requires x in bs[n].callbacks && x in bs[m].callbacks
    ensures n == m
  {
    hide Offset, Matches, IsBatchOf;
    var a, b := MatchesAt(bs, rs, n);
    var c, d := MatchesAt(bs, rs, m);
    var i := PlaceOf(bs[n], rs, a, b, x);
    var j := PlaceOf(bs[m], rs, c, d, x);
    if n < m {
      OffsetMonotone(bs, n + 1, m);
    } else if m < n {
      OffsetMonotone(bs, m + 1, n);
    }
  }

  function Opt(b: Option<Batch>): seq<Batch> {
    if b.Some? then [b.value] else []
  }

  /** Batches taken, queued, on their way, collecting and dropped, one after the other. */
  function AllBatches(s: State): seq<Batch> {
    s.taken + s.queue + Opt(s.sending) + Opt(s.current) + Opt(s.dropped)
  }

  /** Dropping happens only once the loop is over, and every batch is made of a stretch of the requests. */
  predicate Orderly(s: State) {
    && (s.closed ==> s.current == None && s.sending == None)
    && (!s.closed ==> s.dropped == None)
    && (s.sending.Some? ==> s.current == None)
    && Distinct(s.accepted)
    && Matches(AllBatches(s), s.accepted)
  }

  lemma StepOrderly(c: Config, s: State, e: Event)
    requires Enabled(c, s, e) && Orderly(s)
    ensures Orderly(Next(c, s, e))
  {
    hide Matches, Size, Append, AllBatches, Distinct;
    if e.Write? {
      WriteOrderly(c, s, e.request);
    } else {
      SameBatches(c, s, e);
    }
  }

  /** Batches change places and nothing else, unless a request comes in. */
  lemma SameBatches(c: Config, s: State, e: Event)
    requires Enabled(c, s, e) && !e.Write?
    requires (!s.closed ==> s.dropped == None) && (s.sending.Some? ==> s.current == None)
    ensures AllBatches(Next(c, s, e)) == AllBatches(s)
  {
    Regroup(s.taken, s.queue, Opt(s.sending), Opt(s.current));
    if e.Take? {
      assert s.queue == [s.queue[0]] + s.queue[1..];
      Moved(s.taken, s.queue[0], s.queue[1..], Opt(s.sending), Opt(s.current), Opt(s.dropped));
    }
  }

  lemma Regroup(t: seq<Batch>, q: seq<Batch>, x: seq<Batch>, y: seq<Batch>)
    ensures t + q + [] + y + [] == t + q + y + [] + [] == t + q + [] + [] + y
    ensures t + q + x + [] + [] == t + (q + x) + [] + [] + []
  {
  }

  lemma Moved(t: seq<Batch>, b: Batch, q: seq<Batch>, x: seq<Batch>, y: seq<Batch>, z: seq<Batch>)
    ensures t + ([b] + q) + x + y + z == (t + [b]) + q + x + y + z
  {
  }

  lemma WriteOrderly(c: Config, s: State, r: Request)
    requires Enabled(c, s, Write(r)) && Orderly(s)
    ensures Orderly(Next(c, s, Write(r)))
  {
    hide Matches, Size, Append;
    var before, s' := s.taken + s.queue, Next(c, s, Write(r));
    var b := Append(if s.current.Some? then s.current.value else EMPTY_BATCH, r);
    assert AllBatches(s') == before + [b];
    assert AllBatches(s) == before + Opt(s.current);
    if s.current.Some? {
      LastGrows(before, s.current.value, s.accepted, r);
    } else {
      AppendIsBatchOf(EMPTY_BATCH, [], r);
      assert before + [] == before && [] + [r] == [r];
      MatchesOneMore(before, s.accepted, b, [r]);
    }
  }

  function Records(batches: seq<Batch>): seq<Record> {
    if batches == [] then [] else Records(batches[..|batches| - 1]) + batches[|batches| - 1].records
  }

  lemma {:induction false} WritesConcat(a: seq<Request>, b: seq<Request>)
    ensures Writes(a + b) == Writes(a) + Writes(b)
  {
    if b == [] {
      assert a + b == a;
    } else {
      assert (a + b)[..|a + b| - 1] == a + b[..|b| - 1];
      WritesConcat(a, b[..|b| - 1]);
    }
  }

  lemma {:induction false} MatchingRecords(bs: seq<Batch>, rs: seq<Request>)
    requires Matches(bs, rs)
    ensures Records(bs) == Writes(rs)
    decreases |bs|
  {
    hide Writes;
    if bs == [] {
      NoWrites();
    } else {
      var m := |rs| - |bs[|bs| - 1].callbacks|;
      MatchingRecords(bs[..|bs| - 1], rs[..m]);
      WritesConcat(rs[..m], rs[m..]);
      assert rs == rs[..m] + rs[m..];
    }
  }

  lemma NoWrites()
    ensures Writes([]) == []
  {
  }

  /**
   Every batch, wherever it is, is made of a stretch of consecutive requests, records and
   callbacks alike, and the stretches follow one another: no record is lost, moved between
   batches or parted from its callback.
   */
  lemma {:induction false} RecordsInArrivalOrder(c: Config, events: seq<Event>)
    requires Run(c, events).Some?
    ensures Orderly(Run(c, events).value)
    ensures Records(AllBatches(Run(c, events).value)) == Writes(Run(c, events).value.accepted)
  {
    hide Next, Enabled, Orderly, Matches, Records, Writes, AllBatches;
    if events == [] {
      InitOrderly(c);
    } else {
      RecordsInArrivalOrder(c, events[..|events| - 1]);
      StepOrderly(c, Run(c, events[..|events| - 1]).value, events[|events| - 1]);
    }
    OrderlyMatches(Run(c, events).value);
    MatchingRecords(AllBatches(Run(c, events).value), Run(c, events).value.accepted);
  }

  lemma InitOrderly(c: Config)
    ensures Orderly(Init(c))
  {
  }

  lemma OrderlyMatches(s: State)
    requires Orderly(s)
    ensures Matches(AllBatches(s), s.accepted) && Distinct(s.accepted)
  {
  }

  /** batchLoop never sends on the queue it has closed. */
  lemma {:induction false} NoSendAfterClose(c: Config, events: seq<Event>)
    requires Run(c, events).Some?
    ensures var s := Run(c, events).value;
            Enabled(c, s, Deliver) || s.sending.Some? ==> !s.closed
  {
    hide Run;
    RecordsInArrivalOrder(c, events);
  }

  // ---- what the replies say ----

  /** A busy worker is at the batch it took last: not written yet, or written with this answer. */
  predicate AtWork(s: State, w: nat)
    requires IsWorker(s, w)
  {
    var n := s.numbers[w];
    match s.workers[w]
    case Idle => true
    case Writing(b) => n < |s.taken| && s.taken[n] == b && n !in s.outcomes
    case Replying(waiting, ok) =>
      n < |s.taken| && n in s.outcomes && s.outcomes[n] == ok && forall x :: x in waiting ==> x in s.taken[n].callbacks
  }

  /** The reply is the outcome of a batch with its callback in it, or the refusal of a dropped one. */
  predicate Told(s: State, r: Reply) {
    || (exists n :: n in s.outcomes && n < |s.taken| && s.outcomes[n] == r.ok && r.callback in s.taken[n].callbacks)
    || (s.dropped.Some? && !r.ok && r.callback in s.dropped.value.callbacks)
  }

  predicate Honest(s: State) {
    && |s.numbers| == |s.workers|
    && (forall w :: 0 <= w < |s.workers| ==> AtWork(s, w))
    && (forall v, w :: 0 <= v < w < |s.workers| && s.workers[v].Writing? && s.workers[w].Writing? ==>
        s.numbers[v] != s.numbers[w])
    && (forall n :: n in s.outcomes ==> n < |s.taken|)
    && (forall r :: r in s.replies ==> Told(s, r))
  }

  lemma StepHonest(c: Config, s: State, e: Event)
    requires Enabled(c, s, e) && Honest(s) && Orderly(s)
    ensures Honest(Next(c, s, e))
  {
    hide Matches, Size, Append, AllBatches, Distinct;
    var s' := Next(c, s, e);
    match e
    case Write(r) => SameWork(s, s');
    case TimerFires => SameWork(s, s');
    case Deliver => SameWork(s, s');
    case Shutdown => ShutdownHonest(c, s);
    case Take(w) => TakeHonest(c, s, w);
    case Written(w, ok) => WrittenHonest(c, s, w, ok);
    case Notify(w) => NotifyHonest(c, s, w);
  }

  lemma SameWork(s: State, s': State)
    requires Honest(s)
    requires s'.workers == s.workers && s'.numbers == s.numbers && s'.outcomes == s.outcomes
    requires s'.taken == s.taken && s'.replies == s.replies && s'.dropped == s.dropped
    ensures Honest(s')
  {
    forall w | 0 <= w < |s.workers|
      ensures AtWork(s', w)
    {
      assert AtWork(s, w);
    }
    SameTold(s, s', s.replies);
  }

  lemma SameTold(s: State, s': State, rs: seq<Reply>)
    requires forall r :: r in rs ==> Told(s, r)
    requires s.taken <= s'.taken && (s.dropped.Some? ==> s'.dropped == s.dropped)
    requires forall n :: n in s.outcomes ==> n in s'.outcomes && s'.outcomes[n] == s.outcomes[n]
    ensures forall r :: r in rs ==> Told(s', r)
  {
    forall r | r in rs
      ensures Told(s', r)
    {
      assert Told(s, r);
      if n :| n in s.outcomes && n < |s.taken| && s.outcomes[n] == r.ok && r.callback in s.taken[n].callbacks {
        assert n in s'.outcomes && s'.taken[n] == s.taken[n];
      }
    }
  }

  lemma ShutdownHonest(c: Config, s: State)
    requires Enabled(c, s, Shutdown) && Honest(s) && Orderly(s)
    ensures Honest(Next(c, s, Shutdown))
  {
    hide Orderly, Told;
    var s' := Next(c, s, Shutdown);
    assert s.dropped == None by {
      OpenDropsNothing(s);
    }
    forall w | 0 <= w < |s.workers|
      ensures AtWork(s', w)
    {
      assert AtWork(s, w);
    }
    SameTold(s, s', s.replies);
    if s.current.Some? {
      forall r | r in Answers(s.current.value.callbacks, false)
        ensures Told(s', r)
      {
        DroppedTold(s', r);
      }
    }
  }

  lemma OpenDropsNothing(s: State)
    requires Orderly(s) && !s.closed
    ensures s.dropped == None
  {
  }

  lemma DroppedTold(s: State, r: Reply)
    requires s.dropped.Some? && r in Answers(s.dropped.value.callbacks, false)
    ensures Told(s, r)
  {
  }

  lemma TakeHonest(c: Config, s: State, w: nat)
    requires Enabled(c, s, Take(w)) && Honest(s)
    ensures Honest(Next(c, s, Take(w)))
  {
    hide Told;
    var s' := Next(c, s, Take(w));
    forall v | 0 <= v < |s.workers|
      ensures AtWork(s', v)
    {
      assert AtWork(s, v);
    }
    forall v | 0 <= v < |s.workers| && v != w && s.workers[v].Writing?
      ensures s.numbers[v] < |s.taken|
    {
      assert AtWork(s, v);
    }
    SameTold(s, s', s.replies);
  }

  lemma WrittenHonest(c: Config, s: State, w: nat, ok: bool)
    requires Enabled(c, s, Written(w, ok)) && Honest(s)
    ensures Honest(Next(c, s, Written(w, ok)))
  {
    hide Told;
    var s' := Next(c, s, Written(w, ok));
    assert AtWork(s, w);
    forall v | 0 <= v < |s.workers|
      ensures AtWork(s', v)
    {
      assert AtWork(s, v);
    }
    SameTold(s, s', s.replies);
  }

  lemma NotifyHonest(c: Config, s: State, w: nat)
    requires Enabled(c, s, Notify(w)) && Honest(s)
    ensures Honest(Next(c, s, Notify(w)))
  {
    hide Told;
    var s' := Next(c, s, Notify(w));
    assert AtWork(s, w);
    forall v | 0 <= v < |s.workers|
      ensures AtWork(s', v)
    {
      assert AtWork(s, v);
    }
    SameTold(s, s', s.replies);
    NotifiedTold(s', Reply(s.workers[w].waiting[0], s.workers[w].ok), s.numbers[w]);
  }

  lemma NotifiedTold(s: State, r: Reply, n: nat)
    requires n in s.outcomes && n < |s.taken| && s.outcomes[n] == r.ok && r.callback in s.taken[n].callbacks
    ensures Told(s, r)
  {
  }

  lemma {:induction false} RunHonest(c: Config, events: seq<Event>)
    requires Run(c, events).Some?
    ensures Honest(Run(c, events).value)
  {
    hide Next, Enabled, Orderly, Honest, Matches, AllBatches, Records, Writes;
    if events == [] {
      InitHonest(c);
    } else {
      RunHonest(c, events[..|events| - 1]);
      RecordsInArrivalOrder(c, events[..|events| - 1]);
      StepHonest(c, Run(c, events[..|events| - 1]).value, events[|events| - 1]);
    }
  }

  lemma InitHonest(c: Config)
    ensures Honest(Init(c))
  {
  }

  /** Request `i` was put into the batch, its records and its callback, with its neighbours. */
  predicate Carries(s: State, b: Batch, i: nat)
    requires i < |s.accepted|
  {
    exists lo, hi :: 0 <= lo <= i < hi <= |s.accepted| && IsBatchOf(b, s.accepted[lo..hi])
  }

  /** Request `i` is in the `n`-th taken batch, and writing that batch answered `ok`. */
  predicate DecidedBy(s: State, n: nat, i: nat, ok: bool)
    requires i < |s.accepted|
  {
    n < |s.taken| && n in s.outcomes && s.outcomes[n] == ok && Carries(s, s.taken[n], i)
  }

  /** The batch with request `i` in it was dropped at shutdown. */
  predicate DroppedWith(s: State, i: nat)
    requires i < |s.accepted|
  {
    s.dropped.Some? && Carries(s, s.dropped.value, i)
  }

  lemma CarriesIs(s: State, n: nat, i: nat)
    requires Orderly(s) && n < |AllBatches(s)| && i < |s.accepted|
    ensures Carries(s, AllBatches(s)[n], i) <==> s.accepted[i].callback in AllBatches(s)[n].callbacks
  {
    hide Matches, AllBatches, IsBatchOf;
    var b := AllBatches(s)[n];
    var lo, hi := MatchesAt(AllBatches(s), s.accepted, n);
    if s.accepted[i].callback in b.callbacks {
      var k := PlaceOf(b, s.accepted, lo, hi, s.accepted[i].callback);
      assert i == k;
    }
    if Carries(s, b, i) {
      var l, h :| 0 <= l <= i < h <= |s.accepted| && IsBatchOf(b, s.accepted[l..h]);
      CallbackAt(b, s.accepted, l, h, i);
    }
  }

  lemma PlaceOfDropped(s: State) returns (n: nat)
    requires s.dropped.Some?
    ensures n < |AllBatches(s)| && AllBatches(s)[n] == s.dropped.value && n >= |s.taken|
  {
    n := |s.taken + s.queue + Opt(s.sending) + Opt(s.current)|;
  }

  lemma PlaceOfTaken(s: State, n: nat)
    requires n < |s.taken|
    ensures n < |AllBatches(s)| && AllBatches(s)[n] == s.taken[n]
  {
  }

  /**
   In every reachable state a reply to a request is what writing the batch answered that holds
   the request's own records, or the refusal of the dropped batch that holds them; and no other
   batch that was written or dropped holds them.
   */
  lemma {:induction false} RepliesAreOutcomes(c: Config, events: seq<Event>, i: nat, r: Reply)
    requires Run(c, events).Some?
    requires i < |Run(c, events).value.accepted| && r in Run(c, events).value.replies
    requires r.callback == Run(c, events).value.accepted[i].callback
    ensures var s := Run(c, events).value;
            (exists n :: DecidedBy(s, n, i, r.ok)) || (!r.ok && DroppedWith(s, i))
    ensures var s := Run(c, events).value;
            && (forall m, ok :: DecidedBy(s, m, i, ok) ==> ok == r.ok && !DroppedWith(s, i))
            && (forall m, n, ok, ok' :: DecidedBy(s, m, i, ok) && DecidedBy(s, n, i, ok') ==> m == n)
  {
    hide Run, Orderly, Matches, AllBatches, Carries, Honest, Told, Records, Writes;
    var s := Run(c, events).value;
    RunHonest(c, events);
    RecordsInArrivalOrder(c, events);
    ReplyIsOutcome(s, i, r);
  }

  lemma ReplyIsOutcome(s: State, i: nat, r: Reply)
    requires Honest(s) && Orderly(s) && i < |s.accepted| && r in s.replies && r.callback == s.accepted[i].callback
    ensures (exists n :: DecidedBy(s, n, i, r.ok)) || (!r.ok && DroppedWith(s, i))
    ensures forall m, ok :: DecidedBy(s, m, i, ok) ==> ok == r.ok && !DroppedWith(s, i)
    ensures forall m, n, ok, ok' :: DecidedBy(s, m, i, ok) && DecidedBy(s, n, i, ok') ==> m == n
  {
    hide Orderly, Matches, AllBatches, Carries, AtWork;
    assert Told(s, r);
    if n :| n in s.outcomes && n < |s.taken| && s.outcomes[n] == r.ok && r.callback in s.taken[n].callbacks {
      PlaceOfTaken(s, n);
      CarriesIs(s, n, i);
      assert DecidedBy(s, n, i, r.ok);
    } else {
      var d := PlaceOfDropped(s);
      CarriesIs(s, d, i);
    }
    forall m, n, ok, ok' | DecidedBy(s, m, i, ok) && DecidedBy(s, n, i, ok')
      ensures m == n
    {
      DecidedOnce(s, m, n, i);
    }
    forall m, ok | DecidedBy(s, m, i, ok)
      ensures !DroppedWith(s, i)
    {
      DecidedNotDropped(s, m, i);
    }
  }

  lemma DecidedOnce(s: State, m: nat, n: nat, i: nat)
    requires Orderly(s) && i < |s.accepted| && m < |s.taken| && n < |s.taken|
    requires Carries(s, s.taken[m], i) && Carries(s, s.taken[n], i)
    ensures m == n
  {
    hide Matches, AllBatches, Carries, Distinct;
    PlaceOfTaken(s, m);
    PlaceOfTaken(s, n);
    CarriesIs(s, m, i);
    CarriesIs(s, n, i);
    OneBatchEach(AllBatches(s), s.accepted, m, n, s.accepted[i].callback);
  }

  lemma DecidedNotDropped(s: State, m: nat, i: nat)
    requires Orderly(s) && i < |s.accepted| && m < |s.taken| && Carries(s, s.taken[m], i)
    ensures !DroppedWith(s, i)
  {
    hide Matches, AllBatches, Carries, Distinct;
    if DroppedWith(s, i) {
      PlaceOfTaken(s, m);
      var d := PlaceOfDropped(s);
      CarriesIs(s, m, i);
      CarriesIs(s, d, i);
      OneBatchEach(AllBatches(s), s.accepted, m, d, s.accepted[i].callback);
    }
  }

  // ---- sizes and the timer ----

  lemma {:induction false} SizeConcat(a: seq<Record>, b: seq<Record>)
    ensures Size(a + b) == Size(a) + Size(b)
  {
    if b == [] {
      assert a + b == a;
    } else {
      assert (a + b)[..|a + b| - 1] == a + b[..|b| - 1];
      SizeConcat(a, b[..|b| - 1]);
    }
  }

  /** The batch counts its bytes right and was below the limit before its last request came. */
  predicate Bounded(c: Config, accepted: seq<Request>, b: Batch) {
    && b.totalSize == Size(b.records)
    && b.callbacks != []
    && exists q :: q in accepted && EndsWith(b, q) && b.totalSize - Size(q.writes) < c.maxBatchBytes
  }

  /** The last request put into the batch is `q`. */
  predicate EndsWith(b: Batch, q: Request) {
    && b.callbacks != [] && b.callbacks[|b.callbacks| - 1] == q.callback
    && |q.writes| <= |b.records| && b.records[|b.records| - |q.writes|..] == q.writes
  }

  /** A batch that has left the loop. */
  predicate Flushed(s: State, b: Batch) {
    s.sending == Some(b) || b in s.queue || Writing(b) in s.workers
  }

  ghost predicate SizesInv(c: Config, s: State) {
    && (s.current.Some? ==> Bounded(c, s.accepted, s.current.value))
    && (s.current.Some? ==> s.current.value.totalSize < c.maxBatchBytes)
    && (!s.closed ==> (s.current.Some? <==> s.timer != Off))
    && (s.timer == Spent ==> exists q :: q in s.accepted && q.writes == [])
    && (s.current.Some? && s.current.value.records == [] ==> exists q :: q in s.accepted && q.writes == [])
    && (forall b :: Flushed(s, b) ==> Bounded(c, s.accepted, b) && b.records != [])
  }

  lemma AppendBounded(c: Config, s: State, r: Request)
    requires SizesInv(c, s) && c.maxBatchBytes >= 1
    ensures var b := Append(if s.current.Some? then s.current.value else EMPTY_BATCH, r);
            Bounded(c, s.accepted + [r], b)
  {
    hide Size, Flushed;
    var b0 := if s.current.Some? then s.current.value else EMPTY_BATCH;
    var b := Append(b0, r);
    SizeConcat(b0.records, r.writes);
    NothingHasNoSize();
    assert r in s.accepted + [r];
    assert EndsWith(b, r);
  }

  lemma NothingHasNoSize()
    ensures Size([]) == 0
  {
  }

  lemma BoundedLater(c: Config, accepted: seq<Request>, r: Request, b: Batch)
    requires Bounded(c, accepted, b)
    ensures Bounded(c, accepted + [r], b)
  {
    hide Size, EndsWith;
    var q :| q in accepted && EndsWith(b, q) && b.totalSize - Size(q.writes) < c.maxBatchBytes;
    assert q in accepted + [r];
  }

  lemma WriteKeepsSizes(c: Config, s: State, r: Request)
    requires SizesInv(c, s) && Enabled(c, s, Write(r)) && c.maxBatchBytes >= 1
    ensures SizesInv(c, Next(c, s, Write(r)))
  {
    hide Size, Bounded;
    var s' := Next(c, s, Write(r));
    AppendBounded(c, s, r);
    assert r in s'.accepted;
    assert forall q :: q in s.accepted ==> q in s'.accepted;
    var b := Append(if s.current.Some? then s.current.value else EMPTY_BATCH, r);
    NothingHasNoSize();
    BoundedCounts(c, s'.accepted, b);
    forall f | Flushed(s', f)
      ensures Bounded(c, s'.accepted, f) && f.records != []
    {
      if s'.sending != Some(f) {
        assert Flushed(s, f);
        BoundedLater(c, s.accepted, r, f);
      }
    }
  }

  lemma BoundedCounts(c: Config, accepted: seq<Request>, b: Batch)
    requires Bounded(c, accepted, b)
    ensures b.totalSize == Size(b.records)
  {
  }

  lemma OtherKeepsSizes(c: Config, s: State, e: Event)
    requires SizesInv(c, s) && Enabled(c, s, e) && !e.Write? && Orderly(s)
    ensures SizesInv(c, Next(c, s, e))
  {
    hide Size, Bounded, Matches;
    var s' := Next(c, s, e);
    forall f | Flushed(s', f)
      ensures Bounded(c, s'.accepted, f) && f.records != []
    {
      if e.TimerFires? && s'.sending == Some(f) {
      } else {
        FlushedBefore(c, s, e, f);
      }
    }
  }

  lemma FlushedBefore(c: Config, s: State, e: Event, b: Batch)
    requires Enabled(c, s, e) && !e.Write? && Flushed(Next(c, s, e), b)
    requires !(e.TimerFires? && Next(c, s, e).sending == Some(b))
    ensures Flushed(s, b)
  {
    hide Size;
    var s' := Next(c, s, e);
    if Writing(b) in s'.workers {
      var i :| 0 <= i < |s'.workers| && s'.workers[i] == Writing(b);
      assert s.workers[i] == Writing(b) || e.Take?;
    }
  }

  /**
   With a positive limit, at the head of batchLoop a current batch counts its bytes right, is
   below the limit and has a timer; every batch handed on is non-empty and was below the limit
   before its last request. When no request is empty the current batch is non-empty and its
   timer is still to fire.
   */
  lemma {:induction false} BatchSizes(c: Config, events: seq<Event>)
    requires Run(c, events).Some? && c.maxBatchBytes >= 1
    ensures SizesInv(c, Run(c, events).value)
    ensures var s := Run(c, events).value;
            (forall q :: q in s.accepted ==> q.writes != []) && s.current.Some? && !s.closed ==>
              s.timer == Armed && s.current.value.records != []
  {
    hide Next, Enabled, Orderly, Bounded, Flushed;
    if events == [] {
      InitSizes(c);
    } else {
      BatchSizes(c, events[..|events| - 1]);
      var s, e := Run(c, events[..|events| - 1]).value, events[|events| - 1];
      RecordsInArrivalOrder(c, events[..|events| - 1]);
      if e.Write? {
        WriteKeepsSizes(c, s, e.request);
      } else {
        OtherKeepsSizes(c, s, e);
      }
    }
  }

  lemma InitSizes(c: Config)
    ensures SizesInv(c, Init(c))
  {
  }

  lemma {:induction false} NoWritesAtAll(rs: seq<Request>)
    ensures Writes(rs) == [] <==> forall i :: 0 <= i < |rs| ==> rs[i].writes == []
  {
    if rs != [] {
      NoWritesAtAll(rs[..|rs| - 1]);
      assert forall i :: 0 <= i < |rs| - 1 ==> rs[..|rs| - 1][i] == rs[i];
    }
  }

  /**
   Empty requests are what breaks the age limit: in every reachable state in which the timer
   fires for a batch, the batch is left behind without one exactly when no request put into it
   since it was opened has any writes.
   */
  lemma {:induction false} TimerLostExactly(c: Config, events: seq<Event>) returns (first: nat)
    requires Run(c, events).Some? && Enabled(c, Run(c, events).value, TimerFires) && Run(c, events).value.current.Some?
    ensures var s := Run(c, events).value;
            first < |s.accepted| && IsBatchOf(s.current.value, s.accepted[first..])
    ensures var s := Run(c, events).value;
            var fired := Next(c, s, TimerFires);
            && (fired.current.Some? <==> forall i :: first <= i < |s.accepted| ==> s.accepted[i].writes == [])
            && (fired.current.Some? ==> fired.timer == Spent)
  {
    hide Run, Matches, Size, Records, Writes;
    var s := Run(c, events).value;
    RecordsInArrivalOrder(c, events);
    var before := s.taken + s.queue;
    assert AllBatches(s) == before + [s.current.value];
    MatchesApart(before, s.current.value, s.accepted);
    first := |s.accepted| - |s.current.value.callbacks|;
    NoWritesAtAll(s.accepted[first..]);
    assert forall i :: first <= i < |s.accepted| ==> s.accepted[i] == s.accepted[first..][i - first];
  }

  /** A timer that has fired does not fire again for its batch, whatever else is put into it. */
  lemma SpentStaysSpent(c: Config, s: State, e: Event)
    requires Enabled(c, s, e) && s.timer == Spent && s.current.Some?
    ensures !e.TimerFires?
    ensures Next(c, s, e).current.Some? ==> Next(c, s, e).timer == Spent
  {
    hide Append;
  }

  /** An empty request alone: the timer fires for it and is not set again. */
  lemma EmptyRequestAlone(c: Config)
    requires c.maxBatchBytes >= 1
    ensures var events := [Write(Request([], 0)), TimerFires];
            && Run(c, events).Some?
            && Run(c, events).value.current == Some(Batch([], [0], 0)) && Run(c, events).value.timer == Spent
  {
    hide Append, Enabled, Next;
    var r := Request([], 0);
    var none: seq<Event> := [];
    RunOfNone(c, none);
    EmptyRequestSteps(c);
    RunStep(c, none, Write(r));
    TimerOnNothing(c, Next(c, Init(c), Write(r)));
    RunStep(c, none + [Write(r)], TimerFires);
    assert none + [Write(r)] + [TimerFires] == [Write(r), TimerFires];
  }

  lemma RunOfNone(c: Config, events: seq<Event>)
    requires events == []
    ensures Run(c, events) == Some(Init(c))
  {
  }

  lemma AppendNothing()
    ensures Append(EMPTY_BATCH, Request([], 0)) == Batch([], [0], 0)
  {
    hide Size;
    var r := Request([], 0);
    NothingHasNoSize();
    AfterNothing(r.writes);
    AfterNothing([r.callback]);
  }

  lemma AfterNothing<T>(s: seq<T>)
    ensures [] + s == s
  {
  }

  lemma EmptyRequestSteps(c: Config)
    ensures var w := Write(Request([], 0));
            && Enabled(c, Init(c), w)
            && var s := Next(c, Init(c), w);
            && (c.maxBatchBytes >= 1 ==> s.current == Some(Batch([], [0], 0)) && s.timer == Armed && AtHead(s))
            && (c.maxBatchBytes <= 0 ==> s.sending == Some(Batch([], [0], 0)))
  {
    hide Append;
    AppendNothing();
  }

  lemma TimerOnNothing(c: Config, s: State)
    requires s.current == Some(Batch([], [0], 0)) && s.timer == Armed && AtHead(s)
    ensures Enabled(c, s, TimerFires) && Next(c, s, TimerFires).current == s.current
        && Next(c, s, TimerFires).timer == Spent
  {
  }

  // ---- why a batch leaves the loop ----

  /** The batches that have left the loop, in the order in which they did. */
  function HandedOver(s: State): seq<Batch> {
    s.taken + s.queue + Opt(s.sending)
  }

  /** The current batch's bytes are counted right. */
  predicate Counted(s: State) {
    s.current.Some? ==> s.current.value.totalSize == Size(s.current.value.records)
  }

  lemma AppendCounts(b: Batch, r: Request)
    requires b.totalSize == Size(b.records)
    ensures Append(b, r).totalSize == Size(b.records + r.writes)
  {
    SizeConcat(b.records, r.writes);
  }

  lemma StepCounted(c: Config, s: State, e: Event)
    requires Enabled(c, s, e) && Counted(s)
    ensures Counted(Next(c, s, e))
  {
    NothingHasNoSize();
    hide Size;
    if e.Write? {
      AppendCounts(if s.current.Some? then s.current.value else EMPTY_BATCH, e.request);
    }
  }

  lemma {:induction false} RunCounted(c: Config, events: seq<Event>)
    requires Run(c, events).Some?
    ensures Counted(Run(c, events).value)
  {
    hide Next, Enabled, Size;
    if events != [] {
      RunCounted(c, events[..|events| - 1]);
      StepCounted(c, Run(c, events[..|events| - 1]).value, events[|events| - 1]);
    }
  }

  /**
   In every reachable state a request makes the loop hand the batch over exactly when the records
   collected, its own included, have as many bytes as the limit. Otherwise the batch stays, under
   the timer it has or, if it is new, under a new one.
   */
  lemma {:induction false} WriteHandsOverExactly(c: Config, events: seq<Event>, r: Request)
    requires Run(c, events).Some? && Enabled(c, Run(c, events).value, Write(r))
    ensures var s := Run(c, events).value;
            var s' := Next(c, s, Write(r));
            var collected := (if s.current.Some? then s.current.value.records else []) + r.writes;
            && (s'.sending.Some? <==> Size(collected) >= c.maxBatchBytes)
            && (s'.sending.Some? ==> s'.sending.value.records == collected && s'.current == None)
            && (s'.sending.None? ==> s'.current.Some? && s'.current.value.records == collected)
            && (s'.sending.None? ==> s'.timer == if s.current.Some? then s.timer else Armed)
  {
    hide Run, Size;
    var s := Run(c, events).value;
    RunCounted(c, events);
    NothingHasNoSize();
    AppendCounts(if s.current.Some? then s.current.value else EMPTY_BATCH, r);
  }

  /** The step from `s` with `e` hands over `b`, because it is full or because its timer fired. */
  predicate Hands(c: Config, s: State, e: Event, b: Batch) {
    && Enabled(c, s, e) && HandedOver(Next(c, s, e)) == HandedOver(s) + [b]
    && (e.TimerFires? || (e.Write? && Size(b.records) >= c.maxBatchBytes))
  }

  lemma StepHands(c: Config, s: State, e: Event)
    requires Enabled(c, s, e) && Counted(s)
    ensures var before, after := HandedOver(s), HandedOver(Next(c, s, e));
            || after == before
            || (|after| == |before| + 1 && after[..|before|] == before && Hands(c, s, e, after[|before|]))
  {
    NothingHasNoSize();
    hide Size;
    match e
    case Write(r) => AppendCounts(if s.current.Some? then s.current.value else EMPTY_BATCH, r);
    case Take(_) =>
      assert s.queue == [s.queue[0]] + s.queue[1..];
    case _ =>
  }

  /**
   Over every run: each batch that has left the loop left it by one event, which was its timer
   firing or a request that brought its records to the limit.
   */
  lemma {:induction false} FullOrTimedOut(c: Config, events: seq<Event>, i: nat) returns (n: nat)
    requires Run(c, events).Some? && i < |HandedOver(Run(c, events).value)|
    ensures n < |events| && Run(c, events[..n]).Some? && i == |HandedOver(Run(c, events[..n]).value)|
    ensures Hands(c, Run(c, events[..n]).value, events[n], HandedOver(Run(c, events).value)[i])
  {
    hide Next, Enabled, HandedOver, Hands, Counted;
    if events == [] {
      NothingHandedOver(c);
    } else {
      var init := events[..|events| - 1];
      var s, e := Run(c, init).value, events[|events| - 1];
      RunCounted(c, init);
      StepHands(c, s, e);
      if i < |HandedOver(s)| {
        n := FullOrTimedOut(c, init, i);
        assert init[..n] == events[..n];
      } else {
        n := |init|;
      }
    }
  }

  lemma NothingHandedOver(c: Config)
    ensures HandedOver(Init(c)) == []
  {
  }

  // ---- a limit below one ----

  /** Every request is a batch of its own and nothing is ever collected. */
  predicate OneEach(s: State) {
    && s.current == None && s.dropped == None
    && |AllBatches(s)| == |s.accepted|
    && forall i :: 0 <= i < |s.accepted| ==> AllBatches(s)[i].records == s.accepted[i].writes
  }

  lemma StepOneEach(c: Config, s: State, e: Event)
    requires c.maxBatchBytes <= 0 && Enabled(c, s, e) && OneEach(s) && Orderly(s)
    ensures OneEach(Next(c, s, e))
  {
    hide Matches, Size, AllBatches;
    if e.Write? {
      var s' := Next(c, s, e);
      assert AllBatches(s) == s.taken + s.queue
          && AllBatches(s') == s.taken + s.queue + [Append(EMPTY_BATCH, e.request)] by {
        AloneBatches(s);
        AloneBatches(s');
      }
      assert Append(EMPTY_BATCH, e.request).records == e.request.writes;
    } else {
      SameBatches(c, s, e);
    }
  }

  lemma AloneBatches(s: State)
    requires s.current == None && s.dropped == None
    ensures AllBatches(s) == s.taken + s.queue + Opt(s.sending)
  {
  }

  lemma {:induction false} RunOneEach(c: Config, events: seq<Event>)
    requires c.maxBatchBytes <= 0 && Run(c, events).Some?
    ensures OneEach(Run(c, events).value)
  {
    hide Next, Enabled, Orderly, OneEach, Matches, AllBatches, Records, Writes;
    if events == [] {
      InitOneEach(c);
    } else {
      RunOneEach(c, events[..|events| - 1]);
      RecordsInArrivalOrder(c, events[..|events| - 1]);
      StepOneEach(c, Run(c, events[..|events| - 1]).value, events[|events| - 1]);
    }
  }

  lemma InitOneEach(c: Config)
    ensures OneEach(Init(c))
  {
  }

  /** A batch that a worker has taken, will take or is to be handed has no records. */
  predicate HandsOnNothing(s: State) {
    exists b :: b in HandedOver(s) && b.records == []
  }

  /**
   With a limit below one a batch without records, of which writeBatch would take the first, is
   handed on exactly when some accepted request has no writes.
   */
  lemma {:induction false} LowLimitHandsOnNothing(c: Config, events: seq<Event>)
    requires c.maxBatchBytes <= 0 && Run(c, events).Some?
    ensures HandsOnNothing(Run(c, events).value) <==> exists q :: q in Run(c, events).value.accepted && q.writes == []
  {
    hide Run, AllBatches;
    var s := Run(c, events).value;
    RunOneEach(c, events);
    AloneBatches(s);
    if b :| b in AllBatches(s) && b.records == [] {
      var i :| 0 <= i < |AllBatches(s)| && AllBatches(s)[i] == b;
      assert s.accepted[i] in s.accepted && s.accepted[i].writes == [];
    }
    if q :| q in s.accepted && q.writes == [] {
      var i :| 0 <= i < |s.accepted| && s.accepted[i] == q;
      assert AllBatches(s)[i] in AllBatches(s) && AllBatches(s)[i].records == [];
    }
  }

  /** It happens: one empty request is enough. */
  lemma LowLimitInstance(c: Config)
    requires c.maxBatchBytes <= 0
    ensures var events := [Write(Request([], 0))];
            Run(c, events).Some? && Run(c, events).value.sending == Some(Batch([], [0], 0))
  {
    hide Append, Enabled, Next;
    var none: seq<Event> := [];
    RunOfNone(c, none);
    EmptyRequestSteps(c);
    RunStep(c, none, Write(Request([], 0)));
    assert none + [Write(Request([], 0))] == [Write(Request([], 0))];
  }

  // ---- nothing gets stuck ----

  /** As many workers as configured, none of them waiting to tell nobody. */
  predicate Staffed(c: Config, s: State) {
    && |s.workers| == |s.numbers| == c.maxConcurrent
    && forall w :: 0 <= w < |s.workers| ==> (s.workers[w].Replying? ==> s.workers[w].waiting != [])
  }

  lemma StepStaffed(c: Config, s: State, e: Event)
    requires Enabled(c, s, e) && Staffed(c, s)
    ensures Staffed(c, Next(c, s, e))
  {
    hide Append;
  }

  lemma {:induction false} RunStaffed(c: Config, events: seq<Event>)
    requires Run(c, events).Some?
    ensures Staffed(c, Run(c, events).value)
  {
    hide Next, Enabled, Staffed;
    if events == [] {
      InitStaffed(c);
    } else {
      RunStaffed(c, events[..|events| - 1]);
      StepStaffed(c, Run(c, events[..|events| - 1]).value, events[|events| - 1]);
    }
  }

  lemma InitStaffed(c: Config)
    ensures Staffed(c, Init(c))
  {
  }

  /** No batch can move on, no batch is being written and no reply is due. */
  ghost predicate AtRest(c: Config, s: State) {
    && !Enabled(c, s, Deliver)
    && forall w: nat :: !Enabled(c, s, Take(w)) && !Enabled(c, s, Written(w, true)) && !Enabled(c, s, Notify(w))
  }

  lemma AtRestIsEmpty(c: Config, s: State)
    requires c.maxConcurrent >= 1 && Staffed(c, s) && AtRest(c, s)
    ensures s.queue == [] && s.sending == None && forall w :: 0 <= w < |s.workers| ==> s.workers[w] == Idle
  {
    forall w | 0 <= w < |s.workers|
      ensures s.workers[w] == Idle
    {
      assert !Enabled(c, s, Written(w, true)) && !Enabled(c, s, Notify(w));
    }
    assert !Enabled(c, s, Take(0));
  }

  /**
   Nothing gets stuck: with at least one worker, once nothing but requests, timers and shutdown
   can happen, every accepted request has its one reply or is in the batch being collected.
   */
  lemma {:induction false} NothingStuck(c: Config, events: seq<Event>, q: Request)
    requires Run(c, events).Some? && c.maxConcurrent >= 1 && AtRest(c, Run(c, events).value)
    requires q in Run(c, events).value.accepted
    ensures var s := Run(c, events).value;
            InBatch(s.current, q.callback) + Replied(s.replies, q.callback) == 1
  {
    hide Run, Count, Replied, Received, AtRest;
    var s := Run(c, events).value;
    RunStaffed(c, events);
    AtRestIsEmpty(c, s);
    RunConserves(c, events, q.callback);
    ReceivedMember(s.accepted, q);
    NobodyHolds(s.workers, q.callback);
  }

  // ---- rest is reached ----

  /** The moves a worker still has to make. */
  function Effort(w: Worker): nat {
    match w
    case Idle => 0
    case Writing(b) => 1 + |b.callbacks|
    case Replying(waiting, _) => |waiting|
  }

  function Efforts(workers: seq<Worker>): nat {
    if workers == [] then 0 else Efforts(workers[..|workers| - 1]) + Effort(workers[|workers| - 1])
  }

  /** To be taken, to be written, and one reply for each callback. */
  function Backlog(batches: seq<Batch>): nat {
    if batches == [] then 0 else Backlog(batches[..|batches| - 1]) + 2 + |batches[|batches| - 1].callbacks|
  }

  /** The moves left until every batch that was handed over is written and answered. */
  function Work(s: State): nat {
    (if s.sending.Some? then 3 + |s.sending.value.callbacks| else 0) + Backlog(s.queue) + Efforts(s.workers)
  }

  lemma {:induction false} EffortsUpdate(workers: seq<Worker>, w: nat, v: Worker)
    requires w < |workers|
    ensures Efforts(workers[w := v]) == Efforts(workers) - Effort(workers[w]) + Effort(v)
  {
    hide Effort;
    var n := |workers| - 1;
    if w == n {
      assert workers[w := v][..n] == workers[..n];
    } else {
      assert workers[w := v][..n] == workers[..n][w := v];
      EffortsUpdate(workers[..n], w, v);
    }
  }

  lemma {:induction false} BacklogHead(batches: seq<Batch>)
    requires batches != []
    ensures Backlog(batches) == 2 + |batches[0].callbacks| + Backlog(batches[1..])
  {
    var n := |batches| - 1;
    if n > 0 {
      BacklogHead(batches[..n]);
      assert batches[..n][1..] == batches[1..][..n - 1];
    }
  }

  lemma {:induction false} NoEfforts(workers: seq<Worker>)
    requires forall w :: 0 <= w < |workers| && workers[w].Replying? ==> workers[w].waiting != []
    ensures Efforts(workers) == 0 <==> forall w :: 0 <= w < |workers| ==> workers[w] == Idle
  {
    if workers != [] {
      NoEfforts(workers[..|workers| - 1]);
    }
  }

  predicate IsMove(e: Event) {
    e.Deliver? || e.Take? || e.Written? || e.Notify?
  }

  /** Every move is one move less to make. */
  lemma MoveWorks(c: Config, s: State, e: Event)
    requires Enabled(c, s, e) && IsMove(e)
    ensures Work(Next(c, s, e)) == Work(s) - 1
  {
    hide Efforts, Backlog;
    var s' := Next(c, s, e);
    match e
    case Deliver =>
      assert s'.queue[..|s.queue|] == s.queue;
      BacklogLast(s'.queue);
    case Take(w) =>
      BacklogHead(s.queue);
      EffortsUpdate(s.workers, w, s'.workers[w]);
    case Written(w, _) => EffortsUpdate(s.workers, w, s'.workers[w]);
    case Notify(w) => EffortsUpdate(s.workers, w, s'.workers[w]);
  }

  lemma BacklogLast(batches: seq<Batch>)
    requires batches != []
    ensures Backlog(batches) == Backlog(batches[..|batches| - 1]) + 2 + |batches[|batches| - 1].callbacks|
  {
  }

  lemma RestIsNoWork(c: Config, s: State)
    requires c.maxConcurrent >= 1 && Staffed(c, s)
    ensures AtRest(c, s) <==> Work(s) == 0
  {
    hide Efforts;
    NoEfforts(s.workers);
    if AtRest(c, s) {
      AtRestIsEmpty(c, s);
    }
  }

  /**
   Rest is reached: while no request, timer or shutdown comes in between, moves in any order bring
   the batcher to rest after exactly as many of them as there was work, neither earlier nor later.
   */
  lemma {:induction false} RestIsReached(c: Config, events: seq<Event>, moves: seq<Event>)
    requires Run(c, events).Some? && Run(c, events + moves).Some? && forall e :: e in moves ==> IsMove(e)
    requires c.maxConcurrent >= 1
    ensures Work(Run(c, events + moves).value) == Work(Run(c, events).value) - |moves|
    ensures AtRest(c, Run(c, events + moves).value) <==> |moves| == Work(Run(c, events).value)
  {
    hide AtRest, Work, Enabled, Next;
    if moves == [] {
      assert events + moves == events;
    } else {
      var last := moves[|moves| - 1];
      assert (events + moves)[..|events + moves| - 1] == events + moves[..|moves| - 1];
      RestIsReached(c, events, moves[..|moves| - 1]);
      MoveWorks(c, Run(c, events + moves[..|moves| - 1]).value, last);
    }
    RunStaffed(c, events + moves);
    RestIsNoWork(c, Run(c, events + moves).value);
  }
}
