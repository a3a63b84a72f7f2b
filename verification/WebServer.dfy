/**
 * web.go: handlers, one worker and a mutex, as a system of interleaved steps. Any number of handlers
 * may be at any point; a handler is one HTTP request. The response channel of a request holds one
 * response; the request channel holds none, so a request passes when worker and handler meet.
 */
module WebServer {
  import opened Basics

  type Id = nat

  /** What the worker sends back: the output of the detector, or an error. */
  datatype Resp = Output(bytes: Bytes) | InvokeError | InitError

  datatype Handler =
    | DetectNew(input: Bytes)       // before init
    | DetectReading(input: Bytes)   // after init; the upload is being read
    | DetectSending(input: Bytes)   // at s.reqCh <- request
    | DetectWaiting(input: Bytes)   // at <-respCh
    | DetectDone(input: Bytes, resp: Resp)
    | TeepNew                       // at mu.Lock
    | TeepPreparing                 // holds the mutex; log level, enclave initialisation
    | TeepInstalling                // holds the mutex; in RunInstallSession
    | Finished

  datatype Request = Request(id: Id, input: Bytes)

  datatype Worker =
    | NotStarted
    | Starting                      // log level, enclave initialisation: no mutex held
    | Broken                        // initialisation failed; at range s.reqCh
    | Refusing(req: Request)        // initialisation failed; about to send the error
    | Idle                          // at range s.reqCh
    | Locking(req: Request)         // at mu.Lock
    | Invoking(req: Request)        // holds the mutex; in InvokeWasm
    | Unlocking(req: Request, resp: Resp)
    | Sending(req: Request, resp: Resp)

  datatype Owner = TheWorker | TheHandler(id: Id)

  /** `calls` records every InvokeWasm made, `sent` every response ever sent on a handler's channel, and
      `buffer` what is in that channel. */
  datatype State = State(
    handlers: map<Id, Handler>,
    worker: Worker,
    mu: Option<Owner>,
    calls: set<(Request, Resp)>,
    sent: map<Id, seq<Resp>>,
    buffer: map<Id, seq<Resp>>)

  const START := State(map[], NotStarted, None, {}, map[], map[])

  datatype Step =
    | ArriveDetect(id: Id, input: Bytes)
    | ArriveTeep(id: Id)
    | Init(id: Id)                  // sync.Once: starts the worker the first time
    | Reject(id: Id)                // bad method before init, or bad upload after it
    | Submit(id: Id)                // the upload was read and is not empty
    | WorkerInit(ok: bool)
    | Take(id: Id)                  // the rendezvous on s.reqCh
    | WorkerLock
    | WorkerInvoke(resp: Resp)
    | WorkerUnlock
    | WorkerSend
    | Receive(id: Id)
    | TeepLock(id: Id)
    | TeepPrepared(id: Id, ok: bool)
    | TeepInstalled(id: Id)

  predicate Enabled(s: State, step: Step) {
    match step
    case ArriveDetect(id, input) => id !in s.handlers
    case ArriveTeep(id) => id !in s.handlers
    case Init(id) => id in s.handlers && s.handlers[id].DetectNew?
    case Reject(id) => id in s.handlers && (s.handlers[id].DetectNew? || s.handlers[id].DetectReading?)
    case Submit(id) => id in s.handlers && s.handlers[id].DetectReading? && s.handlers[id].input != []
    case WorkerInit(ok) => s.worker.Starting?
    case Take(id) => id in s.handlers && s.handlers[id].DetectSending? && (s.worker.Idle? || s.worker.Broken?)
    case WorkerLock => s.worker.Locking? && s.mu == None
    case WorkerInvoke(resp) => s.worker.Invoking? && !resp.InitError?
    case WorkerUnlock => s.worker.Unlocking?
    case WorkerSend => (s.worker.Sending? || s.worker.Refusing?) && CanSend(s, s.worker.req.id)
    case Receive(id) => id in s.handlers && s.handlers[id].DetectWaiting? && id in s.buffer && s.buffer[id] != []
    case TeepLock(id) => id in s.handlers && s.handlers[id].TeepNew? && s.mu == None
    case TeepPrepared(id, ok) => id in s.handlers && s.handlers[id].TeepPreparing?
    case TeepInstalled(id) => id in s.handlers && s.handlers[id].TeepInstalling?
  }

  /** A channel of capacity one accepts a response when it is empty. */
  predicate CanSend(s: State, id: Id) {
    id in s.buffer && |s.buffer[id]| < 1
  }

  function Sent(s: State, id: Id): seq<Resp> {
    if id in s.sent then s.sent[id] else []
  }

  function Send(s: State, id: Id, resp: Resp, worker: Worker): State
    requires id in s.buffer
  {
    s.(worker := worker, sent := s.sent[id := Sent(s, id) + [resp]], buffer := s.buffer[id := s.buffer[id] + [resp]])
  }

  function Next(s: State, step: Step): State
    requires Enabled(s, step)
  {
    match step
    case ArriveDetect(id, input) =>
      s.(handlers := s.handlers[id := DetectNew(input)], sent := s.sent[id := []], buffer := s.buffer[id := []])
    case ArriveTeep(id) =>
      s.(handlers := s.handlers[id := TeepNew], sent := s.sent[id := []], buffer := s.buffer[id := []])
    case Init(id) =>
      s.(handlers := s.handlers[id := DetectReading(s.handlers[id].input)],
         worker := if s.worker.NotStarted? then Starting else s.worker)
    case Reject(id) => s.(handlers := s.handlers[id := Finished])
    case Submit(id) => s.(handlers := s.handlers[id := DetectSending(s.handlers[id].input)])
    case WorkerInit(ok) => s.(worker := if ok then Idle else Broken)
    case Take(id) =>
      var req := Request(id, s.handlers[id].input);
      s.(handlers := s.handlers[id := DetectWaiting(req.input)],
         worker := if s.worker.Idle? then Locking(req) else Refusing(req))
    case WorkerLock => s.(worker := Invoking(s.worker.req), mu := Some(TheWorker))
    case WorkerInvoke(resp) =>
      s.(worker := Unlocking(s.worker.req, resp), calls := s.calls + {(s.worker.req, resp)})
    case WorkerUnlock => s.(worker := Sending(s.worker.req, s.worker.resp), mu := None)
    case WorkerSend =>
      if s.worker.Refusing? then Send(s, s.worker.req.id, InitError, Broken)
      else Send(s, s.worker.req.id, s.worker.resp, Idle)
    case Receive(id) =>
      s.(handlers := s.handlers[id := DetectDone(s.handlers[id].input, s.buffer[id][0])],
         buffer := s.buffer[id := s.buffer[id][1..]])
    case TeepLock(id) => s.(handlers := s.handlers[id := TeepPreparing], mu := Some(TheHandler(id)))
    case TeepPrepared(id, ok) =>
      if ok then s.(handlers := s.handlers[id := TeepInstalling])
      else s.(handlers := s.handlers[id := Finished], mu := None)
    case TeepInstalled(id) => s.(handlers := s.handlers[id := Finished], mu := None)
  }

  // --------------------------------------------------------------- invariant

  predicate HoldsRequest(w: Worker) {
    w.Refusing? || w.Locking? || w.Invoking? || w.Unlocking? || w.Sending?
  }

  /** The mutex is held exactly by who is between Lock and Unlock. */
  ghost predicate MutexInv(s: State) {
    && (s.mu == Some(TheWorker) <==> s.worker.Invoking? || s.worker.Unlocking?)
    && (forall id :: s.mu == Some(TheHandler(id)) <==>
          id in s.handlers && (s.handlers[id].TeepPreparing? || s.handlers[id].TeepInstalling?))
  }

  /** A response was computed from this request, or reports that initialisation failed. */
  predicate Justified(s: State, req: Request, resp: Resp) {
    (req, resp) in s.calls || resp == InitError
  }

  /** Where each request stands with respect to its one response. */
  ghost predicate HandlerInv(s: State, id: Id)
    requires id in s.handlers && id in s.sent && id in s.buffer
  {
    var mine := Held(s, id);
    match s.handlers[id]
    case DetectWaiting(input) =>
      if mine then s.worker.req.input == input && s.sent[id] == [] && s.buffer[id] == []
      else |s.sent[id]| == 1 && s.buffer[id] == s.sent[id] && Justified(s, Request(id, input), s.sent[id][0])
    case DetectDone(input, resp) =>
      !mine && s.sent[id] == [resp] && s.buffer[id] == [] && Justified(s, Request(id, input), resp)
    case _ => !mine && s.sent[id] == [] && s.buffer[id] == []
  }

  predicate PastInit(h: Handler) {
    h.DetectReading? || h.DetectSending? || h.DetectWaiting?
  }

  /** The worker is started by the first handler past init; the request it holds is waited for; the response
      it holds was computed. */
  ghost predicate WorkerInv(s: State) {
    && (s.worker.NotStarted? ==> forall id :: id in s.handlers ==> !PastInit(s.handlers[id]))
    && (HoldsRequest(s.worker) ==> s.worker.req.id in s.handlers && s.handlers[s.worker.req.id].DetectWaiting?)
    && (s.worker.Unlocking? || s.worker.Sending? ==> (s.worker.req, s.worker.resp) in s.calls)
  }

  ghost predicate Inv(s: State) {
    && s.handlers.Keys == s.sent.Keys == s.buffer.Keys
    && MutexInv(s) && WorkerInv(s)
    && (forall id :: id in s.handlers ==> HandlerInv(s, id))
  }

  /** The handler whose place or channel a step changes. */
  function Subject(s: State, step: Step): Option<Id>
    requires Enabled(s, step)
  {
    match step
    case WorkerSend => Some(s.worker.req.id)
    case WorkerInit(_) => None
    case WorkerLock => None
    case WorkerInvoke(_) => None
    case WorkerUnlock => None
    case _ => Some(step.id)
  }

  /** The worker holds the request of this handler. */
  predicate Held(s: State, id: Id) {
    HoldsRequest(s.worker) && s.worker.req.id == id
  }

  lemma {:induction false} StepFrame(s: State, step: Step, id: Id)
    requires Enabled(s, step) && Subject(s, step) != Some(id)
    requires id in s.handlers && id in s.sent && id in s.buffer
    ensures var s' := Next(s, step);
      && id in s'.handlers && s'.handlers[id] == s.handlers[id]
      && id in s'.sent && s'.sent[id] == s.sent[id] && id in s'.buffer && s'.buffer[id] == s.buffer[id]
      && (Held(s', id) <==> Held(s, id)) && (Held(s, id) ==> s'.worker.req == s.worker.req)
      && s.calls <= s'.calls
  {
  }

  lemma {:induction false} OtherKept(s: State, step: Step, id: Id)
    requires Inv(s) && Enabled(s, step) && id in s.handlers && Subject(s, step) != Some(id)
    ensures var s' := Next(s, step);
      id in s'.handlers && id in s'.sent && id in s'.buffer && HandlerInv(s', id)
  {
    hide MutexInv, WorkerInv, Next, Enabled, Subject;
    assert HandlerInv(s, id);
    StepFrame(s, step, id);
  }

  /** A response is put into the channel of its request, or taken out of it. */
  lemma {:induction false} ChannelKept(s: State, step: Step, id: Id)
    requires Inv(s) && Enabled(s, step) && Subject(s, step) == Some(id) && (step.WorkerSend? || step.Receive?)
    ensures var s' := Next(s, step);
      id in s'.handlers && id in s'.sent && id in s'.buffer && HandlerInv(s', id)
  {
    hide MutexInv;
    assert HandlerInv(s, id);
  }

  lemma {:induction false} SubjectKept(s: State, step: Step, id: Id)
    requires Inv(s) && Enabled(s, step) && Subject(s, step) == Some(id) && !step.WorkerSend? && !step.Receive?
    ensures var s' := Next(s, step);
      id in s'.handlers && id in s'.sent && id in s'.buffer && HandlerInv(s', id)
  {
    hide MutexInv, Justified;
    if id in s.handlers { assert HandlerInv(s, id); }
  }

  lemma {:induction false} KeysKept(s: State, step: Step)
    requires Inv(s) && Enabled(s, step)
    ensures var s' := Next(s, step);
      && s'.handlers.Keys == s'.sent.Keys == s'.buffer.Keys
      && (forall id :: id in s'.handlers ==> id in s.handlers || Subject(s, step) == Some(id))
  {
    hide MutexInv, HandlerInv;
  }

  lemma {:induction false} MutexKept(s: State, step: Step)
    requires Inv(s) && Enabled(s, step)
    ensures MutexInv(Next(s, step))
  {
    hide HandlerInv;
    if step.TeepPrepared? || step.TeepInstalled? { assert s.mu == Some(TheHandler(step.id)); }
  }

  lemma {:induction false} WorkerKept(s: State, step: Step)
    requires Inv(s) && Enabled(s, step)
    ensures WorkerInv(Next(s, step))
  {
    hide MutexInv;
    if step.Receive? { assert HandlerInv(s, step.id); }
  }

  /** Every step keeps the invariant. */
  lemma {:induction false} NextKeepsInv(s: State, step: Step)
    requires Inv(s) && Enabled(s, step)
    ensures Inv(Next(s, step))
  {
    hide Enabled, Next, MutexInv, HandlerInv, WorkerInv, Subject;
    KeysKept(s, step);
    WorkerKept(s, step);
    MutexKept(s, step);
    forall id | id in Next(s, step).handlers
      ensures HandlerInv(Next(s, step), id)
    {
      if Subject(s, step) != Some(id) {
        OtherKept(s, step, id);
      } else if step.WorkerSend? || step.Receive? {
        ChannelKept(s, step, id);
      } else {
        SubjectKept(s, step, id);
      }
    }
  }

  // -------------------------------------------------------------------- runs

  /** A run of the server: every step is enabled when it is taken. */
  ghost predicate Runs(s: State, steps: seq<Step>, end: State)
    decreases |steps|
  {
    if steps == [] then s == end
    else Enabled(s, steps[0]) && Runs(Next(s, steps[0]), steps[1..], end)
  }

  lemma {:induction false} RunsKeepInv(s: State, steps: seq<Step>, end: State)
    requires Inv(s) && Runs(s, steps, end)
    ensures Inv(end)
    decreases |steps|
  {
    if steps != [] {
      NextKeepsInv(s, steps[0]);
      RunsKeepInv(Next(s, steps[0]), steps[1..], end);
    }
  }

  /** InvokeWasm in the worker and RunInstallSession in a handler never overlap, nor do two installs, in
      any run with any number of handlers. */
  lemma {:induction false} MutualExclusion(steps: seq<Step>, s: State)
    requires Runs(START, steps, s)
    ensures forall i :: i in s.handlers && s.handlers[i].TeepInstalling? ==> !s.worker.Invoking?
    ensures forall i, j ::
      i in s.handlers && j in s.handlers && s.handlers[i].TeepInstalling? && s.handlers[j].TeepInstalling? ==> i == j
  {
    RunsKeepInv(START, steps, s);
    forall i | i in s.handlers && s.handlers[i].TeepInstalling?
      ensures s.mu == Some(TheHandler(i))
    {
    }
  }

  /** Every request the worker took gets exactly one response: none while the worker holds it, one
      afterwards, never two; and the response the handler gets was computed by an InvokeWasm call on its
      own input, or is the initialisation error. */
  lemma {:induction false} OneResponseEach(steps: seq<Step>, s: State, id: Id)
    requires Runs(START, steps, s) && id in s.handlers
    ensures id in s.sent && |s.sent[id]| <= 1
    ensures s.handlers[id].DetectWaiting? ==>
      (|s.sent[id]| == 0 <==> HoldsRequest(s.worker) && s.worker.req.id == id)
    ensures s.handlers[id].DetectDone? ==>
      && s.sent[id] == [s.handlers[id].resp]
      && Justified(s, Request(id, s.handlers[id].input), s.handlers[id].resp)
    ensures !s.handlers[id].DetectWaiting? && !s.handlers[id].DetectDone? ==> s.sent[id] == []
  {
    RunsKeepInv(START, steps, s);
    assert HandlerInv(s, id);
  }

  /** The worker never blocks on sending a response. */
  lemma {:induction false} WorkerNeverBlocksSending(steps: seq<Step>, s: State)
    requires Runs(START, steps, s) && (s.worker.Sending? || s.worker.Refusing?)
    ensures Enabled(s, WorkerSend)
  {
    RunsKeepInv(START, steps, s);
    assert HandlerInv(s, s.worker.req.id);
  }

  /** A handler whose response has been sent can receive it. */
  lemma {:induction false} HandlerNeverStarves(steps: seq<Step>, s: State, id: Id)
    requires Runs(START, steps, s) && id in s.handlers && s.handlers[id].DetectWaiting?
    ensures Enabled(s, Receive(id)) || (HoldsRequest(s.worker) && s.worker.req.id == id)
  {
    RunsKeepInv(START, steps, s);
    assert HandlerInv(s, id);
  }

  // ---------------------------------------------------------------- progress

  predicate Arrival(step: Step) {
    step.ArriveDetect? || step.ArriveTeep?
  }

  predicate Over(h: Handler) {
    h.DetectDone? || h.Finished?
  }

  predicate AllOver(s: State) {
    forall id :: id in s.handlers ==> Over(s.handlers[id])
  }

  /** Whoever holds the mutex can go on. */
  lemma {:induction false} HolderMoves(s: State) returns (step: Step)
    requires Inv(s) && s.mu.Some?
    ensures Enabled(s, step) && !Arrival(step)
  {
    match s.mu.value {
      case TheWorker =>
        step := if s.worker.Invoking? then WorkerInvoke(InvokeError) else WorkerUnlock;
      case TheHandler(id) =>
        step := if s.handlers[id].TeepPreparing? then TeepPrepared(id, true) else TeepInstalled(id);
    }
  }

  /** The worker, unless it waits for a request, can go on, or somebody else holds the mutex. */
  lemma {:induction false} WorkerMoves(s: State) returns (step: Step)
    requires Inv(s) && (s.worker.Starting? || HoldsRequest(s.worker))
    ensures Enabled(s, step) && !Arrival(step)
  {
    if s.worker.Locking? && s.mu.Some? {
      step := HolderMoves(s);
    } else if s.worker.Sending? || s.worker.Refusing? {
      assert HandlerInv(s, s.worker.req.id);
      step := WorkerSend;
    } else {
      step := if s.worker.Starting? then WorkerInit(true) else if s.worker.Locking? then WorkerLock
              else if s.worker.Invoking? then WorkerInvoke(InvokeError) else WorkerUnlock;
    }
  }

  /** No deadlock: as long as some handler is not over, somebody can take a step. */
  lemma {:induction false} SomebodyMoves(s: State, id: Id) returns (step: Step)
    requires Inv(s) && id in s.handlers && !Over(s.handlers[id])
    ensures Enabled(s, step) && !Arrival(step)
  {
    assert HandlerInv(s, id);
    match s.handlers[id] {
      case DetectNew(_) => step := Init(id);
      case DetectReading(_) => step := Reject(id);
      case DetectSending(_) =>
        if s.worker.Idle? || s.worker.Broken? { step := Take(id); } else { step := WorkerMoves(s); }
      case DetectWaiting(_) =>
        if HoldsRequest(s.worker) && s.worker.req.id == id { step := WorkerMoves(s); } else { step := Receive(id); }
      case TeepNew =>
        if s.mu == None { step := TeepLock(id); } else { step := HolderMoves(s); }
      case TeepPreparing => step := TeepPrepared(id, true);
      case TeepInstalling => step := TeepInstalled(id);
    }
  }

  function HandlerRank(h: Handler): nat {
    match h
    case DetectNew(_) => 9
    case DetectReading(_) => 8
    case DetectSending(_) => 7
    case DetectWaiting(_) => 1
    case DetectDone(_, _) => 0
    case TeepNew => 3
    case TeepPreparing => 2
    case TeepInstalling => 1
    case Finished => 0
  }

  function WorkerRank(w: Worker): nat {
    match w
    case NotStarted => 6
    case Starting => 5
    case Locking(_) => 4
    case Invoking(_) => 3
    case Unlocking(_, _) => 2
    case Sending(_, _) => 1
    case Refusing(_) => 1
    case Idle => 0
    case Broken => 0
  }

  ghost function Pick(m: map<Id, Handler>): (id: Id)
    requires m != map[]
    ensures id in m
  {
    var id :| id in m.Keys;
    id
  }

  ghost function Total(m: map<Id, Handler>): nat
    decreases |m|
  {
    if m == map[] then 0
    else
      var id := Pick(m);
      assert m.Keys == (m - {id}).Keys + {id};
      HandlerRank(m[id]) + Total(m - {id})
  }

  lemma {:induction false} TotalWithout(m: map<Id, Handler>, id: Id)
    requires id in m
    ensures Total(m) == HandlerRank(m[id]) + Total(m - {id})
    decreases |m|
  {
    var x := Pick(m);
    if x != id {
      assert m.Keys == (m - {x}).Keys + {x} && m.Keys == (m - {id}).Keys + {id};
      TotalWithout(m - {x}, id);
      TotalWithout(m - {id}, x);
      assert m - {x} - {id} == m - {id} - {x};
    }
  }

  lemma {:induction false} TotalUpdate(m: map<Id, Handler>, id: Id, h: Handler)
    requires id in m
    ensures Total(m[id := h]) == Total(m) - HandlerRank(m[id]) + HandlerRank(h)
  {
    TotalWithout(m, id);
    TotalWithout(m[id := h], id);
    assert m[id := h] - {id} == m - {id};
  }

  /** How many steps the handlers present can still give rise to, at most. */
  ghost function Measure(s: State): nat {
    Total(s.handlers) + WorkerRank(s.worker)
  }

  lemma {:induction false} StepsDecrease(s: State, step: Step)
    requires Enabled(s, step) && !Arrival(step)
    ensures Measure(Next(s, step)) < Measure(s)
  {
    hide Total;
    var s' := Next(s, step);
    match step {
      case Init(id) => TotalUpdate(s.handlers, id, s'.handlers[id]);
      case Reject(id) => TotalUpdate(s.handlers, id, s'.handlers[id]);
      case Submit(id) => TotalUpdate(s.handlers, id, s'.handlers[id]);
      case Take(id) => TotalUpdate(s.handlers, id, s'.handlers[id]);
      case Receive(id) => TotalUpdate(s.handlers, id, s'.handlers[id]);
      case TeepLock(id) => TotalUpdate(s.handlers, id, s'.handlers[id]);
      case TeepPrepared(id, _) => TotalUpdate(s.handlers, id, s'.handlers[id]);
      case TeepInstalled(id) => TotalUpdate(s.handlers, id, s'.handlers[id]);
      case WorkerInit(_) =>
      case WorkerLock =>
      case WorkerInvoke(_) =>
      case WorkerUnlock =>
      case WorkerSend =>
    }
  }

  lemma {:induction false} RunsAreBounded(s: State, steps: seq<Step>, end: State)
    requires Runs(s, steps, end) && forall k :: 0 <= k < |steps| ==> !Arrival(steps[k])
    ensures |steps| + Measure(end) <= Measure(s)
    decreases |steps|
  {
    hide Measure, Next, Enabled;
    if steps != [] {
      StepsDecrease(s, steps[0]);
      RunsAreBounded(Next(s, steps[0]), steps[1..], end);
    }
  }

  /** Once no more requests arrive, the server is done after a bounded number of steps, taken in any order:
      and it only stops when every handler has been answered, refused or installed. */
  lemma {:induction false} ServerDrains(before: seq<Step>, s: State, more: seq<Step>, end: State)
    requires Runs(START, before, s) && Runs(s, more, end) && forall k :: 0 <= k < |more| ==> !Arrival(more[k])
    ensures |more| <= Measure(s)
    ensures (forall step :: Enabled(end, step) ==> Arrival(step)) ==> AllOver(end)
  {
    hide Enabled, Next, Measure, Inv;
    StartInv();
    RunsKeepInv(START, before, s);
    RunsKeepInv(s, more, end);
    RunsAreBounded(s, more, end);
    if !AllOver(end) {
      var id :| id in end.handlers && !Over(end.handlers[id]);
      var step := SomebodyMoves(end, id);
    }
  }

  lemma {:induction false} StartInv()
    ensures Inv(START)
  {
  }

  // ----------------------------------------------------- failed initialisation

  predicate GaveUp(w: Worker) {
    w.Broken? || w.Refusing?
  }

  /** The worker that gave up has made no call; and only that worker sends the initialisation error. */
  ghost predicate InitInv(s: State) {
    && (GaveUp(s.worker) || s.worker.NotStarted? || s.worker.Starting? ==> s.calls == {})
    && (forall req, resp :: (req, resp) in s.calls ==> resp != InitError)
    && (forall id, k :: id in s.sent && 0 <= k < |s.sent[id]| && s.sent[id][k] == InitError ==> GaveUp(s.worker))
  }

  lemma {:induction false} NextKeepsInit(s: State, step: Step)
    requires Inv(s) && InitInv(s) && Enabled(s, step)
    ensures InitInv(Next(s, step))
  {
    hide MutexInv, HandlerInv;
    var s' := Next(s, step);
    forall id, k | id in s'.sent && 0 <= k < |s'.sent[id]| && s'.sent[id][k] == InitError
      ensures GaveUp(s'.worker)
    {
      if id in s.sent && k < |s.sent[id]| { assert s'.sent[id][k] == s.sent[id][k]; }
    }
  }

  lemma {:induction false} RunsKeepInit(s: State, steps: seq<Step>, end: State)
    requires Inv(s) && InitInv(s) && Runs(s, steps, end)
    ensures InitInv(end)
    decreases |steps|
  {
    hide Inv, InitInv, Enabled, Next;
    if steps != [] {
      NextKeepsInv(s, steps[0]);
      NextKeepsInit(s, steps[0]);
      RunsKeepInit(Next(s, steps[0]), steps[1..], end);
    }
  }

  /** In any run, a handler gets the initialisation error if and only if initialisation failed: then every
      response is that error, and otherwise every one was computed from its own request by a call. */
  lemma {:induction false} InitErrorIff(steps: seq<Step>, s: State, id: Id)
    requires Runs(START, steps, s) && id in s.handlers && s.handlers[id].DetectDone?
    ensures s.handlers[id].resp == InitError <==> GaveUp(s.worker)
    ensures s.handlers[id].resp != InitError ==>
      (Request(id, s.handlers[id].input), s.handlers[id].resp) in s.calls
  {
    RunsKeepInv(START, steps, s);
    RunsKeepInit(START, steps, s);
    assert HandlerInv(s, id);
    assert s.sent[id][0] == s.handlers[id].resp;
  }

  /** The worker gives up exactly when its initialisation fails. */
  lemma {:induction false} GivesUpIff(s: State, step: Step)
    requires Inv(s) && Enabled(s, step) && !GaveUp(s.worker)
    ensures GaveUp(Next(s, step).worker) <==> step == WorkerInit(false)
  {
    hide Inv;
  }

  /** The worker's own initialisation is outside the mutex: it can overlap an install session. */
  lemma {:induction false} InitialisationMayOverlap(i: Id, j: Id, input: Bytes)
    requires i != j
    ensures exists steps, s :: Runs(START, steps, s) && s.worker.Starting?
              && j in s.handlers && s.handlers[j].TeepInstalling?
  {
    var s1 := Next(START, ArriveTeep(j));
    var s2 := Next(s1, TeepLock(j));
    var s3 := Next(s2, TeepPrepared(j, true));
    var s4 := Next(s3, ArriveDetect(i, input));
    var s5 := Next(s4, Init(i));
    Cons(s4, Init(i), [], s5);
    Cons(s3, ArriveDetect(i, input), [Init(i)], s5);
    Cons(s2, TeepPrepared(j, true), [ArriveDetect(i, input), Init(i)], s5);
    Cons(s1, TeepLock(j), [TeepPrepared(j, true), ArriveDetect(i, input), Init(i)], s5);
    Cons(START, ArriveTeep(j), [TeepLock(j), TeepPrepared(j, true), ArriveDetect(i, input), Init(i)], s5);
  }

  lemma {:induction false} Cons(s: State, step: Step, rest: seq<Step>, end: State)
    requires Enabled(s, step) && Runs(Next(s, step), rest, end)
    ensures Runs(s, [step] + rest, end)
  {
    assert ([step] + rest)[1..] == rest;
  }
}
