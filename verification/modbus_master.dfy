/** The Modbus master stack: execution of responses, broadcasts to every slave, error events and
    the release of the run resource. */
module ModbusMaster {
  import opened Basics
  import opened ModbusTable

  datatype Event = Ready | FrameReceived | Execute | FrameSent | ErrorProcess
  datatype ErrorType = RespondTimeout | ReceiveData | ExecuteFunction
  datatype Life = Enabled | Disabled | NotInitialized

  // What the stack does that others can see.
  datatype Action =
    | Call(dest: nat, masterMode: bool, handler: Option<Handler>)  // what the table has is called
    | Success                                // vMBMasterCBRequestSuccess
    | ErrorCallback(error: ErrorType)        // one of the three error callbacks
    | Release                                // vMBMasterRunResRelease
    | PostError(error: ErrorType)            // EV_MASTER_ERROR_PROCESS is posted
    | Send(dest: nat)                        // a frame is given to the frame layer

  // `executed` counts the Execute events handled.
  datatype Master = Master(life: Life, dest: nat, masterMode: bool, error: ErrorType,
                           table: seq<Entry>, pending: Option<Event>, buffer: seq<Byte>,
                           executed: nat, log: seq<Action>)

  // One poll: what the frame layer would hand over, whether the request was a broadcast, the
  // exception each handler call returns (in turn), and the send buffer.
  datatype World = World(ok: bool, address: nat, received: seq<Byte>, broadcast: bool,
                         answers: nat -> Byte, sendBuffer: seq<Byte>)

  predicate ValidWorld(w: World) {
    |w.received| >= 2 && |w.sendBuffer| >= 2
  }

  function Log(m: Master, actions: seq<Action>): Master {
    m.(log := m.log + actions)
  }

  /** EV_MASTER_FRAME_RECEIVED */
  function OnReceived(m: Master, w: World): Master
    requires ValidWorld(w)
  {
    var m1 := m.(buffer := w.received);
    if w.ok && w.address == m.dest then
      m1.(pending := Some(Execute))
    else
      Log(m1.(error := ReceiveData, pending := Some(ErrorProcess)), [PostError(ReceiveData)])
  }

  // The calls of handler h for a broadcast to slaves j..n.
  function BroadcastCalls(h: Option<Handler>, j: nat, n: nat): (calls: seq<Action>)
    requires 1 <= j <= n + 1
    ensures |calls| == n + 1 - j
    ensures forall k | 0 <= k < |calls| :: calls[k] == Call(j + k, true, h)
    decreases n + 1 - j
  {
    if j > n then [] else [Call(j, true, h)] + BroadcastCalls(h, j + 1, n)
  }

  // What comes of a response: whether there is a handler, the calls made to it, the exception that
  // is left, and the destination address afterwards.
  datatype Handling = Handling(found: bool, calls: seq<Action>, exception: Byte, dest: nat)

  function Handle(m: Master, w: World, slaves: nat): Handling
    requires |m.buffer| >= 2
  {
    var code := m.buffer[0];
    if code >= 128 then
      Handling(false, [], m.buffer[1], m.dest)
    else if Scan(m.table, code).None? then
      Handling(false, [], IllegalFunction, m.dest)
    else if w.broadcast then
      Handling(true, BroadcastCalls(Dispatch(m.table, code), 1, slaves),
               if slaves == 0 then IllegalFunction else w.answers(slaves),
               if slaves == 0 then m.dest else slaves)
    else
      Handling(true, [Call(m.dest, true, Dispatch(m.table, code))], w.answers(m.dest), m.dest)
  }

  /** EV_MASTER_EXECUTE */
  function OnExecute(m: Master, w: World, slaves: nat): Master
    requires |m.buffer| >= 2
  {
    var h := Handle(m, w, slaves);
    var m1 := m.(masterMode := if h.found then false else m.masterMode, dest := h.dest, executed := m.executed + 1);
    if h.exception != 0 then
      Log(m1.(error := ExecuteFunction, pending := Some(ErrorProcess)), h.calls + [PostError(ExecuteFunction)])
    else
      Log(m1, h.calls + [Success, Release])
  }

  /** eMBMasterPoll, for a network of `slaves` slaves. */
  function DoPoll(m: Master, w: World, slaves: nat): Master
    requires |m.buffer| >= 2 && ValidWorld(w)
  {
    if m.life != Enabled || m.pending == None then m
    else
      var m0 := m.(pending := None);
      match m.pending.value
      case Ready => m0
      case FrameReceived => OnReceived(m0, w)
      case Execute => OnExecute(m0, w, slaves)
      case FrameSent => Log(m0.(buffer := w.sendBuffer), [Send(m.dest)])
      case ErrorProcess => Log(m0.(buffer := w.sendBuffer), [ErrorCallback(m.error), Release])
  }

  // What may happen next.  The port may post anything but Execute, and an error with its type
  // (a timeout); the application sets the destination of a request.
  datatype Input =
    | Post(event: Event, error: ErrorType)
    | Enable
    | Disable
    | SetDest(dest: nat)
    | Poll(world: World)

  predicate ValidInput(i: Input) {
    (i.Post? ==> i.event != Execute) && (i.Poll? ==> ValidWorld(i.world))
  }

  function Step(m: Master, i: Input, slaves: nat): (m': Master)
    requires |m.buffer| >= 2 && ValidInput(i)
    ensures |m'.buffer| >= 2
  {
    match i
    case Post(event, error) => m.(pending := Some(event), error := if event == ErrorProcess then error else m.error)
    case Enable => if m.life == Disabled then m.(life := Enabled) else m
    case Disable => if m.life == Enabled then m.(life := Disabled) else m
    case SetDest(dest) => m.(dest := dest)
    case Poll(w) => DoPoll(m, w, slaves)
  }

  function Run(m: Master, inputs: seq<Input>, slaves: nat): (r: Master)
    requires |m.buffer| >= 2 && forall k | 0 <= k < |inputs| :: ValidInput(inputs[k])
    ensures |r.buffer| >= 2
    decreases |inputs|
  {
    if inputs == [] then m else Run(Step(m, inputs[0], slaves), inputs[1..], slaves)
  }

  // ----- What every run keeps -----

  function Count(log: seq<Action>, p: Action -> bool): nat {
    if log == [] then 0 else (if p(log[0]) then 1 else 0) + Count(log[1..], p)
  }

  function IsRelease(a: Action): bool { a.Release? }
  function IsSuccess(a: Action): bool { a.Success? }
  function IsErrorCallback(a: Action): bool { a.ErrorCallback? }
  function IsExecuteError(a: Action): bool { a == PostError(ExecuteFunction) }

  lemma {:induction false} CountAppend(a: seq<Action>, b: seq<Action>, p: Action -> bool)
    ensures Count(a + b, p) == Count(a, p) + Count(b, p)
    decreases |a|
  {
    if a == [] {
      assert a + b == b;
    } else {
      assert (a + b)[1..] == a[1..] + b;
      CountAppend(a[1..], b, p);
    }
  }

  lemma {:induction false} CallsCountNothing(calls: seq<Action>, p: Action -> bool)
    requires forall k | 0 <= k < |calls| :: !p(calls[k])
    ensures Count(calls, p) == 0
    decreases |calls|
  {
    if calls != [] {
      CallsCountNothing(calls[1..], p);
    }
  }

  // Releases are paid for by successes and by error events handled; each Execute came to a success
  // or to an error; the mode flag is down; and every handler was called with the flag up.
  ghost predicate Balanced(m: Master) {
    && Count(m.log, IsRelease) == Count(m.log, IsSuccess) + Count(m.log, IsErrorCallback)
    && m.executed == Count(m.log, IsSuccess) + Count(m.log, IsExecuteError)
  }

  ghost predicate Inv(m: Master) {
    && |m.buffer| >= 2 && !m.masterMode && Balanced(m) && Consistent(m.table)
    && forall k | 0 <= k < |m.log| && m.log[k].Call? :: m.log[k].masterMode && m.log[k].handler.Some?
  }

  lemma {:induction false} CountLog(m: Master, calls: seq<Action>, last: seq<Action>, p: Action -> bool)
    requires forall k | 0 <= k < |calls| :: !p(calls[k])
    ensures Count(m.log + (calls + last), p) == Count(m.log, p) + Count(last, p)
  {
    CallsCountNothing(calls, p);
    CountAppend(calls, last, p);
    CountAppend(m.log, calls + last, p);
  }

  // Handler calls followed by `last` keep the balance if `last` is balanced.
  lemma {:induction false} LogKeepsBalance(m: Master, n: nat, calls: seq<Action>, last: seq<Action>)
    requires Balanced(m) && forall k | 0 <= k < |calls| :: calls[k].Call?
    requires Count(last, IsRelease) == Count(last, IsSuccess) + Count(last, IsErrorCallback)
    requires n == Count(last, IsSuccess) + Count(last, IsExecuteError)
    ensures Balanced(Log(m.(executed := m.executed + n), calls + last))
  {
    CountLog(m, calls, last, IsRelease);
    CountLog(m, calls, last, IsSuccess);
    CountLog(m, calls, last, IsErrorCallback);
    CountLog(m, calls, last, IsExecuteError);
  }

  lemma {:induction false} CountOne(a: Action, p: Action -> bool)
    ensures Count([a], p) == if p(a) then 1 else 0
  {
  }

  lemma {:induction false} CountTwo(a: Action, b: Action, p: Action -> bool)
    ensures Count([a, b], p) == (if p(a) then 1 else 0) + if p(b) then 1 else 0
  {
    assert [a, b][1..] == [b];
    CountOne(b, p);
  }

  lemma {:induction false} CountEach(last: seq<Action>)
    requires 1 <= |last| <= 2
    ensures forall p :: Count(last, p) == (if p(last[0]) then 1 else 0) + if |last| == 2 && p(last[1]) then 1 else 0
  {
    forall p ensures Count(last, p) == (if p(last[0]) then 1 else 0) + if |last| == 2 && p(last[1]) then 1 else 0 {
      if |last| == 1 {
        assert last == [last[0]];
        CountOne(last[0], p);
      } else {
        assert last == [last[0], last[1]];
        CountTwo(last[0], last[1], p);
      }
    }
  }

  lemma ExecuteKeepsInv(m: Master, w: World, slaves: nat)
    requires Inv(m)
    ensures Inv(OnExecute(m, w, slaves))
  {
    hide Count;
    var h := Handle(m, w, slaves);
    var last := if h.exception != 0 then [PostError(ExecuteFunction)] else [Success, Release];
    CountEach(last);
    LogKeepsBalance(m, 1, h.calls, last);
  }

  lemma PollKeepsInv(m: Master, w: World, slaves: nat)
    requires Inv(m) && ValidWorld(w)
    ensures Inv(DoPoll(m, w, slaves))
  {
    hide Count, OnExecute;
    if m.life == Enabled && m.pending.Some? {
      var m0 := m.(pending := None);
      var last := match m.pending.value
        case FrameReceived => [PostError(ReceiveData)]
        case FrameSent => [Send(m.dest)]
        case _ => [ErrorCallback(m.error), Release];
      CountEach(last);
      assert [] + last == last;
      LogKeepsBalance(m0, 0, [], last);
      if m.pending.value == Execute {
        ExecuteKeepsInv(m0, w, slaves);
      }
    }
  }

  /** Over every run: the run resource is released exactly once for each success and once for each
      error event handled; each Execute event came to exactly one success or one posted error; the
      master-mode flag is down between polls and was up for every handler call; and no absent
      handler was called. */
  lemma {:induction false} MasterRunsAreSafe(m: Master, inputs: seq<Input>, slaves: nat)
    requires Inv(m) && forall k | 0 <= k < |inputs| :: ValidInput(inputs[k])
    ensures Inv(Run(m, inputs, slaves))
    decreases |inputs|
  {
    if inputs != [] {
      assert ValidInput(inputs[0]);
      if inputs[0].Poll? {
        PollKeepsInv(m, inputs[0].world, slaves);
      }
      MasterRunsAreSafe(Step(m, inputs[0], slaves), inputs[1..], slaves);
    }
  }

  /** A broadcast calls the handler once for each slave 1..N, in order, and succeeds if and only if
      the call for the last slave does: the exceptions of the others are lost.  The destination
      address is left at N. */
  lemma {:induction false} BroadcastReachesAll(m: Master, w: World, slaves: nat)
    requires Inv(m) && m.buffer[0] < 128 && Scan(m.table, m.buffer[0]).Some? && w.broadcast && slaves > 0
    requires m.life == Enabled && m.pending == Some(Execute) && ValidWorld(w)
    ensures var m' := DoPoll(m, w, slaves);
            var added := m'.log[|m.log|..];
            && m.log <= m'.log && |added| >= slaves
            && (forall k | 0 <= k < slaves :: added[k] == Call(k + 1, true, Dispatch(m.table, m.buffer[0])))
            && (added[slaves..] == if w.answers(slaves) == 0 then [Success, Release] else [PostError(ExecuteFunction)])
            && (m'.pending == Some(ErrorProcess) <==> w.answers(slaves) != 0)
            && m'.dest == slaves
  {
    var calls := BroadcastCalls(Dispatch(m.table, m.buffer[0]), 1, slaves);
    var last := if w.answers(slaves) == 0 then [Success, Release] else [PostError(ExecuteFunction)];
    var m' := DoPoll(m, w, slaves);
    assert m'.log == m.log + (calls + last);
    assert m'.log[|m.log|..] == calls + last;
  }

  // ----- What a poll comes to -----

  // The handler calls a response leads to and the exception that is left: with the error bit set no
  // call and the second byte of the frame; without a handler in reach no call and exception 1; in a
  // unicast one call for the destination and what it returns; in a broadcast one call for each
  // slave 1..N and what the last returns.
  ghost predicate Outcome(m: Master, w: World, slaves: nat, calls: seq<Action>, exception: Byte)
    requires |m.buffer| >= 2
  {
    var code := m.buffer[0];
    var handler := Dispatch(m.table, code);
    if code >= 128 then
      calls == [] && exception == m.buffer[1]
    else if !Reached(m.table, code) then
      calls == [] && exception == 1
    else if !w.broadcast then
      calls == [Call(m.dest, true, handler)] && exception == w.answers(m.dest)
    else
      && |calls| == slaves && (forall k | 0 <= k < slaves :: calls[k] == Call(k + 1, true, handler))
      && exception == if slaves == 0 then 1 else w.answers(slaves)
  }

  lemma HandleOutcome(m: Master, w: World, slaves: nat)
    requires |m.buffer| >= 2
    ensures Outcome(m, w, slaves, Handle(m, w, slaves).calls, Handle(m, w, slaves).exception)
  {
    ReachedIff(m.table, m.buffer[0]);
  }

  // The log is a, then the calls, then success and release or one posted error.
  ghost predicate Concluded(a: seq<Action>, log: seq<Action>, calls: seq<Action>, exception: Byte) {
    log == a + (calls + if exception == 0 then [Success, Release] else [PostError(ExecuteFunction)])
  }

  /** An Execute event makes the calls and leaves the exception that `Outcome` says.  What is logged
      ends in success and release if and only if that exception is 0, and otherwise in a posted
      error; nothing else is logged and nothing else is pending.  A broadcast leaves the destination at
      the last slave. */
  lemma ExecuteOutcome(m: Master, w: World, slaves: nat)
    requires |m.buffer| >= 2 && ValidWorld(w) && m.life == Enabled && m.pending == Some(Execute)
    ensures var m' := DoPoll(m, w, slaves);
            exists calls, e :: Outcome(m, w, slaves, calls, e) && Concluded(m.log, m'.log, calls, e)
              && m'.pending == (if e == 0 then None else Some(ErrorProcess))
              && m'.error == (if e == 0 then m.error else ExecuteFunction)
              && m'.dest == (if w.broadcast && calls != [] then slaves else m.dest)
              && m'.buffer == m.buffer && m'.table == m.table && m'.life == m.life
  {
    var m0 := m.(pending := None);
    var h := Handle(m0, w, slaves);
    HandleOutcome(m0, w, slaves);
    assert Outcome(m, w, slaves, h.calls, h.exception);
    assert Concluded(m.log, DoPoll(m, w, slaves).log, h.calls, h.exception);
  }

  /** A received frame is executed next if and only if it is valid and from the slave the request
      went to; otherwise a receive error is posted.  An error event calls back once, with the error
      that was recorded, and releases the run resource. */
  lemma OtherOutcomes(m: Master, w: World, slaves: nat)
    requires |m.buffer| >= 2 && ValidWorld(w) && m.life == Enabled && m.pending.Some?
    ensures var m' := DoPoll(m, w, slaves);
            && (m.pending == Some(FrameReceived) ==>
                  && m'.buffer == w.received
                  && (m'.pending == Some(Execute) <==> w.ok && w.address == m.dest)
                  && (m'.pending != Some(Execute) ==>
                        m'.pending == Some(ErrorProcess) && m'.error == ReceiveData)
                  && (m'.log == m.log <==> m'.pending == Some(Execute))
                  && (m'.log != m.log ==> m'.log == m.log + [PostError(ReceiveData)]))
            && (m.pending == Some(ErrorProcess) ==>
                  m'.pending == None && m'.log == m.log + [ErrorCallback(m.error), Release])
            && (m.pending == Some(FrameSent) ==>
                  m'.pending == None && m'.log == m.log + [Send(m.dest)] && m'.buffer == w.sendBuffer)
  {
    assert |m.log + [PostError(ReceiveData)]| > |m.log|;
  }

  lemma HandleIgnoresCount(m: Master, w: World, slaves: nat)
    requires |m.buffer| >= 2
    ensures Handle(m.(executed := m.executed + 1), w, slaves) == Handle(m, w, slaves)
  {
  }

  // ----- The stack as mb_m.c has it -----

  class MasterStack {
    var life: Life
    var dest: nat
    var masterMode: bool
    var error: ErrorType
    const table: HandlerTable
    var pending: Option<Event>
    var buffer: seq<Byte>
    ghost var executed: nat
    ghost var log: seq<Action>

    ghost function View(): Master
      reads this, table.entries
    {
      Master(life, dest, masterMode, error, table.entries[..], pending, buffer, executed, log)
    }

    constructor (handlers: seq<Entry>)
      requires Consistent(handlers)
      ensures Inv(View()) && life == Disabled && log == []
    {
      life, dest, masterMode, error, pending, buffer := Disabled, 0, false, RespondTimeout, None, [0, 0];
      table := new HandlerTable(handlers);
      executed, log := 0, [];
    }

    // Find the handler for a response and call it.
    method CallHandler(w: World, slaves: nat) returns (exception: Byte)
      requires |buffer| >= 2
      modifies this`dest, this`masterMode, this`log
      ensures var h := Handle(old(View()), w, slaves);
              && exception == h.exception && dest == h.dest && log == old(log) + h.calls
              && masterMode == (!h.found && old(masterMode))
      ensures old(log) <= log && Outcome(old(View()), w, slaves, log[|old(log)|..], exception)
    {
      HandleOutcome(View(), w, slaves);
      var code := buffer[0];
      exception := IllegalFunction;
      if code >= 128 {
        exception := buffer[1];
      } else {
        var slot := table.ScanFor(code);
        if slot.Some? {
          masterMode := true;
          if w.broadcast {
            exception := CallAll(table.entries[slot.value].handler, w, slaves);
          } else {
            log := log + [Call(dest, masterMode, table.entries[slot.value].handler)];
            exception := w.answers(dest);
          }
          masterMode := false;
        }
      }
    }

    // The EV_MASTER_EXECUTE case of eMBMasterPoll.
    method ExecuteResponse(w: World, slaves: nat)
      requires |buffer| >= 2
      modifies this`dest, this`masterMode, this`error, this`pending, this`executed, this`log
      ensures View() == OnExecute(old(View()), w, slaves)
      ensures exists calls, e :: Outcome(old(View()), w, slaves, calls, e) && Concluded(old(log), log, calls, e)
    {
      hide Handle, Outcome;
      HandleOutcome(View(), w, slaves);
      ghost var h := Handle(View(), w, slaves);
      executed := executed + 1;
      assert Handle(View(), w, slaves) == h by {
        HandleIgnoresCount(old(View()), w, slaves);
      }
      var exception := CallHandler(w, slaves);
      if exception != 0 {
        error := ExecuteFunction;
        pending := Some(ErrorProcess);
        log := log + [PostError(ExecuteFunction)];
        assert Concluded(old(log), log, h.calls, h.exception);
      } else {
        log := log + [Success];
        log := log + [Release];
        assert Concluded(old(log), log, h.calls, h.exception);
      }
    }

    // The loop over all slaves.
    method CallAll(handler: Option<Handler>, w: World, slaves: nat) returns (exception: Byte)
      requires masterMode
      modifies this`dest, this`log
      ensures log == old(log) + BroadcastCalls(handler, 1, slaves)
      ensures exception == if slaves == 0 then IllegalFunction else w.answers(slaves)
      ensures dest == if slaves == 0 then old(dest) else slaves
    {
      exception := IllegalFunction;
      for j := 1 to slaves + 1
        invariant log == old(log) + BroadcastCalls(handler, 1, j - 1)
        invariant exception == if j == 1 then IllegalFunction else w.answers(j - 1)
        invariant dest == if j == 1 then old(dest) else j - 1
      {
        dest := j;
        log := log + [Call(dest, masterMode, handler)];
        exception := w.answers(j);
        assert BroadcastCalls(handler, 1, j) == BroadcastCalls(handler, 1, j - 1) + [Call(j, true, handler)];
      }
    }

    // eMBMasterPoll
    method PollOnce(w: World, slaves: nat) returns (ok: bool)
      requires Inv(View()) && ValidWorld(w)
      modifies this`dest, this`masterMode, this`error, this`pending, this`buffer, this`executed, this`log
      ensures Inv(View()) && ok == (life == Enabled) && View() == DoPoll(old(View()), w, slaves)
    {
      PollKeepsInv(View(), w, slaves);
      assert |buffer| >= 2;
      hide Inv, OnExecute;
      if life != Enabled {
        return false;
      }
      ok := true;
      var event := pending;
      pending := None;
      if event == Some(FrameReceived) {
        buffer := w.received;
        if w.ok && w.address == dest {
          pending := Some(Execute);
        } else {
          error := ReceiveData;
          pending := Some(ErrorProcess);
          log := log + [PostError(ReceiveData)];
        }
      } else if event == Some(Execute) {
        ExecuteResponse(w, slaves);
      } else if event == Some(FrameSent) {
        buffer := w.sendBuffer;
        log := log + [Send(dest)];
      } else if event == Some(ErrorProcess) {
        buffer := w.sendBuffer;
        log := log + [ErrorCallback(error), Release];
      }
    }
  }
}
