/** The Modbus slave stack: an event-driven machine with a one-slot event queue. */
module ModbusSlave {
  import opened Basics
  import opened ModbusTable

  const Broadcast: Byte := 0

  datatype Event = Ready | FrameReceived | Execute | FrameSent
  datatype Life = Enabled | Disabled | NotInitialized

  // A function code with its error bit set.
  function WithErrorBit(code: Byte): Byte {
    if code < 128 then code + 128 else code
  }

  // What the frame layer hands over: the address, and the buffer that begins with the PDU.
  datatype Received = Received(ok: bool, address: Byte, buffer: seq<Byte>)

  // What a handler makes of the buffer, the length of its response and its exception code.
  datatype Answer = Answer(exception: Byte, buffer: seq<Byte>, length: nat)

  // A frame accepted for execution, and a reply that was sent.
  datatype Accepted = Accepted(address: Byte, code: Byte)
  datatype Reply = Reply(to: int, exception: Byte, pdu: seq<Byte>)

  // The statics of mb.c, the event queue, and what has been seen on the line: the frames accepted
  // and the replies; `to` in a reply is the number of the frame it answers.
  datatype Slave = Slave(life: Life, address: Byte, table: seq<Entry>, pending: Option<Event>,
                         rcvAddress: Byte, buffer: seq<Byte>,
                         accepted: seq<Accepted>, replies: seq<Reply>)

  // What may happen next.  Only the stack itself posts Execute.
  datatype Input =
    | Post(event: Event)
    | Enable
    | Disable
    | SetHandler(code: nat, handler: Option<Handler>)
    | Poll(received: Received, answer: Answer)

  // A receive buffer holds the function code and one byte of data at least.
  predicate ValidInput(i: Input) {
    && (i.Post? ==> i.event != Execute)
    && (i.Poll? ==> |i.received.buffer| >= 2 && |i.answer.buffer| >= 2 && i.answer.length <= |i.answer.buffer|)
  }

  /** EV_FRAME_RECEIVED */
  function OnReceived(s: Slave, rcv: Received): Slave
    requires |rcv.buffer| >= 2
  {
    var s1 := s.(rcvAddress := rcv.address, buffer := rcv.buffer);
    if rcv.ok && (rcv.address == s.address || rcv.address == Broadcast) then
      s1.(pending := Some(Execute), accepted := s.accepted + [Accepted(rcv.address, rcv.buffer[0])])
    else
      s1
  }

  /** EV_EXECUTE: find a handler, and answer unless the request was a broadcast. */
  function OnExecute(s: Slave, answer: Answer): Slave
    requires |s.buffer| >= 2 && |answer.buffer| >= 2 && answer.length <= |answer.buffer|
  {
    var code := s.buffer[0];
    var found := Scan(s.table, code).Some?;
    var exception := if found then answer.exception else IllegalFunction;
    var buffer := if found then answer.buffer else s.buffer;
    if s.rcvAddress == Broadcast then
      s.(buffer := buffer)
    else if exception != 0 then
      var out := buffer[0 := WithErrorBit(code)][1 := exception];
      s.(buffer := out, replies := s.replies + [Reply(|s.accepted| - 1, exception, out[..2])])
    else
      s.(buffer := buffer, replies := s.replies + [Reply(|s.accepted| - 1, exception, buffer[..answer.length])])
  }

  /** eMBPoll */
  function DoPoll(s: Slave, rcv: Received, answer: Answer): Slave
    requires |s.buffer| >= 2 && |rcv.buffer| >= 2 && |answer.buffer| >= 2 && answer.length <= |answer.buffer|
  {
    if s.life != Enabled || s.pending == None then s
    else
      var s0 := s.(pending := None);
      match s.pending.value
      case FrameReceived => OnReceived(s0, rcv)
      case Execute => OnExecute(s0, answer)
      case _ => s0
  }

  function Step(s: Slave, i: Input): (s': Slave)
    requires |s.buffer| >= 2 && ValidInput(i)
    ensures |s'.buffer| >= 2
  {
    match i
    case Post(event) => s.(pending := Some(event))
    case Enable => if s.life == Disabled then s.(life := Enabled) else s
    case Disable => if s.life == Enabled then s.(life := Disabled) else s
    case SetHandler(code, handler) => s.(table := Register(s.table, code, handler).0)
    case Poll(rcv, answer) => DoPoll(s, rcv, answer)
  }

  // ----- What every run keeps -----

  // The reply goes to an accepted unicast frame; an exception reply is the request's function
  // code with the error bit, and the exception code.
  ghost predicate GoodReply(s: Slave, r: Reply) {
    && 0 <= r.to < |s.accepted| && s.accepted[r.to].address == s.address != Broadcast
    && (r.exception != 0 ==> r.pdu == [WithErrorBit(s.accepted[r.to].code), r.exception])
  }

  ghost predicate Inv(s: Slave) {
    && |s.buffer| >= 2 && s.address != Broadcast && Consistent(s.table)
    // a pending Execute is for the last frame accepted, which is still in the buffer and unanswered
    && (s.pending == Some(Execute) ==>
          && s.accepted != [] && s.rcvAddress in {s.address, Broadcast}
          && s.accepted[|s.accepted| - 1] == Accepted(s.rcvAddress, s.buffer[0])
          && (s.replies != [] ==> s.replies[|s.replies| - 1].to < |s.accepted| - 1))
    && (forall k | 0 <= k < |s.accepted| :: s.accepted[k].address in {s.address, Broadcast})
    && (forall k | 0 <= k < |s.replies| :: GoodReply(s, s.replies[k]))
    // no frame is answered twice, and the answers come in order
    && (forall k, l | 0 <= k < l < |s.replies| :: s.replies[k].to < s.replies[l].to)
  }

  lemma ReceivedKeepsInv(s: Slave, rcv: Received)
    requires Inv(s) && |rcv.buffer| >= 2 && s.pending == None
    ensures Inv(OnReceived(s, rcv))
  {
    var s' := OnReceived(s, rcv);
    forall k | 0 <= k < |s'.replies| ensures GoodReply(s', s'.replies[k]) {
      assert GoodReply(s, s.replies[k]);
    }
  }

  lemma ExecuteKeepsInv(s: Slave, answer: Answer)
    requires Inv(s) && s.pending == Some(Execute) && |answer.buffer| >= 2 && answer.length <= |answer.buffer|
    ensures Inv(OnExecute(s.(pending := None), answer))
  {
    var s0 := s.(pending := None);
    var s' := OnExecute(s0, answer);
    forall k | 0 <= k < |s'.replies| ensures GoodReply(s', s'.replies[k]) {
      if k < |s.replies| {
        assert GoodReply(s, s.replies[k]);
      }
    }
  }

  lemma StepKeepsInv(s: Slave, i: Input)
    requires Inv(s) && ValidInput(i)
    ensures Inv(Step(s, i))
  {
    match i {
      case SetHandler(code, handler) =>
        NeverCallsNull(s.table, [Op(code, handler)]);
        TableStep(s.table, code, handler);
      case Poll(rcv, answer) =>
        if s.life == Enabled && s.pending.Some? {
          match s.pending.value {
            case FrameReceived => ReceivedKeepsInv(s.(pending := None), rcv);
            case Execute => ExecuteKeepsInv(s, answer);
            case _ =>
          }
        }
      case _ =>
    }
  }

  lemma {:induction false} TableStep(t: seq<Entry>, code: nat, handler: Option<Handler>)
    ensures Apply(t, [Op(code, handler)]) == Register(t, code, handler).0
  {
    assert [Op(code, handler)][1..] == [];
  }

  function Run(s: Slave, inputs: seq<Input>): (r: Slave)
    requires |s.buffer| >= 2 && forall k | 0 <= k < |inputs| :: ValidInput(inputs[k])
    ensures |r.buffer| >= 2
    decreases |inputs|
  {
    if inputs == [] then s else Run(Step(s, inputs[0]), inputs[1..])
  }

  lemma {:induction false} RunKeepsInv(s: Slave, inputs: seq<Input>)
    requires Inv(s) && forall k | 0 <= k < |inputs| :: ValidInput(inputs[k])
    ensures Inv(Run(s, inputs))
    decreases |inputs|
  {
    if inputs != [] {
      assert ValidInput(inputs[0]);
      StepKeepsInv(s, inputs[0]);
      RunKeepsInv(Step(s, inputs[0]), inputs[1..]);
    }
  }

  // The accepted frames that were not broadcasts, among the first n.
  function UnicastCount(acc: seq<Accepted>, n: nat): nat
    requires n <= |acc|
  {
    if n == 0 then 0 else UnicastCount(acc, n - 1) + if acc[n - 1].address != Broadcast then 1 else 0
  }

  // The first m replies answer at most the unicast frames up to the one the last of them answers.
  lemma {:induction false} RepliesAreFew(s: Slave, m: nat, n: nat)
    requires Inv(s) && m <= |s.replies| && n <= |s.accepted| && (m > 0 ==> s.replies[m - 1].to < n)
    ensures m <= UnicastCount(s.accepted, n)
    decreases n
  {
    if m > 0 {
      assert GoodReply(s, s.replies[m - 1]);
      if s.replies[m - 1].to == n - 1 {
        RepliesAreFew(s, m - 1, n - 1);
      } else {
        RepliesAreFew(s, m, n - 1);
      }
    }
  }

  /** Over every run: a pending Execute is for a valid frame addressed to this slave or to all; the
      replies answer distinct accepted unicast frames in order, so they never outnumber them and no
      broadcast is answered; and an exception reply is two bytes, the request's function code with
      its error bit and the exception code. */
  lemma {:induction false} SlaveRunsAreSafe(s: Slave, inputs: seq<Input>)
    requires Inv(s) && forall k | 0 <= k < |inputs| :: ValidInput(inputs[k])
    ensures var t := Run(s, inputs);
            && (t.pending == Some(Execute) ==>
                  t.accepted != [] && t.accepted[|t.accepted| - 1] == Accepted(t.rcvAddress, t.buffer[0])
                  && t.rcvAddress in {t.address, Broadcast})
            && |t.replies| <= UnicastCount(t.accepted, |t.accepted|)
            && (forall k | 0 <= k < |t.replies| :: GoodReply(t, t.replies[k]))
            && (forall k, l | 0 <= k < l < |t.replies| :: t.replies[k].to < t.replies[l].to)
  {
    RunKeepsInv(s, inputs);
    var t := Run(s, inputs);
    if t.replies != [] {
      assert GoodReply(t, t.replies[|t.replies| - 1]);
    }
    RepliesAreFew(t, |t.replies|, |t.accepted|);
  }

  // ----- What a run accepts and answers -----

  // The frame an input makes the slave accept: one that was received well, for this slave or for
  // all (address 0).
  function Accepts(s: Slave, i: Input): seq<Accepted>
    requires ValidInput(i)
  {
    if i.Poll? && s.life == Enabled && s.pending == Some(FrameReceived) && i.received.ok
       && (i.received.address == s.address || i.received.address == 0)
    then [Accepted(i.received.address, i.received.buffer[0])] else []
  }

  // An input that handles the Execute event.
  predicate Handles(s: Slave, i: Input) {
    i.Poll? && s.life == Enabled && s.pending == Some(Execute)
  }

  // Byte b is byte a with its highest bit set.
  predicate HighBitSet(a: Byte, b: Byte) {
    b >= 128 && b % 128 == a % 128
  }

  // The frame due for a request: what the handler made if one is reached and returns 0, and
  // otherwise the code with its error bit and the exception, which is 1 if none is reached.
  ghost predicate DueFrame(table: seq<Entry>, code: Byte, a: Answer, frame: seq<Byte>)
    requires a.length <= |a.buffer|
  {
    var exception := if Reached(table, code) then a.exception else 1;
    if exception == 0 then frame == a.buffer[..a.length]
    else |frame| == 2 && HighBitSet(code, frame[0]) && frame[1] == exception
  }

  // The reply due to the request in the buffer, which is the last frame accepted.
  ghost predicate Due(s: Slave, a: Answer, r: Reply)
    requires s.buffer != [] && a.length <= |a.buffer|
  {
    && r.to == |s.accepted| - 1
    && r.exception == (if Reached(s.table, s.buffer[0]) then a.exception else 1)
    && DueFrame(s.table, s.buffer[0], a, r.pdu)
  }

  /** One step: it accepts what `Accepts` says; it adds exactly one reply if it handles the Execute
      event of a frame to this slave alone, the reply due, and none otherwise.  A frame accepted is
      in the buffer with its Execute event pending. */
  lemma StepAnswers(s: Slave, i: Input)
    requires |s.buffer| >= 2 && ValidInput(i)
    ensures var s' := Step(s, i);
            && s'.accepted == s.accepted + Accepts(s, i)
            && (Accepts(s, i) != [] ==>
                  s'.pending == Some(Execute) && s'.rcvAddress == i.received.address && s'.buffer == i.received.buffer)
            && (Handles(s, i) ==> s'.pending == None)
            && if Handles(s, i) && s.rcvAddress != 0
               then exists r :: Due(s, i.answer, r) && s'.replies == s.replies + [r]
               else s'.replies == s.replies
  {
    if Handles(s, i) && s.rcvAddress != 0 {
      var code := s.buffer[0];
      ReachedIff(s.table, code);
      var r := Step(s, i).replies[|s.replies|];
      assert Due(s, i.answer, r);
    }
  }

  // The numbers of the frames whose Execute event a run handles.
  function HandledFrames(s: Slave, inputs: seq<Input>): set<int>
    requires |s.buffer| >= 2 && forall k | 0 <= k < |inputs| :: ValidInput(inputs[k])
    decreases |inputs|
  {
    if inputs == [] then {}
    else (if Handles(s, inputs[0]) then {|s.accepted| - 1} else {}) + HandledFrames(Step(s, inputs[0]), inputs[1..])
  }

  // Some reply after the first n answers frame f.
  ghost predicate Answered(replies: seq<Reply>, n: nat, f: int) {
    exists k | n <= k < |replies| :: replies[k].to == f
  }

  lemma {:induction false} RunExtends(s: Slave, inputs: seq<Input>)
    requires |s.buffer| >= 2 && forall k | 0 <= k < |inputs| :: ValidInput(inputs[k])
    ensures s.accepted <= Run(s, inputs).accepted && s.replies <= Run(s, inputs).replies
    decreases |inputs|
  {
    if inputs != [] {
      StepAnswers(s, inputs[0]);
      RunExtends(Step(s, inputs[0]), inputs[1..]);
    }
  }

  // What a step adds to the replies answers the last accepted frame, if the step handles the
  // Execute event of a unicast frame.
  lemma StepAnsweredIff(s: Slave, i: Input, f: int)
    requires Inv(s) && ValidInput(i)
    ensures var s' := Step(s, i);
            && s.replies <= s'.replies
            && (Answered(s'.replies, |s.replies|, f) <==>
                  Handles(s, i) && f == |s.accepted| - 1 && s.accepted[f].address != 0)
  {
    StepAnswers(s, i);
    if Handles(s, i) && s.rcvAddress != 0 {
      assert Step(s, i).replies[|s.replies|].to == |s.accepted| - 1;
    }
  }

  /** Over every run: a frame is answered if and only if it was sent to this slave alone and its
      Execute event was handled.  So a frame is left unanswered exactly if it was a broadcast or its
      Execute event was never handled. */
  lemma {:induction false} AnsweredIff(s: Slave, inputs: seq<Input>, f: int)
    requires Inv(s) && forall k | 0 <= k < |inputs| :: ValidInput(inputs[k])
    ensures var t := Run(s, inputs);
            Answered(t.replies, |s.replies|, f) <==>
            f in HandledFrames(s, inputs) && 0 <= f < |t.accepted| && t.accepted[f].address != 0
    decreases |inputs|
  {
    if inputs != [] {
      var i, s' := inputs[0], Step(s, inputs[0]);
      var t := Run(s, inputs);
      StepKeepsInv(s, i);
      StepAnswers(s, i);
      StepAnsweredIff(s, i, f);
      RunExtends(s', inputs[1..]);
      AnsweredIff(s', inputs[1..], f);
      AnsweredSplits(s'.replies, t.replies, |s.replies|, f);
      if Handles(s, i) && f == |s.accepted| - 1 {
        assert t.accepted[f] == s.accepted[f];
      }
    }
  }

  // The replies are those due, one for each unicast frame whose Execute event the run handles, in the
  // order in which they are handled.
  ghost predicate RepliesDue(s: Slave, inputs: seq<Input>, replies: seq<Reply>)
    requires |s.buffer| >= 2 && forall k | 0 <= k < |inputs| :: ValidInput(inputs[k])
    decreases |inputs|
  {
    if inputs == [] then replies == []
    else if Handles(s, inputs[0]) && s.rcvAddress != 0 then
      assert ValidInput(inputs[0]);
      && replies != [] && Due(s, inputs[0].answer, replies[0])
      && RepliesDue(Step(s, inputs[0]), inputs[1..], replies[1..])
    else RepliesDue(Step(s, inputs[0]), inputs[1..], replies)
  }

  /** Over every run: what is sent is exactly the replies due, each as it is due in the state in which
      the Execute event is handled. */
  lemma {:induction false} RunSendsWhatIsDue(s: Slave, inputs: seq<Input>)
    requires |s.buffer| >= 2 && forall k | 0 <= k < |inputs| :: ValidInput(inputs[k])
    ensures s.replies <= Run(s, inputs).replies
    ensures RepliesDue(s, inputs, Run(s, inputs).replies[|s.replies|..])
    decreases |inputs|
  {
    hide Due, Step;
    if inputs != [] {
      var i, s', n := inputs[0], Step(s, inputs[0]), |s.replies|;
      StepAnswers(s, i);
      RunSendsWhatIsDue(s', inputs[1..]);
      var all := Run(s, inputs).replies;
      if Handles(s, i) && s.rcvAddress != 0 {
        assert all[n] == s'.replies[n] && all[n..][1..] == all[n + 1..];
      }
    }
  }

  lemma AnsweredSplits(a: seq<Reply>, b: seq<Reply>, n: nat, f: int)
    requires n <= |a| && a <= b
    ensures Answered(b, n, f) <==> Answered(a, n, f) || Answered(b, |a|, f)
  {
    if Answered(a, n, f) {
      var k :| n <= k < |a| && a[k].to == f;
      assert b[k].to == f;
    }
  }

  // ----- The stack as mb.c has it -----

  class SlaveStack {
    var life: Life
    var address: Byte
    const table: HandlerTable
    var pending: Option<Event>       // the port's event queue
    var rcvAddress: Byte             // ucRcvAddress
    var buffer: seq<Byte>            // what ucMBFrame points to
    ghost var accepted: seq<Accepted>
    ghost var replies: seq<Reply>

    ghost function View(): Slave
      reads this, table.entries
    {
      Slave(life, address, table.entries[..], pending, rcvAddress, buffer, accepted, replies)
    }

    // eMBInit; the address must be that of one slave.
    constructor (slave: Byte, handlers: seq<Entry>)
      requires 1 <= slave <= 247 && Consistent(handlers)
      ensures Inv(View()) && life == Disabled && pending == None && accepted == [] && replies == []
    {
      life, address, pending, rcvAddress, buffer := Disabled, slave, None, 0, [0, 0];
      table := new HandlerTable(handlers);
      accepted, replies := [], [];
    }

    method EnableStack() returns (ok: bool)
      requires Inv(View())
      modifies this`life
      ensures Inv(View()) && ok == (old(life) == Disabled) && View() == Step(old(View()), Enable)
      ensures life == if ok then Enabled else old(life)
    {
      StepKeepsInv(View(), Enable);
      ok := life == Disabled;
      if ok {
        life := Enabled;
      }
    }

    method DisableStack() returns (ok: bool)
      requires Inv(View())
      modifies this`life
      ensures Inv(View()) && ok == (old(life) != NotInitialized) && View() == Step(old(View()), Disable)
      ensures life == if ok then Disabled else NotInitialized
    {
      StepKeepsInv(View(), Disable);
      ok := true;
      if life == Enabled {
        life := Disabled;
      } else if life != Disabled {
        ok := false;
      }
    }

    // The EV_EXECUTE case of eMBPoll.
    method ExecuteRequest(answer: Answer) returns (sent: Option<seq<Byte>>)
      requires |buffer| >= 2 && Consistent(table.entries[..])
      requires |answer.buffer| >= 2 && answer.length <= |answer.buffer|
      modifies this`buffer, this`replies
      ensures View() == OnExecute(old(View()), answer)
      ensures if sent == None then replies == old(replies)
              else |replies| == |old(replies)| + 1 && replies[|old(replies)|].pdu == sent.value
      ensures sent.Some? <==> rcvAddress != 0
      ensures sent.Some? ==> DueFrame(old(table.entries[..]), old(buffer)[0], answer, sent.value)
    {
      ReachedIff(table.entries[..], buffer[0]);
      sent := None;
      var code := buffer[0];
      var exception := IllegalFunction;
      var length := 0;
      var slot := table.ScanFor(code);
      if slot.Some? {
        assert table.entries[slot.value].handler.Some?;
        exception, buffer, length := answer.exception, answer.buffer, answer.length;
      }
      if rcvAddress != Broadcast {
        if exception != 0 {
          length := 0;
          buffer := buffer[length := WithErrorBit(code)];
          length := length + 1;
          buffer := buffer[length := exception];
          length := length + 1;
        }
        sent := Some(buffer[..length]);
        replies := replies + [Reply(|accepted| - 1, exception, buffer[..length])];
      }
    }

    // eMBPoll.  `sent` is the frame given to the frame layer, if any.
    method PollOnce(received: Received, answer: Answer) returns (ok: bool, sent: Option<seq<Byte>>)
      requires Inv(View()) && ValidInput(Poll(received, answer))
      modifies this`pending, this`rcvAddress, this`buffer, this`accepted, this`replies
      ensures Inv(View()) && ok == (life == Enabled) && View() == Step(old(View()), Poll(received, answer))
      ensures if sent == None then replies == old(replies)
              else |replies| == |old(replies)| + 1 && replies[|old(replies)|].pdu == sent.value
      ensures sent.Some? <==> old(life == Enabled && pending == Some(Execute) && rcvAddress != 0)
      ensures sent.Some? ==> DueFrame(old(table.entries[..]), old(buffer)[0], answer, sent.value)
    {
      StepKeepsInv(View(), Poll(received, answer));
      assert |buffer| >= 2 && Consistent(table.entries[..]);
      hide Inv, OnExecute, Consistent, DueFrame;
      sent := None;
      if life != Enabled {
        return false, None;
      }
      ok := true;
      var event := pending;
      pending := None;
      if event == Some(FrameReceived) {
        rcvAddress, buffer := received.address, received.buffer;
        if received.ok && (rcvAddress == address || rcvAddress == Broadcast) {
          pending := Some(Execute);
          accepted := accepted + [Accepted(rcvAddress, buffer[0])];
        }
      } else if event == Some(Execute) {
        sent := ExecuteRequest(answer);
      }
    }
  }
}
