/** The table of Modbus function handlers: registration, removal and the scan that stops at the
    first empty slot. */
module ModbusTable {
  import opened Basics

  type Handler = nat

  // Function code 0 and no handler mark an empty slot.
  datatype Entry = Entry(code: nat, handler: Option<Handler>)

  const Empty := Entry(0, None)

  // The exception code for a request no handler is registered for.
  const IllegalFunction: Byte := 1

  datatype Status = NoError | NoResources | Invalid

  // The slot a registration takes: the first one that is empty or already has this handler.
  function Slot(t: seq<Entry>, h: Handler): (i: nat)
    ensures i <= |t|
    ensures i < |t| ==> t[i].handler == None || t[i].handler == Some(h)
    ensures forall j | 0 <= j < i :: t[j].handler != None && t[j].handler != Some(h)
  {
    if t == [] || t[0].handler == None || t[0].handler == Some(h) then 0 else 1 + Slot(t[1..], h)
  }

  // The first slot with this function code.
  function Find(t: seq<Entry>, code: nat): (i: nat)
    ensures i <= |t|
    ensures i < |t| ==> t[i].code == code
    ensures forall j | 0 <= j < i :: t[j].code != code
  {
    if t == [] || t[0].code == code then 0 else 1 + Find(t[1..], code)
  }

  /** eMBRegisterCB */
  function Register(t: seq<Entry>, code: nat, handler: Option<Handler>): (r: (seq<Entry>, Status))
    ensures |r.0| == |t|
  {
    if !(0 < code <= 127) then
      (t, Invalid)
    else if handler.Some? then
      var i := Slot(t, handler.value);
      if i < |t| then (t[i := Entry(code, handler)], NoError) else (t, NoResources)
    else
      var i := Find(t, code);
      (if i < |t| then t[i := Empty] else t, NoError)
  }

  /** The scan of eMBPoll: the slot whose handler is called, if any. */
  function Scan(t: seq<Entry>, code: nat): (r: Option<nat>)
    ensures r.Some? ==> r.value < |t| && t[r.value].code == code != 0
    ensures r.Some? ==> forall j | 0 <= j < r.value :: t[j].code != code && t[j].code != 0
    ensures r.None? && code != 0 ==> Find(t, 0) <= Find(t, code)
  {
    if t == [] || t[0].code == 0 then None
    else if t[0].code == code then Some(0)
    else
      var r := Scan(t[1..], code);
      if r.None? then None else Some(r.value + 1)
  }

  // ----- Every reachable table -----

  // A slot has a code exactly when it has a handler.
  ghost predicate Consistent(t: seq<Entry>) {
    forall i | 0 <= i < |t| :: t[i].code == 0 <==> t[i].handler == None
  }

  datatype Op = Op(code: nat, handler: Option<Handler>)

  function Apply(t: seq<Entry>, ops: seq<Op>): (r: seq<Entry>)
    ensures |r| == |t|
    decreases |ops|
  {
    if ops == [] then t else Apply(Register(t, ops[0].code, ops[0].handler).0, ops[1..])
  }

  /** In every table reached by registrations and removals, a slot has code 0 exactly when it has no
      handler, so the scan never calls an absent one. */
  lemma {:induction false} NeverCallsNull(t: seq<Entry>, ops: seq<Op>)
    requires Consistent(t)
    ensures var t' := Apply(t, ops);
            && Consistent(t')
            && forall code :: Scan(t', code).Some? ==> t'[Scan(t', code).value].handler.Some?
    decreases |ops|
  {
    if ops != [] {
      NeverCallsNull(Register(t, ops[0].code, ops[0].handler).0, ops[1..]);
    }
  }

  /** After a successful registration the scan reaches a handler for the code, whatever gaps there
      are; it is the one just registered unless an earlier slot has the code too. */
  lemma {:induction false} RegisteredIsReached(t: seq<Entry>, code: nat, h: Handler)
    requires Consistent(t) && Register(t, code, Some(h)).1 == NoError
    ensures var t' := Register(t, code, Some(h)).0;
            var r := Scan(t', code);
            && r.Some? && r.value <= Slot(t, h)
            && (r.value == Slot(t, h) ==> t'[r.value].handler == Some(h))
            && (r.value == Slot(t, h) <==> forall j | 0 <= j < Slot(t, h) :: t[j].code != code)
  {
    var i := Slot(t, h);
    var t' := Register(t, code, Some(h)).0;
    assert t'[i] == Entry(code, Some(h));
    assert forall j | 0 <= j < i :: t'[j] == t[j] && t'[j].code != 0;
    assert Find(t', code) <= i;
  }

  // What eMBPoll calls for a function code.
  function Dispatch(t: seq<Entry>, code: nat): Option<Handler> {
    var r := Scan(t, code);
    if r.Some? then t[r.value].handler else None
  }

  // A request for the code gets to a slot that has it: no empty slot comes before.
  ghost predicate Reached(t: seq<Entry>, code: nat) {
    exists i | 0 <= i < |t| :: t[i].code == code != 0 && forall j | 0 <= j < i :: t[j].code != 0
  }

  lemma ReachedIff(t: seq<Entry>, code: nat)
    ensures Scan(t, code).Some? <==> Reached(t, code)
  {
    if Reached(t, code) {
      var i :| 0 <= i < |t| && t[i].code == code != 0 && forall j | 0 <= j < i :: t[j].code != 0;
      assert Find(t, code) <= i;
    }
  }

  /** What eMBRegisterCB makes of its arguments: a code outside 1..127 is invalid; a handler finds no
      room if and only if every slot has another handler, and otherwise takes the first slot that is
      empty or its own; and a removal always succeeds, after which no request for the code gets
      through.  An error leaves the table as it was. */
  lemma RegistrationOutcome(t: seq<Entry>, code: nat, handler: Option<Handler>)
    ensures var (t', status) := Register(t, code, handler);
            && (status == Invalid <==> code == 0 || code > 127)
            && (status == NoResources <==>
                  1 <= code <= 127 && handler.Some?
                  && forall i | 0 <= i < |t| :: t[i].handler != None && t[i].handler != handler)
            && (status != NoError ==> t' == t)
            && (status == NoError && handler.Some? ==>
                  exists i | 0 <= i < |t| ::
                    && t[i].handler in {None, handler} && t' == t[i := Entry(code, handler)]
                    && forall j | 0 <= j < i :: t[j].handler !in {None, handler})
            && (status == NoError && handler.None? ==>
                  !Reached(t', code) && forall i | 0 <= i < |t| && t'[i] != t[i] :: t[i].code == code)
  {
    var (t', status) := Register(t, code, handler);
    if status == NoError && handler.Some? {
      var i := Slot(t, handler.value);
      assert t' == t[i := Entry(code, handler)];
    } else if status == NoError {
      var i := Find(t, code);
      if i < |t| {
        ScanStops(t', code, i);
      }
      ReachedIff(t', code);
    }
  }

  /** Removing a function leaves another one in place if and only if its slot comes before the gap
      (or it was not reachable anyway): everything behind the gap is lost. */
  lemma {:induction false} RemovalKeepsIff(t: seq<Entry>, code: nat, other: nat)
    requires Consistent(t) && 0 < code <= 127 && other != code
    ensures var t' := Register(t, code, None).0;
            Dispatch(t', other) == Dispatch(t, other) <==>
            (Scan(t, other).None? || Find(t, code) == |t| || Scan(t, other).value < Find(t, code))
  {
    var i, t' := Find(t, code), Register(t, code, None).0;
    if i < |t| {
      var r := Scan(t, other);
      if r.Some? {
        if r.value < i {
          ScanIs(t', other, r.value);
        } else {
          ScanStops(t', other, i);
        }
      } else {
        GapOpensNothing(t, i, other);
      }
    }
  }

  lemma {:induction false} ScanIs(t: seq<Entry>, code: nat, i: nat)
    requires i < |t| && t[i].code == code != 0
    requires forall j | 0 <= j < i :: t[j].code != code && t[j].code != 0
    ensures Scan(t, code) == Some(i)
  {
    if i > 0 {
      ScanIs(t[1..], code, i - 1);
    }
  }

  lemma {:induction false} ScanStops(t: seq<Entry>, code: nat, i: nat)
    requires i < |t| && t[i].code == 0 && forall j | 0 <= j < i :: t[j].code != code
    ensures Scan(t, code) == None
  {
    if i > 0 {
      ScanStops(t[1..], code, i - 1);
    }
  }

  lemma {:induction false} GapOpensNothing(t: seq<Entry>, i: nat, code: nat)
    requires i < |t|
    ensures Scan(t[i := Empty], code).Some? ==> Scan(t, code).Some?
  {
    var t' := t[i := Empty];
    var r := Scan(t', code);
    if r.Some? {
      assert t'[i].code == 0;
      assert forall j | 0 <= j <= r.value :: t'[j] == t[j];
      ScanIs(t, code, r.value);
    }
  }

  // ----- The table as mb.c has it -----

  class HandlerTable {
    const entries: array<Entry>

    constructor (initial: seq<Entry>)
      ensures fresh(entries) && entries[..] == initial
    {
      entries := new Entry[|initial|](i requires 0 <= i < |initial| => initial[i]);
    }

    method RegisterCB(code: nat, handler: Option<Handler>) returns (status: Status)
      modifies entries
      ensures (entries[..], status) == Register(old(entries[..]), code, handler)
    {
      ghost var t := entries[..];
      if 0 < code <= 127 {
        var i := 0;
        if handler.Some? {
          while i < entries.Length && entries[i].handler != None && entries[i].handler != handler
            invariant i <= entries.Length && i <= Slot(t, handler.value)
          {
            i := i + 1;
          }
          if i < entries.Length {
            entries[i] := Entry(code, handler);
          }
          status := if i != entries.Length then NoError else NoResources;
        } else {
          while i < entries.Length && entries[i].code != code
            invariant i <= entries.Length && i <= Find(t, code)
          {
            i := i + 1;
          }
          if i < entries.Length {
            entries[i] := Empty;
          }
          status := NoError;
        }
      } else {
        status := Invalid;
      }
    }

    method ScanFor(code: nat) returns (r: Option<nat>)
      ensures r == Scan(entries[..], code)
    {
      var i := 0;
      while i < entries.Length
        invariant i <= entries.Length
        invariant forall j | 0 <= j < i :: entries[j].code != code && entries[j].code != 0
      {
        if entries[i].code == 0 {
          return None;
        } else if entries[i].code == code {
          return Some(i);
        }
        i := i + 1;
      }
      return None;
    }
  }
}
