/** Structured scripts, and what NSH makes of them. */
module NshStructured {
  import opened Basics
  import opened NshMachine

  // ----- Scripts as trees -----

  datatype Prog =
    | Empty
    | Seq(first: Prog, rest: Prog)
    | Simple(argv: Argv)
    | BreakCmd
    | IfElse(inverted: bool, cond: Argv, thn: Prog, els: Option<Prog>)
    | Loop(until: bool, cond: Argv, body: Prog)

  // The commands of a script, in the order in which they stand in the file, each reserved word that
  // opens a branch or a body on its own.
  function Flatten(p: Prog): seq<Argv> {
    match p
    case Empty => []
    case Seq(a, b) => Flatten(a) + Flatten(b)
    case Simple(argv) => [argv]
    case BreakCmd => [[Break]]
    case IfElse(inverted, cond, thn, els) =>
      [IfHead(inverted, cond), [Then]] + Flatten(thn) + FlattenElse(els) + [[Fi]]
    case Loop(until, cond, body) =>
      [LoopHead(until, cond), [Do]] + Flatten(body) + [[Done]]
  }

  function FlattenElse(els: Option<Prog>): seq<Argv> {
    match els
    case None => []
    case Some(p) => [[Else]] + Flatten(p)
  }

  function IfHead(inverted: bool, cond: Argv): Argv {
    (if inverted then [If, Bang] else [If]) + cond
  }

  function LoopHead(until: bool, cond: Argv): Argv {
    [if until then Until else While] + cond
  }

  // A command that does not begin with a reserved word.
  predicate IsCommand(argv: Argv) {
    argv != [] && argv[0].Word?
  }

  // A command that can stand as a condition: its name is not the empty string either.
  predicate IsCondition(argv: Argv) {
    IsCommand(argv) && argv[0] != Word("")
  }

  predicate WellFormed(p: Prog) {
    match p
    case Empty => true
    case Seq(a, b) => WellFormed(a) && WellFormed(b)
    case Simple(argv) => argv == [] || IsCommand(argv)
    case BreakCmd => true
    case IfElse(_, cond, thn, els) => IsCondition(cond) && WellFormed(thn) && (els.Some? ==> WellFormed(els.value))
    case Loop(_, cond, body) => IsCondition(cond) && WellFormed(body)
  }

  function Max(a: nat, b: nat): nat {
    if a < b then b else a
  }

  function IfDepth(p: Prog): nat {
    match p
    case Seq(a, b) => Max(IfDepth(a), IfDepth(b))
    case IfElse(_, _, thn, els) => 1 + Max(IfDepth(thn), if els.Some? then IfDepth(els.value) else 0)
    case Loop(_, _, body) => IfDepth(body)
    case _ => 0
  }

  function LoopDepth(p: Prog): nat {
    match p
    case Seq(a, b) => Max(LoopDepth(a), LoopDepth(b))
    case IfElse(_, _, thn, els) => Max(LoopDepth(thn), if els.Some? then LoopDepth(els.value) else 0)
    case Loop(_, _, body) => 1 + LoopDepth(body)
    case _ => 0
  }

  // ----- What NSH makes of a tree -----

  // `err` is the status of the last line; `live` is false in a loop body that is being skipped,
  // because the condition failed or a `break` was met.  The if stack is kept as it is in the parser,
  // because `break` takes it back to where the loop began, and `else` and `fi` then meet entries
  // that are not their own.  `said` is the number of messages about rejected words.
  datatype RawState =
    State(trace: Trace, fail: bool, err: bool, live: bool, ie: seq<Itef>, top: nat, said: nat)

  type St = st: RawState | st.top < |st.ie|
    witness State([], false, false, true, [Itef(false, false, false, ItefNormal)], 0, 0)

  // The commands of the script have been passed, or the script stopped at a failing command.
  datatype Outcome = Finished(st: St) | Aborted(st: St)

  predicate IsOn(e: Itef) {
    !e.disabled && (e.state == ItefThen ==> !e.ifcond) && (e.state == ItefElse ==> e.ifcond)
  }

  // Commands run: the innermost `if` allows it, and so does the loop body.  `mark` is the level of
  // the if stack where the innermost loop began, if there is a loop.
  predicate Enabled(st: St, mark: Option<nat>) {
    (mark.Some? ==> st.live) && IsOn(st.ie[st.top])
  }

  // Run a condition: its result is returned, and the last status becomes success.
  function RunCond(cond: Argv, st: St, o: Oracle): (r: (St, bool))
    ensures r.0.ie == st.ie && r.0.top == st.top
  {
    var trace := st.trace + [cond];
    (st.(trace := trace, fail := false, err := false), o(trace, st.fail))
  }

  // `if cond` and `then`.
  function EnterIf(inverted: bool, cond: Argv, st: St, o: Oracle, mark: Option<nat>): (r: St)
    requires st.top + 1 < |st.ie|
    ensures |r.ie| == |st.ie| && r.said == st.said
  {
    var on := Enabled(st, mark);
    var (st1, failed) := if on then RunCond(cond, st, o) else (st.(err := false), false);
    st1.(ie := st.ie[st.top + 1 := Itef(on && inverted != failed, !on, inverted, ItefThen)], top := st.top + 1)
  }

  // `else` or `fi` out of place: a message is printed, the if stack is emptied and the line fails.
  function Reject(st: St, ignore: bool): (r: Outcome)
    ensures |r.st.ie| == |st.ie| && st.said < r.st.said
  {
    var st1 := st.(ie := st.ie[0 := Itef(false, false, false, ItefNormal)], top := 0, fail := true, err := true,
                   said := st.said + 1);
    if ignore then Finished(st1) else Aborted(st1)
  }

  function AtElse(st: St, ignore: bool): (r: Outcome)
    ensures |r.st.ie| == |st.ie| && st.said <= r.st.said
  {
    var e := st.ie[st.top];
    if e.state == ItefThen then Finished(st.(ie := st.ie[st.top := e.(state := ItefElse)], err := false))
    else Reject(st, ignore)
  }

  function AtFi(st: St, ignore: bool): (r: Outcome)
    ensures |r.st.ie| == |st.ie| && st.said <= r.st.said
  {
    if st.ie[st.top].state in {ItefThen, ItefElse} && st.top > 0 then Finished(st.(top := st.top - 1, err := false))
    else Reject(st, ignore)
  }

  // `while cond` or `until cond`, and `do`.  The condition runs unless an `if` suppresses it, even
  // in a loop body that is being skipped.
  function EnterLoop(until: bool, cond: Argv, st: St, o: Oracle): (r: St)
    ensures r.ie == st.ie && r.top == st.top && r.said == st.said
  {
    if IsOn(st.ie[st.top]) then
      var (st1, failed) := RunCond(cond, st, o);
      st1.(live := failed == until)
    else
      st.(err := false, live := false)
  }

  /** What NSH does with the tree p, or None if more than `fuel` jumps back are made or an `if` does
      not fit on its stack. */
  function Eval(p: Prog, st: St, o: Oracle, ignore: bool, mark: Option<nat>, fuel: nat): (r: Option<Outcome>)
    requires mark.Some? ==> mark.value < |st.ie|
    ensures r.Some? ==> |r.value.st.ie| == |st.ie|
    decreases fuel, p
  {
    match p
    case Empty => Some(Finished(st))
    case Seq(a, b) =>
      (match Eval(a, st, o, ignore, mark, fuel)
       case Some(Finished(st1)) => Eval(b, st1, o, ignore, mark, fuel)
       case other => other)
    case Simple(argv) =>
      if argv == [] || !Enabled(st, mark) then
        Some(Finished(st.(err := false)))
      else
        var trace := st.trace + [argv];
        var failed := o(trace, st.fail);
        var st1 := st.(trace := trace, fail := failed, err := failed);
        Some(if failed && !ignore then Aborted(st1) else Finished(st1))
    case BreakCmd =>
      Some(Finished(
        if !Enabled(st, mark) then st.(err := false)
        else if mark.None? then st.(fail := false, err := false)
        else st.(fail := false, err := false, live := false, top := mark.value)))
    case IfElse(inverted, cond, thn, els) =>
      if st.top + 1 >= |st.ie| then
        None
      else
        (match Eval(thn, EnterIf(inverted, cond, st, o, mark), o, ignore, mark, fuel)
         case Some(Finished(st2)) =>
           (match els
            case None => Some(AtFi(st2, ignore))
            case Some(q) =>
              (match AtElse(st2, ignore)
               case Finished(st3) =>
                 (match Eval(q, st3, o, ignore, mark, fuel)
                  case Some(Finished(st4)) => Some(AtFi(st4, ignore))
                  case other => other)
               case Aborted(st3) => Some(Aborted(st3))))
         case other => other)
    case Loop(until, cond, body) =>
      (match Eval(body, EnterLoop(until, cond, st, o), o, ignore, Some(st.top), fuel)
       case Some(Finished(st2)) =>
         var st3 := st2.(err := false, live := st.live);
         if !st2.live then Some(Finished(st3))
         else if fuel == 0 then None
         else Eval(p, st3, o, ignore, mark, fuel - 1)
       case other => other)
  }

  // Eval, case by case.
  lemma {:induction false} EvalSeq(p: Prog, st: St, o: Oracle, ignore: bool, mark: Option<nat>, fuel: nat)
    requires p.Seq? && (mark.Some? ==> mark.value < |st.ie|)
    ensures var r := Eval(p.first, st, o, ignore, mark, fuel);
            Eval(p, st, o, ignore, mark, fuel) ==
            if r.Some? && r.value.Finished? then Eval(p.rest, r.value.st, o, ignore, mark, fuel) else r
  {
  }

  lemma {:induction false} EvalIf(p: Prog, st: St, o: Oracle, ignore: bool, mark: Option<nat>, fuel: nat)
    requires p.IfElse? && (mark.Some? ==> mark.value < |st.ie|)
    ensures st.top + 1 >= |st.ie| ==> Eval(p, st, o, ignore, mark, fuel) == None
    ensures st.top + 1 < |st.ie| ==>
              var r := Eval(p.thn, EnterIf(p.inverted, p.cond, st, o, mark), o, ignore, mark, fuel);
              Eval(p, st, o, ignore, mark, fuel) ==
              if r.None? || r.value.Aborted? then r else Close(p, r.value.st, o, ignore, mark, fuel)
  {
  }

  // From the end of the then branch to past the `fi`.
  function Close(p: Prog, st: St, o: Oracle, ignore: bool, mark: Option<nat>, fuel: nat): Option<Outcome>
    requires p.IfElse? && (mark.Some? ==> mark.value < |st.ie|)
  {
    if p.els.None? then Some(AtFi(st, ignore))
    else
      var r := AtElse(st, ignore);
      if r.Aborted? then Some(r)
      else
        var r2 := Eval(p.els.value, r.st, o, ignore, mark, fuel);
        if r2.None? || r2.value.Aborted? then r2 else Some(AtFi(r2.value.st, ignore))
  }

  lemma {:induction false} EvalLoop(p: Prog, st: St, o: Oracle, ignore: bool, mark: Option<nat>, fuel: nat)
    requires p.Loop? && (mark.Some? ==> mark.value < |st.ie|)
    ensures var r := Eval(p.body, EnterLoop(p.until, p.cond, st, o), o, ignore, Some(st.top), fuel);
            Eval(p, st, o, ignore, mark, fuel) ==
            if r.None? || r.value.Aborted? then r
            else
              var st3 := r.value.st.(err := false, live := st.live);
              if !r.value.st.live then Some(Finished(st3))
              else if fuel == 0 then None
              else Eval(p, st3, o, ignore, mark, fuel - 1)
  {
  }
}
