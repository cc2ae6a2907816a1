/** What NSH does to its if stack: code that is skipped keeps it, and `break` inside an `if` of a loop
    body takes it back to where the loop began, so that what follows closes entries that are not its
    own. */
module NshLevels {
  import opened Basics
  import opened NshMachine
  import opened NshStructured

  // ----- Code that is skipped -----

  // The if stack is as it was, up to where it was.
  ghost predicate Kept(st: St, st': St) {
    st'.top == st.top && |st'.ie| == |st.ie| && forall k | 0 <= k <= st.top :: st'.ie[k] == st.ie[k]
  }

  // Nothing was run.
  ghost predicate Silent(st: St, st': St) {
    && Kept(st, st') && st'.trace == st.trace && st'.fail == st.fail && st'.live == st.live
    && (st'.err ==> st.err) && st'.said == st.said
  }

  // `else` and `fi` after a branch that has kept the stack.
  lemma OwnElse(st1: St, st2: St, ignore: bool)
    requires Kept(st1, st2) && st1.ie[st1.top].state == ItefThen
    ensures AtElse(st2, ignore) ==
            Finished(st2.(ie := st2.ie[st2.top := st1.ie[st1.top].(state := ItefElse)], err := false))
  {
  }

  lemma OwnFi(st: St, st1: St, st2: St, ignore: bool)
    requires st1.top == st.top + 1 && Kept(st1, st2) && |st1.ie| == |st.ie|
    requires forall k | 0 <= k <= st.top :: st1.ie[k] == st.ie[k]
    requires st1.ie[st1.top].state in {ItefThen, ItefElse}
    ensures AtFi(st2, ignore) == Finished(st2.(top := st.top, err := false))
    ensures Kept(st, st2.(top := st.top, err := false))
  {
  }

  /** Code that an `if` suppresses runs nothing, not even the condition of a loop, and leaves the if
      stack as it was; `break` may stand anywhere in it. */
  lemma {:induction false} DeadCode(p: Prog, st: St, o: Oracle, ignore: bool, mark: Option<nat>, fuel: nat)
    requires mark.Some? ==> mark.value < |st.ie|
    requires !IsOn(st.ie[st.top]) && st.top + IfDepth(p) < |st.ie|
    ensures var r := Eval(p, st, o, ignore, mark, fuel); r.Some? && r.value.Finished? && Silent(st, r.value.st)
    decreases fuel, p, 1
  {
    match p {
      case Seq(_, _) =>
        DeadSeq(p, st, o, ignore, mark, fuel);
      case IfElse(_, _, _, _) =>
        DeadIf(p, st, o, ignore, mark, fuel);
      case Loop(_, _, _) =>
        DeadLoop(p, st, o, ignore, mark, fuel);
      case _ =>
    }
  }

  lemma {:induction false} DeadSeq(p: Prog, st: St, o: Oracle, ignore: bool, mark: Option<nat>, fuel: nat)
    requires p.Seq? && (mark.Some? ==> mark.value < |st.ie|)
    requires !IsOn(st.ie[st.top]) && st.top + IfDepth(p) < |st.ie|
    ensures var r := Eval(p, st, o, ignore, mark, fuel); r.Some? && r.value.Finished? && Silent(st, r.value.st)
    decreases fuel, p, 0
  {
    hide Eval;
    EvalSeq(p, st, o, ignore, mark, fuel);
    DeadCode(p.first, st, o, ignore, mark, fuel);
    DeadCode(p.rest, Eval(p.first, st, o, ignore, mark, fuel).value.st, o, ignore, mark, fuel);
  }

  lemma {:induction false} DeadLoop(p: Prog, st: St, o: Oracle, ignore: bool, mark: Option<nat>, fuel: nat)
    requires p.Loop? && (mark.Some? ==> mark.value < |st.ie|)
    requires !IsOn(st.ie[st.top]) && st.top + IfDepth(p) < |st.ie|
    ensures var r := Eval(p, st, o, ignore, mark, fuel); r.Some? && r.value.Finished? && Silent(st, r.value.st)
    decreases fuel, p, 0
  {
    hide Eval;
    EvalLoop(p, st, o, ignore, mark, fuel);
    DeadCode(p.body, EnterLoop(p.until, p.cond, st, o), o, ignore, Some(st.top), fuel);
  }

  // An `if` met while commands are disabled, by an enclosing `if` or by a skipped loop body.
  lemma {:induction false} DeadIf(p: Prog, st: St, o: Oracle, ignore: bool, mark: Option<nat>, fuel: nat)
    requires p.IfElse? && (mark.Some? ==> mark.value < |st.ie|)
    requires !Enabled(st, mark) && st.top + IfDepth(p) < |st.ie|
    ensures var r := Eval(p, st, o, ignore, mark, fuel); r.Some? && r.value.Finished? && Silent(st, r.value.st)
    decreases fuel, p, 0
  {
    hide Eval, AtElse, AtFi, Enabled;
    EvalIf(p, st, o, ignore, mark, fuel);
    var st1 := EnterIf(p.inverted, p.cond, st, o, mark);
    DeadCode(p.thn, st1, o, ignore, mark, fuel);
    var st2 := Eval(p.thn, st1, o, ignore, mark, fuel).value.st;
    if p.els.None? {
      OwnFi(st, st1, st2, ignore);
    } else {
      OwnElse(st1, st2, ignore);
      var st3 := AtElse(st2, ignore).st;
      DeadCode(p.els.value, st3, o, ignore, mark, fuel);
      OwnFi(st, st3, Eval(p.els.value, st3, o, ignore, mark, fuel).value.st, ignore);
    }
  }

  // What has been run and said stays so.
  ghost predicate Grown(st: St, st': St) {
    st.trace <= st'.trace && st.said <= st'.said
  }

  lemma {:induction false} TraceGrows(p: Prog, st: St, o: Oracle, ignore: bool, mark: Option<nat>, fuel: nat)
    requires mark.Some? ==> mark.value < |st.ie|
    ensures var r := Eval(p, st, o, ignore, mark, fuel); r.Some? ==> Grown(st, r.value.st)
    decreases fuel, p, 1
  {
    match p {
      case Seq(a, b) =>
        TraceGrows(a, st, o, ignore, mark, fuel);
        var r := Eval(a, st, o, ignore, mark, fuel);
        if r.Some? && r.value.Finished? {
          TraceGrows(b, r.value.st, o, ignore, mark, fuel);
        }
      case IfElse(_, _, _, _) =>
        IfTraceGrows(p, st, o, ignore, mark, fuel);
      case Loop(_, _, _) =>
        LoopTraceGrows(p, st, o, ignore, mark, fuel);
      case _ =>
    }
  }

  lemma WordsRunNothing(st: St, ignore: bool)
    ensures AtElse(st, ignore).st.trace == st.trace == AtFi(st, ignore).st.trace
    ensures st.said <= AtElse(st, ignore).st.said && st.said <= AtFi(st, ignore).st.said
  {
  }

  lemma {:induction false} IfTraceGrows(p: Prog, st: St, o: Oracle, ignore: bool, mark: Option<nat>, fuel: nat)
    requires p.IfElse? && (mark.Some? ==> mark.value < |st.ie|)
    ensures var r := Eval(p, st, o, ignore, mark, fuel); r.Some? ==> Grown(st, r.value.st)
    decreases fuel, p, 0
  {
    hide Eval, Close;
    EvalIf(p, st, o, ignore, mark, fuel);
    if st.top + 1 < |st.ie| {
      var st1 := EnterIf(p.inverted, p.cond, st, o, mark);
      TraceGrows(p.thn, st1, o, ignore, mark, fuel);
      var r := Eval(p.thn, st1, o, ignore, mark, fuel);
      if r.Some? && r.value.Finished? {
        CloseTraceGrows(p, r.value.st, o, ignore, mark, fuel);
      }
    }
  }

  lemma {:induction false} CloseTraceGrows(p: Prog, st: St, o: Oracle, ignore: bool, mark: Option<nat>, fuel: nat)
    requires p.IfElse? && (mark.Some? ==> mark.value < |st.ie|)
    ensures var r := Close(p, st, o, ignore, mark, fuel); r.Some? ==> Grown(st, r.value.st)
    decreases fuel, p, 0, 0
  {
    hide Eval, AtElse, AtFi;
    WordsRunNothing(st, ignore);
    var r3 := AtElse(st, ignore);
    if p.els.Some? && r3.Finished? {
      TraceGrows(p.els.value, r3.st, o, ignore, mark, fuel);
      var r4 := Eval(p.els.value, r3.st, o, ignore, mark, fuel);
      if r4.Some? {
        WordsRunNothing(r4.value.st, ignore);
      }
    }
  }

  // A loop runs its condition at least once, if no `if` suppresses it.
  lemma {:induction false} LoopTraceGrows(p: Prog, st: St, o: Oracle, ignore: bool, mark: Option<nat>, fuel: nat)
    requires p.Loop? && (mark.Some? ==> mark.value < |st.ie|)
    ensures var r := Eval(p, st, o, ignore, mark, fuel);
            r.Some? ==> Grown(st, r.value.st) && (IsOn(st.ie[st.top]) ==> st.trace + [p.cond] <= r.value.st.trace)
    decreases fuel, p, 0
  {
    hide Eval;
    EvalLoop(p, st, o, ignore, mark, fuel);
    var st1 := EnterLoop(p.until, p.cond, st, o);
    TraceGrows(p.body, st1, o, ignore, Some(st.top), fuel);
    var r := Eval(p.body, st1, o, ignore, Some(st.top), fuel);
    if r.Some? && r.value.Finished? && r.value.st.live && fuel > 0 {
      TraceGrows(p, r.value.st.(err := false, live := st.live), o, ignore, mark, fuel - 1);
    }
  }

  // ----- `break` inside an `if` -----

  // A `break` inside an `if` of a loop body.  `inLoop` says that p lies in a loop body, and `deep`
  // that an `if` of that body is around it.
  predicate DeepBreak(p: Prog, inLoop: bool, deep: bool) {
    match p
    case Seq(a, b) => DeepBreak(a, inLoop, deep) || DeepBreak(b, inLoop, deep)
    case BreakCmd => inLoop && deep
    case IfElse(_, _, thn, els) => DeepBreak(thn, inLoop, true) || (els.Some? && DeepBreak(els.value, inLoop, true))
    case Loop(_, _, body) => DeepBreak(body, true, false)
    case _ => false
  }

  // A loop that stands in an `if` has no other loop in its body with a `break` inside an `if`.  (A
  // `break` of the outer loop would raise the stack again; see NshScripts.)
  predicate Unmended(p: Prog, inIf: bool) {
    match p
    case Seq(a, b) => Unmended(a, inIf) && Unmended(b, inIf)
    case IfElse(_, _, thn, els) => Unmended(thn, true) && (els.Some? ==> Unmended(els.value, true))
    case Loop(_, _, body) => (inIf ==> !DeepBreak(body, false, false)) && Unmended(body, inIf)
    case _ => true
  }

  lemma {:induction false} FewerBreaks(p: Prog, inLoop: bool, deep: bool)
    requires !DeepBreak(p, inLoop, deep)
    ensures !DeepBreak(p, false, false) && (deep ==> !DeepBreak(p, inLoop, false))
    decreases p
  {
    match p {
      case Seq(a, b) =>
        FewerBreaks(a, inLoop, deep);
        FewerBreaks(b, inLoop, deep);
      case IfElse(_, _, thn, els) =>
        ShallowBranches(p, inLoop);
      case _ =>
    }
  }

  // Outside a loop it does not matter how many ifs are around.
  lemma {:induction false} ShallowBranches(p: Prog, inLoop: bool)
    requires !DeepBreak(p, inLoop, true)
    ensures !DeepBreak(p, false, true) && !DeepBreak(p, false, false)
    decreases p
  {
    match p {
      case Seq(a, b) =>
        ShallowBranches(a, inLoop);
        ShallowBranches(b, inLoop);
      case IfElse(_, _, thn, els) =>
        ShallowBranches(thn, inLoop);
        if els.Some? {
          ShallowBranches(els.value, inLoop);
        }
      case _ =>
    }
  }

  // A loop body that is being skipped stays so to its end.
  lemma {:induction false} NeverRevives(p: Prog, st: St, o: Oracle, ignore: bool, mark: Option<nat>, fuel: nat)
    requires mark.Some? ==> mark.value < |st.ie|
    ensures var r := Eval(p, st, o, ignore, mark, fuel); r.Some? && r.value.Finished? && r.value.st.live ==> st.live
    decreases fuel, p, 1
  {
    match p {
      case Seq(a, b) =>
        NeverRevives(a, st, o, ignore, mark, fuel);
        var r := Eval(a, st, o, ignore, mark, fuel);
        if r.Some? && r.value.Finished? {
          NeverRevives(b, r.value.st, o, ignore, mark, fuel);
        }
      case IfElse(_, _, _, _) =>
        IfNeverRevives(p, st, o, ignore, mark, fuel);
      case Loop(_, _, _) =>
        LoopKeepsLive(p, st, o, ignore, mark, fuel);
      case _ =>
    }
  }

  lemma {:induction false} IfNeverRevives(p: Prog, st: St, o: Oracle, ignore: bool, mark: Option<nat>, fuel: nat)
    requires p.IfElse? && (mark.Some? ==> mark.value < |st.ie|)
    ensures var r := Eval(p, st, o, ignore, mark, fuel); r.Some? && r.value.Finished? && r.value.st.live ==> st.live
    decreases fuel, p, 0
  {
    hide Eval;
    EvalIf(p, st, o, ignore, mark, fuel);
    if st.top + 1 < |st.ie| {
      var st1 := EnterIf(p.inverted, p.cond, st, o, mark);
      NeverRevives(p.thn, st1, o, ignore, mark, fuel);
      var r := Eval(p.thn, st1, o, ignore, mark, fuel);
      if r.Some? && r.value.Finished? && p.els.Some? {
        var r3 := AtElse(r.value.st, ignore);
        if r3.Finished? {
          NeverRevives(p.els.value, r3.st, o, ignore, mark, fuel);
        }
      }
    }
  }

  lemma {:induction false} LoopKeepsLive(p: Prog, st: St, o: Oracle, ignore: bool, mark: Option<nat>, fuel: nat)
    requires p.Loop? && (mark.Some? ==> mark.value < |st.ie|)
    ensures var r := Eval(p, st, o, ignore, mark, fuel); r.Some? && r.value.Finished? ==> r.value.st.live == st.live
    decreases fuel
  {
    hide Eval;
    EvalLoop(p, st, o, ignore, mark, fuel);
    var r := Eval(p.body, EnterLoop(p.until, p.cond, st, o), o, ignore, Some(st.top), fuel);
    if r.Some? && r.value.Finished? && r.value.st.live && fuel > 0 {
      LoopKeepsLive(p, r.value.st.(err := false, live := st.live), o, ignore, mark, fuel - 1);
    }
  }

  // Outside every loop nothing is skipped by one.
  lemma {:induction false} OutsideKeepsLive(p: Prog, st: St, o: Oracle, ignore: bool, fuel: nat)
    ensures var r := Eval(p, st, o, ignore, None, fuel); r.Some? && r.value.Finished? ==> r.value.st.live == st.live
    decreases p, 1
  {
    match p {
      case Seq(a, b) =>
        OutsideKeepsLive(a, st, o, ignore, fuel);
        var r := Eval(a, st, o, ignore, None, fuel);
        if r.Some? && r.value.Finished? {
          OutsideKeepsLive(b, r.value.st, o, ignore, fuel);
        }
      case IfElse(_, _, _, _) =>
        IfOutsideKeepsLive(p, st, o, ignore, fuel);
      case Loop(_, _, _) =>
        LoopKeepsLive(p, st, o, ignore, None, fuel);
      case _ =>
    }
  }

  lemma {:induction false} IfOutsideKeepsLive(p: Prog, st: St, o: Oracle, ignore: bool, fuel: nat)
    requires p.IfElse?
    ensures var r := Eval(p, st, o, ignore, None, fuel); r.Some? && r.value.Finished? ==> r.value.st.live == st.live
    decreases p, 0
  {
    hide Eval;
    EvalIf(p, st, o, ignore, None, fuel);
    if st.top + 1 < |st.ie| {
      var st1 := EnterIf(p.inverted, p.cond, st, o, None);
      OutsideKeepsLive(p.thn, st1, o, ignore, fuel);
      var r := Eval(p.thn, st1, o, ignore, None, fuel);
      if r.Some? && r.value.Finished? && p.els.Some? {
        var r3 := AtElse(r.value.st, ignore);
        if r3.Finished? {
          OutsideKeepsLive(p.els.value, r3.st, o, ignore, fuel);
        }
      }
    }
  }

  // ----- The stack is kept -----

  // The outcome leaves the stack as it was, and no word was rejected.
  ghost predicate Keeping(st: St, r: Option<Outcome>) {
    r.Some? ==> r.value.st.said == st.said && (r.value.Finished? ==> Kept(st, r.value.st))
  }

  // An `if` whose branches keep the stack keeps it.
  lemma {:induction false} IfKeeps(p: Prog, st: St, o: Oracle, ignore: bool, mark: Option<nat>, fuel: nat)
    requires p.IfElse? && (mark.Some? ==> mark.value < |st.ie|) && st.top + 1 < |st.ie|
    requires var st1 := EnterIf(p.inverted, p.cond, st, o, mark);
             var r := Eval(p.thn, st1, o, ignore, mark, fuel);
             && Keeping(st1, r)
             && (r.Some? && r.value.Finished? && p.els.Some? && AtElse(r.value.st, ignore).Finished? ==>
                   var st3 := AtElse(r.value.st, ignore).st;
                   Keeping(st3, Eval(p.els.value, st3, o, ignore, mark, fuel)))
    ensures Keeping(st, Eval(p, st, o, ignore, mark, fuel))
  {
    hide Eval, AtElse, AtFi;
    EvalIf(p, st, o, ignore, mark, fuel);
    var st1 := EnterIf(p.inverted, p.cond, st, o, mark);
    var r := Eval(p.thn, st1, o, ignore, mark, fuel);
    if r.Some? && r.value.Finished? {
      if p.els.None? {
        OwnFi(st, st1, r.value.st, ignore);
      } else {
        OwnElse(st1, r.value.st, ignore);
        var st3 := AtElse(r.value.st, ignore).st;
        var r4 := Eval(p.els.value, st3, o, ignore, mark, fuel);
        if r4.Some? && r4.value.Finished? {
          OwnFi(st, st3, r4.value.st, ignore);
        }
      }
    }
  }

  /** Without a `break` inside an `if` of a loop body, the if stack is always kept and no word is
      rejected. */
  lemma {:induction false} StaysLevel(p: Prog, st: St, o: Oracle, ignore: bool, mark: Option<nat>, deep: bool,
                                      fuel: nat)
    requires mark.Some? ==> mark.value < |st.ie| && (!deep ==> mark.value == st.top)
    requires !DeepBreak(p, mark.Some?, deep)
    ensures Keeping(st, Eval(p, st, o, ignore, mark, fuel))
    decreases fuel, p, 1
  {
    match p {
      case Seq(a, b) =>
        StaysLevel(a, st, o, ignore, mark, deep, fuel);
        var r := Eval(a, st, o, ignore, mark, fuel);
        if r.Some? && r.value.Finished? {
          StaysLevel(b, r.value.st, o, ignore, mark, deep, fuel);
        }
      case IfElse(_, _, thn, els) =>
        IfStaysLevel(p, st, o, ignore, mark, fuel);
      case Loop(_, _, _) =>
        LoopStaysLevel(p, st, o, ignore, mark, fuel);
      case _ =>
    }
  }

  lemma {:induction false} IfStaysLevel(p: Prog, st: St, o: Oracle, ignore: bool, mark: Option<nat>, fuel: nat)
    requires p.IfElse? && (mark.Some? ==> mark.value < |st.ie|) && !DeepBreak(p, mark.Some?, false)
    ensures Keeping(st, Eval(p, st, o, ignore, mark, fuel))
    decreases fuel, p, 0
  {
    hide Eval, AtElse;
    EvalIf(p, st, o, ignore, mark, fuel);
    if st.top + 1 < |st.ie| {
      var st1 := EnterIf(p.inverted, p.cond, st, o, mark);
      StaysLevel(p.thn, st1, o, ignore, mark, true, fuel);
      var r := Eval(p.thn, st1, o, ignore, mark, fuel);
      if r.Some? && r.value.Finished? && p.els.Some? {
        var r3 := AtElse(r.value.st, ignore);
        if r3.Finished? {
          StaysLevel(p.els.value, r3.st, o, ignore, mark, true, fuel);
        }
      }
      IfKeeps(p, st, o, ignore, mark, fuel);
    }
  }

  lemma {:induction false} LoopStaysLevel(p: Prog, st: St, o: Oracle, ignore: bool, mark: Option<nat>, fuel: nat)
    requires p.Loop? && (mark.Some? ==> mark.value < |st.ie|) && !DeepBreak(p, false, false)
    ensures Keeping(st, Eval(p, st, o, ignore, mark, fuel))
    decreases fuel, p, 0
  {
    hide Eval;
    EvalLoop(p, st, o, ignore, mark, fuel);
    var st1 := EnterLoop(p.until, p.cond, st, o);
    StaysLevel(p.body, st1, o, ignore, Some(st.top), false, fuel);
    var r := Eval(p.body, st1, o, ignore, Some(st.top), fuel);
    if r.Some? && r.value.Finished? && r.value.st.live && fuel > 0 {
      LoopStaysLevel(p, r.value.st.(err := false, live := st.live), o, ignore, mark, fuel - 1);
    }
  }

  // The same if only the loops inside p have no such `break`, as long as no `break` of the loop
  // around p is run.
  lemma {:induction false} LevelUntilBreak(p: Prog, st: St, o: Oracle, ignore: bool, mark: Option<nat>, fuel: nat)
    requires (mark.Some? ==> mark.value < |st.ie|) && !DeepBreak(p, false, false)
    requires var r := Eval(p, st, o, ignore, mark, fuel); r.Some? && r.value.Finished? && r.value.st.live == st.live
    ensures Keeping(st, Eval(p, st, o, ignore, mark, fuel))
    decreases p, 1
  {
    match p {
      case Seq(a, b) =>
        var st1 := Eval(a, st, o, ignore, mark, fuel).value.st;
        NeverRevives(a, st, o, ignore, mark, fuel);
        NeverRevives(b, st1, o, ignore, mark, fuel);
        LevelUntilBreak(a, st, o, ignore, mark, fuel);
        LevelUntilBreak(b, st1, o, ignore, mark, fuel);
      case IfElse(_, _, _, _) =>
        IfLevelUntilBreak(p, st, o, ignore, mark, fuel);
      case Loop(_, _, _) =>
        LoopStaysLevel(p, st, o, ignore, mark, fuel);
      case _ =>
    }
  }

  lemma {:induction false} IfLevelUntilBreak(p: Prog, st: St, o: Oracle, ignore: bool, mark: Option<nat>, fuel: nat)
    requires p.IfElse? && (mark.Some? ==> mark.value < |st.ie|) && !DeepBreak(p, false, false)
    requires var r := Eval(p, st, o, ignore, mark, fuel); r.Some? && r.value.Finished? && r.value.st.live == st.live
    ensures Keeping(st, Eval(p, st, o, ignore, mark, fuel))
    decreases p, 0
  {
    hide Eval;
    EvalIf(p, st, o, ignore, mark, fuel);
    ShallowBranches(p.thn, false);
    var st1 := EnterIf(p.inverted, p.cond, st, o, mark);
    NeverRevives(p.thn, st1, o, ignore, mark, fuel);
    var st2 := Eval(p.thn, st1, o, ignore, mark, fuel).value.st;
    if p.els.Some? && AtElse(st2, ignore).Finished? {
      ShallowBranches(p.els.value, false);
      var st3 := AtElse(st2, ignore).st;
      NeverRevives(p.els.value, st3, o, ignore, mark, fuel);
      LevelUntilBreak(p.els.value, st3, o, ignore, mark, fuel);
    }
    LevelUntilBreak(p.thn, st1, o, ignore, mark, fuel);
    hide AtElse, AtFi, EnterIf;
    IfKeeps(p, st, o, ignore, mark, fuel);
  }

  // ----- The stack sinks, and does not rise again -----

  // A `break` of the loop around p would not raise the stack.
  ghost predicate Sinking(p: Prog, st: St, mark: Option<nat>, inIf: bool) {
    && Unmended(p, inIf) && (!inIf ==> st.top == 0)
    && (mark.Some? ==> mark.value < |st.ie| && (st.live ==> mark.value <= st.top))
    && (mark.Some? && mark.value > 0 ==> !DeepBreak(p, false, false))
  }

  // The run comes to its end and no word is rejected.
  ghost predicate Quiet(st: St, r: Option<Outcome>) {
    r.Some? && r.value.Finished? && r.value.st.said == st.said
  }

  /** As long as no word is rejected, the if stack never rises. */
  lemma {:induction false} NeverRises(p: Prog, st: St, o: Oracle, ignore: bool, mark: Option<nat>, fuel: nat,
                                      inIf: bool)
    requires Sinking(p, st, mark, inIf)
    ensures var r := Eval(p, st, o, ignore, mark, fuel);
            Quiet(st, r) ==>
              r.value.st.top <= st.top && (mark.Some? && r.value.st.live ==> mark.value <= r.value.st.top)
    decreases fuel, p, 1
  {
    var r := Eval(p, st, o, ignore, mark, fuel);
    if Quiet(st, r) {
      if mark.Some? && mark.value > 0 && r.value.st.live {
        NeverRevives(p, st, o, ignore, mark, fuel);
        LevelUntilBreak(p, st, o, ignore, mark, fuel);
      }
      match p {
        case Seq(_, _) =>
          SeqNeverRises(p, st, o, ignore, mark, fuel, inIf);
        case IfElse(_, _, _, _) =>
          IfNeverRises(p, st, o, ignore, mark, fuel, inIf);
        case Loop(_, _, _) =>
          LoopNeverRises(p, st, o, ignore, mark, fuel, inIf);
        case _ =>
      }
    }
  }

  lemma {:induction false} SeqNeverRises(p: Prog, st: St, o: Oracle, ignore: bool, mark: Option<nat>, fuel: nat,
                                         inIf: bool)
    requires p.Seq? && Sinking(p, st, mark, inIf)
    ensures var r := Eval(p, st, o, ignore, mark, fuel); Quiet(st, r) ==> r.value.st.top <= st.top
    decreases fuel, p, 0
  {
    hide Eval;
    EvalSeq(p, st, o, ignore, mark, fuel);
    NeverRises(p.first, st, o, ignore, mark, fuel, inIf);
    var r := Eval(p.first, st, o, ignore, mark, fuel);
    TraceGrows(p.first, st, o, ignore, mark, fuel);
    if r.Some? && r.value.Finished? {
      TraceGrows(p.rest, r.value.st, o, ignore, mark, fuel);
      if Quiet(st, r) {
        NeverRises(p.rest, r.value.st, o, ignore, mark, fuel, inIf);
      }
    }
  }

  lemma {:induction false} IfNeverRises(p: Prog, st: St, o: Oracle, ignore: bool, mark: Option<nat>, fuel: nat,
                                        inIf: bool)
    requires p.IfElse? && Sinking(p, st, mark, inIf)
    ensures var r := Eval(p, st, o, ignore, mark, fuel); Quiet(st, r) ==> r.value.st.top <= st.top
    decreases fuel, p, 0
  {
    hide Eval;
    EvalIf(p, st, o, ignore, mark, fuel);
    if st.top + 1 < |st.ie| {
      SinkingBranch(p, mark);
      var st1 := EnterIf(p.inverted, p.cond, st, o, mark);
      NeverRises(p.thn, st1, o, ignore, mark, fuel, true);
      TraceGrows(p.thn, st1, o, ignore, mark, fuel);
      var r := Eval(p.thn, st1, o, ignore, mark, fuel);
      if r.Some? && r.value.Finished? {
        CloseNeverRises(p, st, r.value.st, o, ignore, mark, fuel);
      }
    }
  }

  // From the end of the then branch to past the `fi`.
  lemma {:induction false} CloseNeverRises(p: Prog, st: St, st2: St, o: Oracle, ignore: bool, mark: Option<nat>,
                                           fuel: nat)
    requires p.IfElse? && Unmended(p, true) && |st2.ie| == |st.ie| && (mark.Some? ==> mark.value < |st.ie|)
    requires mark.Some? && mark.value > 0 ==> !DeepBreak(p, false, false)
    requires st.said <= st2.said
    requires st2.said == st.said ==> st2.top <= st.top + 1 && (mark.Some? && st2.live ==> mark.value <= st2.top)
    ensures var r := Close(p, st2, o, ignore, mark, fuel); Quiet(st, r) ==> r.value.st.top <= st.top
    decreases fuel, p, 0, 0
  {
    hide Eval;
    SinkingBranch(p, mark);
    var r3 := AtElse(st2, ignore);
    if p.els.Some? && r3.Finished? {
      TraceGrows(p.els.value, r3.st, o, ignore, mark, fuel);
      if r3.st.said == st.said {
        NeverRises(p.els.value, r3.st, o, ignore, mark, fuel, true);
      }
    }
  }

  lemma {:induction false} SinkingBranch(p: Prog, mark: Option<nat>)
    requires p.IfElse? && (mark.Some? && mark.value > 0 ==> !DeepBreak(p, false, false))
    ensures mark.Some? && mark.value > 0 ==>
              !DeepBreak(p.thn, false, false) && (p.els.Some? ==> !DeepBreak(p.els.value, false, false))
  {
    if mark.Some? && mark.value > 0 {
      ShallowBranches(p.thn, false);
      if p.els.Some? {
        ShallowBranches(p.els.value, false);
      }
    }
  }

  lemma {:induction false} LoopNeverRises(p: Prog, st: St, o: Oracle, ignore: bool, mark: Option<nat>, fuel: nat,
                                          inIf: bool)
    requires p.Loop? && Sinking(p, st, mark, inIf)
    ensures var r := Eval(p, st, o, ignore, mark, fuel); Quiet(st, r) ==> r.value.st.top <= st.top
    decreases fuel, p, 0
  {
    hide Eval;
    EvalLoop(p, st, o, ignore, mark, fuel);
    var st1 := EnterLoop(p.until, p.cond, st, o);
    NeverRises(p.body, st1, o, ignore, Some(st.top), fuel, inIf);
    TraceGrows(p.body, st1, o, ignore, Some(st.top), fuel);
    var r := Eval(p.body, st1, o, ignore, Some(st.top), fuel);
    if r.Some? && r.value.Finished? && r.value.st.live && fuel > 0 {
      TraceGrows(p, r.value.st.(err := false, live := st.live), o, ignore, mark, fuel - 1);
    }
    if Quiet(st, r) && r.value.st.live && fuel > 0 {
      if mark.Some? && mark.value > 0 {
        StaysLevel(p.body, st1, o, ignore, Some(st.top), false, fuel);
      }
      LoopNeverRises(p, r.value.st.(err := false, live := st.live), o, ignore, mark, fuel - 1, inIf);
    }
  }
}
