/** The meaning of structured scripts in the shell language, and the theorem that NSH keeps to it on
    faithful scripts. */
module NshTheorem {
  import opened Basics
  import opened NshLevels
  import opened NshMachine
  import opened NshParts
  import opened NshSimulation
  import opened NshStructured

  // What can be seen of a script: the commands run, the status of the last one ($?), the value the
  // script returns, and the number of messages about rejected words.
  datatype Obs = Obs(trace: Trace, fail: bool, err: bool, said: nat)

  datatype Signal = Normal(obs: Obs) | Broke(obs: Obs) | Stopped(obs: Obs)

  /** The structured meaning: section 2.9.4 (Compound Commands) of the POSIX Shell Command
      Language, with NSH's conventions that a condition leaves status success and that a script
      stops at a failing command unless errors are ignored. */
  function Meaning(p: Prog, s: Obs, o: Oracle, ignore: bool, inLoop: bool, fuel: nat): Option<Signal>
    decreases fuel, p
  {
    match p
    case Empty => Some(Normal(s))
    case Seq(a, b) =>
      (match Meaning(a, s, o, ignore, inLoop, fuel)
       case Some(Normal(s1)) => Meaning(b, s1, o, ignore, inLoop, fuel)
       case other => other)
    case Simple(argv) =>
      if argv == [] then
        Some(Normal(s.(err := false)))
      else
        var trace := s.trace + [argv];
        var failed := o(trace, s.fail);
        var s1 := s.(trace := trace, fail := failed, err := failed);
        Some(if failed && !ignore then Stopped(s1) else Normal(s1))
    case BreakCmd =>
      Some(if inLoop then Broke(s.(fail := false, err := false)) else Normal(s.(fail := false, err := false)))
    case IfElse(inverted, cond, thn, els) =>
      var trace := s.trace + [cond];
      var s1 := s.(trace := trace, fail := false, err := false);
      (match if o(trace, s.fail) == inverted then Meaning(thn, s1, o, ignore, inLoop, fuel)
             else if els.Some? then Meaning(els.value, s1, o, ignore, inLoop, fuel)
             else Some(Normal(s1))
       case Some(Normal(s2)) => Some(Normal(s2.(err := false)))
       case other => other)
    case Loop(until, cond, body) =>
      var trace := s.trace + [cond];
      var s1 := s.(trace := trace, fail := false, err := false);
      if o(trace, s.fail) != until then
        Some(Normal(s1))
      else
        (match Meaning(body, s1, o, ignore, true, fuel)
         case Some(Normal(s2)) => if fuel == 0 then None else Meaning(p, s2.(err := false), o, ignore, inLoop, fuel - 1)
         case Some(Broke(s2)) => Some(Normal(s2.(err := false)))
         case other => other)
  }

  // The condition has been run.
  function Ran(s: Obs, cond: Argv): Obs {
    s.(trace := s.trace + [cond], fail := false, err := false)
  }

  // Meaning, case by case.
  lemma {:induction false} MeaningSeq(p: Prog, s: Obs, o: Oracle, ignore: bool, inLoop: bool, fuel: nat)
    requires p.Seq?
    ensures var r := Meaning(p.first, s, o, ignore, inLoop, fuel);
            Meaning(p, s, o, ignore, inLoop, fuel) ==
            if r.Some? && r.value.Normal? then Meaning(p.rest, r.value.obs, o, ignore, inLoop, fuel) else r
  {
  }

  lemma {:induction false} MeaningIf(p: Prog, s: Obs, o: Oracle, ignore: bool, inLoop: bool, fuel: nat)
    requires p.IfElse?
    ensures var s1 := Ran(s, p.cond);
            var r := if o(s1.trace, s.fail) == p.inverted then Meaning(p.thn, s1, o, ignore, inLoop, fuel)
                     else if p.els.Some? then Meaning(p.els.value, s1, o, ignore, inLoop, fuel)
                     else Some(Normal(s1));
            Meaning(p, s, o, ignore, inLoop, fuel) ==
            if r.Some? && r.value.Normal? then Some(Normal(r.value.obs.(err := false))) else r
  {
  }

  lemma {:induction false} MeaningLoop(p: Prog, s: Obs, o: Oracle, ignore: bool, inLoop: bool, fuel: nat)
    requires p.Loop?
    ensures var s1 := Ran(s, p.cond);
            var r := Meaning(p.body, s1, o, ignore, true, fuel);
            Meaning(p, s, o, ignore, inLoop, fuel) ==
            if o(s1.trace, s.fail) != p.until then Some(Normal(s1))
            else if r.None? || r.value.Stopped? then r
            else if r.value.Broke? then Some(Normal(r.value.obs.(err := false)))
            else if fuel == 0 then None
            else Meaning(p, r.value.obs.(err := false), o, ignore, inLoop, fuel - 1)
  {
  }

  // Nothing is rejected in the shell language.
  lemma {:induction false} MeaningSaysNothing(p: Prog, s: Obs, o: Oracle, ignore: bool, inLoop: bool, fuel: nat)
    ensures var r := Meaning(p, s, o, ignore, inLoop, fuel); r.Some? ==> r.value.obs.said == s.said
    decreases fuel, p
  {
    hide Meaning;
    match p {
      case Seq(a, b) =>
        MeaningSeq(p, s, o, ignore, inLoop, fuel);
        MeaningSaysNothing(a, s, o, ignore, inLoop, fuel);
        var r := Meaning(a, s, o, ignore, inLoop, fuel);
        if r.Some? {
          MeaningSaysNothing(b, r.value.obs, o, ignore, inLoop, fuel);
        }
      case IfElse(_, cond, thn, els) =>
        MeaningIf(p, s, o, ignore, inLoop, fuel);
        MeaningSaysNothing(thn, Ran(s, cond), o, ignore, inLoop, fuel);
        if els.Some? {
          MeaningSaysNothing(els.value, Ran(s, cond), o, ignore, inLoop, fuel);
        }
      case Loop(_, cond, body) =>
        MeaningLoop(p, s, o, ignore, inLoop, fuel);
        MeaningSaysNothing(body, Ran(s, cond), o, ignore, true, fuel);
        var r := Meaning(body, Ran(s, cond), o, ignore, true, fuel);
        if r.Some? && fuel > 0 {
          MeaningSaysNothing(p, r.value.obs.(err := false), o, ignore, inLoop, fuel - 1);
        }
      case _ =>
        SimplySaysNothing(p, s, o, ignore, inLoop, fuel);
    }
  }

  lemma {:induction false} SimplySaysNothing(p: Prog, s: Obs, o: Oracle, ignore: bool, inLoop: bool, fuel: nat)
    requires p.Empty? || p.Simple? || p.BreakCmd?
    ensures var r := Meaning(p, s, o, ignore, inLoop, fuel); r.Some? ==> r.value.obs.said == s.said
  {
  }

  // ----- Faithful scripts -----

  // A loop that is not inside an `if` of p.
  predicate HasBareLoop(p: Prog) {
    match p
    case Seq(a, b) => HasBareLoop(a) || HasBareLoop(b)
    case Loop(_, _, _) => true
    case _ => false
  }

  // Every run of p in a loop body comes to a `break` that is not inside an `if` of p.
  predicate AlwaysBreaks(p: Prog) {
    match p
    case Seq(a, b) => AlwaysBreaks(a) || AlwaysBreaks(b)
    case BreakCmd => true
    case _ => false
  }

  /** No loop stands bare in the body of another, and no `break` stands inside an `if` of a loop body,
      unless an unconditional `break` keeps it from ever being reached.  `inLoop` says that p lies in
      a loop body, and `deep` that an `if` of that body is around it. */
  predicate Faithful(p: Prog, inLoop: bool, deep: bool) {
    match p
    case Seq(a, b) => Faithful(a, inLoop, deep) && (Faithful(b, inLoop, deep) || (inLoop && AlwaysBreaks(a)))
    case BreakCmd => !(inLoop && deep)
    case IfElse(_, _, thn, els) => Faithful(thn, inLoop, true) && (els.Some? ==> Faithful(els.value, inLoop, true))
    case Loop(_, _, body) => !HasBareLoop(body) && Faithful(body, true, false)
    case _ => true
  }

  // ----- Code that is skipped -----

  /** Skipping a loop body runs no command if and only if no loop stands bare in it. */
  lemma {:induction false} SkippingIsSilentIff(p: Prog, st: St, o: Oracle, ignore: bool, mark: Option<nat>, fuel: nat)
    requires mark.Some? && mark.value < |st.ie| && !st.live && IsOn(st.ie[st.top]) && st.top + IfDepth(p) < |st.ie|
    ensures var r := Eval(p, st, o, ignore, mark, fuel);
            && (!HasBareLoop(p) ==> r.Some? && r.value.Finished? && Silent(st, r.value.st))
            && (r.Some? ==> (r.value.st.trace == st.trace <==> !HasBareLoop(p)))
    decreases p
  {
    match p {
      case Seq(a, b) =>
        SkippingIsSilentIff(a, st, o, ignore, mark, fuel);
        var r := Eval(a, st, o, ignore, mark, fuel);
        if r.Some? && r.value.Finished? {
          TraceGrows(a, st, o, ignore, mark, fuel);
          TraceGrows(b, r.value.st, o, ignore, mark, fuel);
          if !HasBareLoop(a) {
            SkippingIsSilentIff(b, r.value.st, o, ignore, mark, fuel);
          }
        }
      case IfElse(_, _, _, _) =>
        DeadIf(p, st, o, ignore, mark, fuel);
      case Loop(_, _, _) =>
        LoopTraceGrows(p, st, o, ignore, mark, fuel);
      case _ =>
    }
  }

  // ----- NSH against the meaning -----

  function ObsOf(st: St): Obs {
    Obs(st.trace, st.fail, st.err, st.said)
  }

  // The outcome r of NSH, started in st, is what the meaning m says, and the if stack is kept.
  ghost predicate Matches(st: St, r: Option<Outcome>, m: Option<Signal>) {
    && (r.Some? <==> m.Some?)
    && (r.Some? ==>
          && ObsOf(r.value.st) == m.value.obs && (r.value.Aborted? <==> m.value.Stopped?)
          && (r.value.Finished? ==> Kept(st, r.value.st) && (r.value.st.live <==> m.value.Normal?)))
  }

  // What EvalIsMeaning asks for: st is live, and a `break` here would find the stack where the loop
  // began.
  ghost predicate Straight(p: Prog, st: St, mark: Option<nat>, deep: bool) {
    && st.live && IsOn(st.ie[st.top]) && st.top + IfDepth(p) < |st.ie| && Faithful(p, mark.Some?, deep)
    && (mark.Some? ==> mark.value < |st.ie| && (!deep ==> mark.value == st.top && !HasBareLoop(p)))
  }

  lemma {:induction false} BreaksAreBreaks(p: Prog, s: Obs, o: Oracle, ignore: bool, fuel: nat)
    requires AlwaysBreaks(p)
    ensures var r := Meaning(p, s, o, ignore, true, fuel); r.Some? ==> !r.value.Normal?
    decreases p
  {
    if p.Seq? {
      if AlwaysBreaks(p.first) {
        BreaksAreBreaks(p.first, s, o, ignore, fuel);
      } else {
        var r := Meaning(p.first, s, o, ignore, true, fuel);
        if r.Some? && r.value.Normal? {
          BreaksAreBreaks(p.rest, r.value.obs, o, ignore, fuel);
        }
      }
    }
  }

  /** In a faithful script, what NSH does is what the script means, break and stop included, with
      the same number of loop passes, and the if stack is left as it was. */
  lemma {:induction false} EvalIsMeaning(p: Prog, st: St, o: Oracle, ignore: bool, mark: Option<nat>, deep: bool,
                                         fuel: nat)
    requires Straight(p, st, mark, deep)
    ensures Matches(st, Eval(p, st, o, ignore, mark, fuel), Meaning(p, ObsOf(st), o, ignore, mark.Some?, fuel))
    ensures var m := Meaning(p, ObsOf(st), o, ignore, mark.Some?, fuel);
            m.Some? && m.value.Broke? ==> mark.Some? && !deep && !m.value.obs.err
    decreases fuel, p, 1
  {
    match p {
      case Seq(_, _) =>
        SeqIsMeaning(p, st, o, ignore, mark, deep, fuel);
      case IfElse(_, _, _, _) =>
        IfIsMeaning(p, st, o, ignore, mark, fuel);
      case Loop(_, _, _) =>
        LoopIsMeaning(p, st, o, ignore, mark, deep, fuel);
      case _ =>
    }
  }

  lemma {:induction false} SeqIsMeaning(p: Prog, st: St, o: Oracle, ignore: bool, mark: Option<nat>, deep: bool,
                                        fuel: nat)
    requires p.Seq? && Straight(p, st, mark, deep)
    ensures Matches(st, Eval(p, st, o, ignore, mark, fuel), Meaning(p, ObsOf(st), o, ignore, mark.Some?, fuel))
    ensures var m := Meaning(p, ObsOf(st), o, ignore, mark.Some?, fuel);
            m.Some? && m.value.Broke? ==> mark.Some? && !deep && !m.value.obs.err
    decreases fuel, p, 0
  {
    hide Eval, Meaning;
    EvalSeq(p, st, o, ignore, mark, fuel);
    MeaningSeq(p, ObsOf(st), o, ignore, mark.Some?, fuel);
    EvalIsMeaning(p.first, st, o, ignore, mark, deep, fuel);
    var r, m := Eval(p.first, st, o, ignore, mark, fuel), Meaning(p.first, ObsOf(st), o, ignore, mark.Some?, fuel);
    if m.Some? && m.value.Normal? {
      if mark.Some? && AlwaysBreaks(p.first) {
        BreaksAreBreaks(p.first, ObsOf(st), o, ignore, fuel);
      }
      EvalIsMeaning(p.rest, r.value.st, o, ignore, mark, deep, fuel);
    } else if m.Some? && m.value.Broke? {
      SkippingIsSilentIff(p.rest, r.value.st, o, ignore, mark, fuel);
    }
  }

  lemma {:induction false} IfIsMeaning(p: Prog, st: St, o: Oracle, ignore: bool, mark: Option<nat>, fuel: nat)
    requires p.IfElse? && st.live && IsOn(st.ie[st.top]) && st.top + IfDepth(p) < |st.ie|
    requires Faithful(p, mark.Some?, false) && (mark.Some? ==> mark.value < |st.ie|)
    ensures Matches(st, Eval(p, st, o, ignore, mark, fuel), Meaning(p, ObsOf(st), o, ignore, mark.Some?, fuel))
    ensures var m := Meaning(p, ObsOf(st), o, ignore, mark.Some?, fuel); m.Some? ==> !m.value.Broke?
    decreases fuel, p, 0
  {
    hide Eval, Meaning, AtElse, AtFi, Close, Matches, EnterIf;
    EvalIf(p, st, o, ignore, mark, fuel);
    MeaningIf(p, ObsOf(st), o, ignore, mark.Some?, fuel);
    EnteredIf(p, st, o, mark);
    if o(st.trace + [p.cond], st.fail) == p.inverted {
      ThenIsMeaning(p, st, o, ignore, mark, fuel);
    } else {
      ElseIsMeaning(p, st, o, ignore, mark, fuel);
    }
  }

  // A live `if`, after its `then`.
  lemma EnteredIf(p: Prog, st: St, o: Oracle, mark: Option<nat>)
    requires p.IfElse? && st.live && IsOn(st.ie[st.top]) && st.top + 1 < |st.ie|
    ensures var st1 := EnterIf(p.inverted, p.cond, st, o, mark);
            && ObsOf(st1) == Ran(ObsOf(st), p.cond) && st1.live && st1.top == st.top + 1
            && (forall k | 0 <= k <= st.top :: st1.ie[k] == st.ie[k])
            && st1.ie[st1.top] == Itef(p.inverted != o(st.trace + [p.cond], st.fail), false, p.inverted, ItefThen)
  {
  }

  lemma {:induction false} ThenIsMeaning(p: Prog, st: St, o: Oracle, ignore: bool, mark: Option<nat>, fuel: nat)
    requires p.IfElse? && st.live && IsOn(st.ie[st.top]) && st.top + IfDepth(p) < |st.ie|
    requires Faithful(p, mark.Some?, false) && (mark.Some? ==> mark.value < |st.ie|)
    requires o(st.trace + [p.cond], st.fail) == p.inverted
    ensures var st1 := EnterIf(p.inverted, p.cond, st, o, mark);
            var r := Eval(p.thn, st1, o, ignore, mark, fuel);
            var m := Meaning(p.thn, ObsOf(st1), o, ignore, mark.Some?, fuel);
            && Matches(st, if r.None? || r.value.Aborted? then r else Close(p, r.value.st, o, ignore, mark, fuel),
                       if m.Some? && m.value.Normal? then Some(Normal(m.value.obs.(err := false))) else m)
            && (m.Some? ==> !m.value.Broke?)
    decreases fuel, p, 0, 0
  {
    hide Eval, Meaning, Close, EnterIf;
    EnteredIf(p, st, o, mark);
    var st1 := EnterIf(p.inverted, p.cond, st, o, mark);
    EvalIsMeaning(p.thn, st1, o, ignore, mark, true, fuel);
    var r := Eval(p.thn, st1, o, ignore, mark, fuel);
    if r.Some? && r.value.Finished? {
      PassElse(p, st, st1, r.value.st, o, ignore, mark, fuel);
    }
  }

  lemma {:induction false} ElseIsMeaning(p: Prog, st: St, o: Oracle, ignore: bool, mark: Option<nat>, fuel: nat)
    requires p.IfElse? && st.live && IsOn(st.ie[st.top]) && st.top + IfDepth(p) < |st.ie|
    requires Faithful(p, mark.Some?, false) && (mark.Some? ==> mark.value < |st.ie|)
    requires o(st.trace + [p.cond], st.fail) != p.inverted
    ensures var st1 := EnterIf(p.inverted, p.cond, st, o, mark);
            var r := Eval(p.thn, st1, o, ignore, mark, fuel);
            var m := if p.els.Some? then Meaning(p.els.value, ObsOf(st1), o, ignore, mark.Some?, fuel)
                     else Some(Normal(ObsOf(st1)));
            && r.Some? && r.value.Finished?
            && Matches(st, Close(p, r.value.st, o, ignore, mark, fuel),
                       if m.Some? && m.value.Normal? then Some(Normal(m.value.obs.(err := false))) else m)
            && (m.Some? ==> !m.value.Broke?)
    decreases fuel, p, 0, 0
  {
    hide Eval, Meaning, AtElse, AtFi, EnterIf;
    EnteredIf(p, st, o, mark);
    var st1 := EnterIf(p.inverted, p.cond, st, o, mark);
    DeadCode(p.thn, st1, o, ignore, mark, fuel);
    var st2 := Eval(p.thn, st1, o, ignore, mark, fuel).value.st;
    if p.els.None? {
      OwnFi(st, st1, st2, ignore);
    } else {
      TakeElse(p, st, st1, st2, o, ignore, mark, fuel);
    }
  }

  // The then branch was taken and has ended.
  lemma {:induction false} PassElse(p: Prog, st: St, st1: St, st2: St, o: Oracle, ignore: bool, mark: Option<nat>,
                                    fuel: nat)
    requires p.IfElse? && st.top + IfDepth(p) < |st.ie| && (mark.Some? ==> mark.value < |st.ie|)
    requires st1.top == st.top + 1 && Kept(st1, st2) && |st1.ie| == |st.ie|
    requires forall k | 0 <= k <= st.top :: st1.ie[k] == st.ie[k]
    requires st1.ie[st1.top].state == ItefThen && !st1.ie[st1.top].ifcond
    ensures var r := Close(p, st2, o, ignore, mark, fuel);
            && r.Some? && r.value.Finished? && Kept(st, r.value.st)
            && r.value.st.live == st2.live && ObsOf(r.value.st) == ObsOf(st2).(err := false)
  {
    hide Eval, AtElse, AtFi;
    if p.els.None? {
      OwnFi(st, st1, st2, ignore);
    } else {
      OwnElse(st1, st2, ignore);
      var st3 := AtElse(st2, ignore).st;
      DeadCode(p.els.value, st3, o, ignore, mark, fuel);
      OwnFi(st, st3, Eval(p.els.value, st3, o, ignore, mark, fuel).value.st, ignore);
    }
  }

  // The then branch was passed over and the else branch is taken.
  lemma {:induction false} TakeElse(p: Prog, st: St, st1: St, st2: St, o: Oracle, ignore: bool, mark: Option<nat>,
                                    fuel: nat)
    requires p.IfElse? && p.els.Some? && st.top + IfDepth(p) < |st.ie| && (mark.Some? ==> mark.value < |st.ie|)
    requires Faithful(p.els.value, mark.Some?, true) && st2.live
    requires st1.top == st.top + 1 && Kept(st1, st2) && |st1.ie| == |st.ie|
    requires forall k | 0 <= k <= st.top :: st1.ie[k] == st.ie[k]
    requires st1.ie[st1.top].state == ItefThen && st1.ie[st1.top].ifcond && !st1.ie[st1.top].disabled
    ensures var m := Meaning(p.els.value, ObsOf(st2).(err := false), o, ignore, mark.Some?, fuel);
            && Matches(st, Close(p, st2, o, ignore, mark, fuel),
                       if m.Some? && m.value.Normal? then Some(Normal(m.value.obs.(err := false))) else m)
            && (m.Some? ==> !m.value.Broke?)
    decreases fuel, p, 0, 0, 0
  {
    hide Eval, Meaning, AtElse, AtFi;
    OwnElse(st1, st2, ignore);
    var st3 := AtElse(st2, ignore).st;
    EvalIsMeaning(p.els.value, st3, o, ignore, mark, true, fuel);
    var r := Eval(p.els.value, st3, o, ignore, mark, fuel);
    if r.Some? && r.value.Finished? {
      OwnFi(st, st3, r.value.st, ignore);
    }
  }

  lemma {:induction false} LoopIsMeaning(p: Prog, st: St, o: Oracle, ignore: bool, mark: Option<nat>, deep: bool,
                                         fuel: nat)
    requires p.Loop? && Straight(p, st, mark, deep)
    ensures Matches(st, Eval(p, st, o, ignore, mark, fuel), Meaning(p, ObsOf(st), o, ignore, mark.Some?, fuel))
    ensures var m := Meaning(p, ObsOf(st), o, ignore, mark.Some?, fuel); m.Some? ==> !m.value.Broke?
    decreases fuel, p, 0
  {
    hide Eval, Meaning;
    EvalLoop(p, st, o, ignore, mark, fuel);
    MeaningLoop(p, ObsOf(st), o, ignore, mark.Some?, fuel);
    var st1 := EnterLoop(p.until, p.cond, st, o);
    if !st1.live {
      SkippingIsSilentIff(p.body, st1, o, ignore, Some(st.top), fuel);
    } else {
      EvalIsMeaning(p.body, st1, o, ignore, Some(st.top), false, fuel);
      var r := Eval(p.body, st1, o, ignore, Some(st.top), fuel);
      if r.Some? && r.value.Finished? && r.value.st.live && fuel > 0 {
        LoopIsMeaning(p, r.value.st.(err := false, live := st.live), o, ignore, mark, deep, fuel - 1);
      }
    }
  }

  // ----- Whole scripts -----

  function Start(np: Np, s: Obs): St {
    State(s.trace, s.fail, s.err, true, np.ie, np.iendx, s.said)
  }

  // The script file holds the commands of p, where the first command of a branch or a body may stand
  // behind its `then`, `else` or `do`, and the parser is at rest.
  ghost predicate Loaded(env: Env, p: Prog, np: Np, s: Obs) {
    && Ready(env, p, Start(np, s), None, np, 0) && |Parts(env.script)| == |Flatten(p)|
    && ItefEnabled(np) && np.iendx + IfDepth(p) < |np.ie|
  }

  // The machine, started at the first command, halts with `res` to be seen.
  ghost predicate MachineGives(env: Env, np: Np, s: Obs, res: Obs) {
    exists n, h: Config :: Reaches(Stepper(env), Running(np, 0, s.trace, s.err), n, h) && Shows(h, res)
  }

  ghost predicate Shows(h: Config, res: Obs) {
    h.Halted? && h.trace == res.trace && h.err == res.err && h.np.fail == res.fail && h.np.said == res.said
  }

  // NSH's own semantics of the tree gives `res`.
  ghost predicate EvalGives(env: Env, p: Prog, np: Np, s: Obs, res: Obs) {
    exists fuel: nat :: EvalShows(Eval(p, Start(np, s), env.o, env.ignore, None, fuel), res)
  }

  ghost predicate EvalShows(r: Option<Outcome>, res: Obs) {
    r.Some? && ObsOf(r.value.st) == res
  }

  // The meaning of the tree is `res`.
  ghost predicate Means(env: Env, p: Prog, s: Obs, res: Obs) {
    exists fuel: nat :: MeaningShows(Meaning(p, s, env.o, env.ignore, false, fuel), res)
  }

  ghost predicate MeaningShows(r: Option<Signal>, res: Obs) {
    r.Some? && r.value.obs == res
  }

  lemma FirstPart(env: Env, np: Np, s: Obs)
    ensures Lift(env, Running(np, 0, s.trace, s.err)) == Running(np, 0, s.trace, s.err)
  {
  }

  // The run of the machine on parts that Eval describes.
  lemma {:induction false} RunOfEval(env: Env, p: Prog, np: Np, s: Obs, fuel: nat) returns (n: nat, h: Config, np': Np)
    requires Loaded(env, p, np, s) && Eval(p, Start(np, s), env.o, env.ignore, None, fuel).Some?
    ensures Reaches(PartStepper(env), Running(np, 0, s.trace, s.err), n, h)
    ensures h.Halted? && h.np == np' && Shows(h, ObsOf(Eval(p, Start(np, s), env.o, env.ignore, None, fuel).value.st))
    ensures var r := Eval(p, Start(np, s), env.o, env.ignore, None, fuel).value;
            r.Finished? ==> Context(np', r.st, None) && Moved(np, np')
  {
    hide Reaches, Fits, Context, Layout, Eval, Moved, ItefEnabled, Parts;
    var c, f, st := Running(np, 0, s.trace, s.err), PartStepper(env), Start(np, s);
    var r := Eval(p, st, env.o, env.ignore, None, fuel).value;
    n, np' := Simulate(env, p, st, None, fuel, np, 0);
    h := At(r, np', |Flatten(p)|);
    if r.Finished? {
      ReachMore(f, c, n, h);
      PastTheEnd(env, h);
      n, h := n + 1, Halted(np', r.st.trace, r.st.err);
    }
  }

  // Past the last part the machine halts.
  lemma PastTheEnd(env: Env, c: Config)
    requires c.Running? && c.pc >= |Parts(env.script)|
    ensures PartStep(env, c) == Halted(c.np, c.trace, c.err)
  {
  }

  /** The flat machine halts with a result if and only if NSH's semantics of the tree gives that
      result: for every well-formed script that fits on the stacks, with `break` anywhere, in every
      world. */
  lemma MachineIsEval(env: Env, p: Prog, np: Np, s: Obs, res: Obs)
    requires Loaded(env, p, np, s)
    ensures MachineGives(env, np, s, res) <==> EvalGives(env, p, np, s, res)
  {
    hide Reaches, Loaded, Eval, EvalShows, Shows;
    if MachineGives(env, np, s, res) {
      var n, h: Config :| Reaches(Stepper(env), Running(np, 0, s.trace, s.err), n, h) && Shows(h, res);
      var fuel := EvalOfRun(env, p, np, s, res, n, h);
    }
    if EvalGives(env, p, np, s, res) {
      var fuel: nat :| EvalShows(Eval(p, Start(np, s), env.o, env.ignore, None, fuel), res);
      var n, h := MachineRunOfEval(env, p, np, s, res, fuel);
    }
  }

  lemma {:induction false} EvalOfRun(env: Env, p: Prog, np: Np, s: Obs, res: Obs, n: nat, h: Config) returns (fuel: nat)
    requires Loaded(env, p, np, s) && Reaches(Stepper(env), Running(np, 0, s.trace, s.err), n, h) && Shows(h, res)
    ensures EvalShows(Eval(p, Start(np, s), env.o, env.ignore, None, fuel), res)
  {
    hide Reaches, Fits, Context, Layout, Eval, Parts, PartStep, ItefEnabled;
    var c, f := Running(np, 0, s.trace, s.err), PartStepper(env);
    FirstPart(env, np, s);
    var m := PartsHalt(env, c, n, h);
    fuel := Terminates(env, p, Start(np, s), None, np, 0, m, h);
    hide Loaded;
    var m', g, np' := RunOfEval(env, p, np, s, fuel);
    HaltedIsHalted(env, h);
    HaltedIsHalted(env, g);
    HaltsOnce(f, c, m, h, m', g);
  }

  lemma {:induction false} MachineRunOfEval(env: Env, p: Prog, np: Np, s: Obs, res: Obs, fuel: nat)
    returns (n: nat, h: Config)
    requires Loaded(env, p, np, s) && EvalShows(Eval(p, Start(np, s), env.o, env.ignore, None, fuel), res)
    ensures Reaches(Stepper(env), Running(np, 0, s.trace, s.err), n, h) && Shows(h, res)
  {
    hide Reaches, Loaded, Eval, PartStep;
    FirstPart(env, np, s);
    var m, np';
    m, h, np' := RunOfEval(env, p, np, s, fuel);
    n := CommandsHalt(env, Running(np, 0, s.trace, s.err), m, h);
  }

  /** A faithful script that runs to its end leaves both stacks as it found them. */
  lemma {:induction false} ScriptLeavesStacks(env: Env, p: Prog, np: Np, s: Obs, fuel: nat) returns (n: nat, np': Np)
    requires Loaded(env, p, np, s) && Faithful(p, false, false)
    requires var r := Eval(p, Start(np, s), env.o, env.ignore, None, fuel); r.Some? && r.value.Finished?
    ensures var st := Eval(p, Start(np, s), env.o, env.ignore, None, fuel).value.st;
            Reaches(Stepper(env), Running(np, 0, s.trace, s.err), n, Halted(np', st.trace, st.err))
    ensures np'.iendx == np.iendx && (forall k | 0 <= k <= np.iendx :: np'.ie[k] == np.ie[k])
    ensures Moved(np, np') && TopLp(np').state == TopLp(np).state == LoopNormal
  {
    hide Reaches, Fits, Layout, Eval, Parts, Meaning;
    var m, h;
    m, h, np' := RunOfEval(env, p, np, s, fuel);
    EvalIsMeaning(p, Start(np, s), env.o, env.ignore, None, false, fuel);
    FirstPart(env, np, s);
    n := CommandsHalt(env, Running(np, 0, s.trace, s.err), m, h);
  }

  // What NSH's semantics of the tree gives is what the tree means.
  ghost predicate Agrees(env: Env, p: Prog, np: Np, s: Obs) {
    forall res :: EvalGives(env, p, np, s, res) <==> Means(env, p, s, res)
  }

  lemma {:induction false} SameResults(env: Env, p: Prog, np: Np, s: Obs, res: Obs, fuel: nat)
    requires ItefEnabled(np) && np.iendx + IfDepth(p) < |np.ie| && Faithful(p, false, false)
    ensures EvalShows(Eval(p, Start(np, s), env.o, env.ignore, None, fuel), res) <==>
            MeaningShows(Meaning(p, s, env.o, env.ignore, false, fuel), res)
  {
    hide Eval, Meaning, Faithful;
    EvalIsMeaning(p, Start(np, s), env.o, env.ignore, None, false, fuel);
  }

  lemma {:induction false} FaithfulAgrees(env: Env, p: Prog, np: Np, s: Obs)
    requires ItefEnabled(np) && np.iendx + IfDepth(p) < |np.ie| && Faithful(p, false, false)
    ensures Agrees(env, p, np, s)
  {
    hide Eval, Meaning, EvalShows, MeaningShows, Faithful;
    forall res, fuel: nat
      ensures EvalShows(Eval(p, Start(np, s), env.o, env.ignore, None, fuel), res) <==>
              MeaningShows(Meaning(p, s, env.o, env.ignore, false, fuel), res)
    {
      SameResults(env, p, np, s, res, fuel);
    }
  }

  /** Main theorem.  If the script is faithful, the flat machine runs the same commands, with the
      same final status and return value, as the structured meaning, and it runs for ever exactly
      when the structured script does. */
  lemma {:induction false} ScriptMeansItsTree(env: Env, p: Prog, np: Np, s: Obs, res: Obs)
    requires Loaded(env, p, np, s) && Faithful(p, false, false)
    ensures MachineGives(env, np, s, res) <==> Means(env, p, s, res)
  {
    hide MachineGives, EvalGives, Means, Faithful;
    MachineIsEval(env, p, np, s, res);
    FaithfulAgrees(env, p, np, s);
  }
}
