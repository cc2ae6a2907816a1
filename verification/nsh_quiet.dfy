/** A faithful script has no word rejected, whether it comes to an end or runs for ever. */
module NshQuiet {
  import opened Basics
  import opened NshLevels
  import opened NshMachine
  import opened NshParts
  import opened NshSimulation
  import opened NshStructured
  import opened NshTheorem

  // ----- Messages stay printed -----

  lemma LoopSays(np: Np, toks: Argv, at: nat)
    ensures np.said <= ParseLoop(np, toks, at).np.said
  {
    hide Keeps, NoArgument, CmdEnabled;
  }

  lemma ItefSays(np: Np, toks: Argv)
    ensures np.said <= ParseItef(np, toks).np.said
  {
    hide Keeps, NoArgument, CmdEnabled;
  }

  lemma ExecuteSays(np: Np, argv: Argv, o: Oracle, trace: Trace)
    requires argv != []
    ensures np.said <= Execute(np, argv, o, trace).0.said
  {
    hide Keeps;
  }

  lemma CommandSays(np: Np, toks: Argv, at: nat, o: Oracle, trace: Trace)
    ensures np.said <= ParseCommand(np, toks, at, o, trace).0.said
  {
    hide Keeps, ParseLoop, ParseItef, Execute, CmdEnabled;
    var loop := ParseLoop(np, toks, at);
    LoopSays(np, toks, at);
    if loop.err == None {
      var itef := ParseItef(loop.np, loop.toks);
      ItefSays(loop.np, loop.toks);
      if itef.err == None && itef.toks != [] {
        ExecuteSays(itef.np, itef.toks, o, trace);
      }
    }
  }

  lemma PartSays(env: Env, c: Config)
    ensures c.np.said <= PartStep(env, c).np.said
  {
    hide ParseCommand, Parts, Where, ErrorFree;
    if c.Running? && c.pc < |Parts(env.script)| {
      var part := Parts(env.script)[c.pc];
      CommandSays(c.np.(jump := None), part.toks, part.at, env.o, c.trace);
    }
  }

  lemma {:induction false} PartsSay(env: Env, c: Config, n: nat)
    ensures c.np.said <= Iterate(PartStepper(env), c, n).np.said
    decreases n
  {
    hide PartStep;
    if n > 0 {
      PartSays(env, c);
      PartsSay(env, PartStep(env, c), n - 1);
    }
  }

  // After n parts nothing has been said.
  ghost predicate Silence(env: Env, c: Config, n: nat) {
    Iterate(PartStepper(env), c, n).np.said == c.np.said
  }

  // If nothing has been said after m parts, it has not before, and what is said later is said then.
  lemma {:induction false} SilenceBefore(env: Env, c: Config, m: nat, d: Config, n: nat)
    requires Reaches(PartStepper(env), c, m, d) && d.np.said == c.np.said
    requires n < m || Silence(env, d, n - m)
    ensures Silence(env, c, n)
  {
    hide Iterate, PartStep;
    var f := PartStepper(env);
    if n < m {
      IterateCompose(f, c, n, m - n);
      PartsSay(env, c, n);
      PartsSay(env, Iterate(f, c, n), m - n);
    } else {
      IterateCompose(f, c, m, n - m);
    }
  }

  // ----- Scripts that run for ever -----

  ghost predicate Diverges(env: Env, p: Prog, st: St, mark: Option<nat>)
    requires mark.Some? ==> mark.value < |st.ie|
  {
    forall fuel: nat :: Eval(p, st, env.o, env.ignore, mark, fuel).None?
  }

  // What Endless asks for.
  ghost predicate Going(env: Env, p: Prog, st: St, mark: Option<nat>, deep: bool, np: Np, pc: nat) {
    Straight(p, st, mark, deep) && Ready(env, p, st, mark, np, pc) && Diverges(env, p, st, mark)
  }

  lemma {:induction false} ReadySaid(env: Env, p: Prog, st: St, mark: Option<nat>, np: Np, pc: nat)
    requires Ready(env, p, st, mark, np, pc)
    ensures np.said == st.said
  {
    hide Fits, Layout, Strict, Level;
  }

  // A faithful part of a script that ends, ends as it is meant to.
  lemma {:induction false} EndsQuietly(env: Env, p: Prog, st: St, mark: Option<nat>, deep: bool, fuel: nat)
    requires Straight(p, st, mark, deep) && Eval(p, st, env.o, env.ignore, mark, fuel).Some?
    ensures var r := Eval(p, st, env.o, env.ignore, mark, fuel).value;
            && r.st.said == st.said && (r.Finished? ==> Kept(st, r.st))
            && (r.Finished? && !r.st.live ==> mark.Some? && !deep)
            && (r.Finished? && r.st.live && mark.Some? ==> !AlwaysBreaks(p))
  {
    hide Eval, Meaning;
    EvalIsMeaning(p, st, env.o, env.ignore, mark, deep, fuel);
    MeaningSaysNothing(p, ObsOf(st), env.o, env.ignore, mark.Some?, fuel);
    if mark.Some? && AlwaysBreaks(p) {
      BreaksAreBreaks(p, ObsOf(st), env.o, env.ignore, fuel);
    }
  }

  // Either some fuel is enough, or none is.
  lemma EndsOrNot(env: Env, p: Prog, st: St, mark: Option<nat>) returns (ends: bool, fuel: nat)
    requires mark.Some? ==> mark.value < |st.ie|
    ensures ends ==> Eval(p, st, env.o, env.ignore, mark, fuel).Some?
    ensures !ends ==> Diverges(env, p, st, mark)
  {
    hide Eval;
    ends, fuel := false, 0;
    if !Diverges(env, p, st, mark) {
      fuel :| Eval(p, st, env.o, env.ignore, mark, fuel).Some?;
      ends := true;
    }
  }

  /** A faithful part of a script that runs for ever has no word rejected. */
  lemma {:induction false} Endless(env: Env, p: Prog, st: St, mark: Option<nat>, deep: bool, np: Np, pc: nat, n: nat)
    requires Going(env, p, st, mark, deep, np, pc)
    ensures Silence(env, Running(np, pc, st.trace, st.err), n)
    decreases n, p, 1
  {
    hide Silence, Ready;
    match p {
      case Seq(_, _) =>
        EndlessSeq(env, p, st, mark, deep, np, pc, n);
      case IfElse(_, _, _, _) =>
        EndlessIf(env, p, st, mark, deep, np, pc, n);
      case Loop(_, _, _) =>
        EndlessLoop(env, p, st, mark, deep, np, pc, n);
      case _ =>
        SimpleEnds(env, p, st, mark);
        assert false;
    }
  }

  lemma {:induction false} SimpleEnds(env: Env, p: Prog, st: St, mark: Option<nat>)
    requires (p.Empty? || p.Simple? || p.BreakCmd?) && (mark.Some? ==> mark.value < |st.ie|)
    ensures !Diverges(env, p, st, mark)
  {
    assert Eval(p, st, env.o, env.ignore, mark, 0).Some?;
  }

  lemma {:induction false} EndlessSeq(env: Env, p: Prog, st: St, mark: Option<nat>, deep: bool, np: Np, pc: nat, n: nat)
    requires p.Seq? && Going(env, p, st, mark, deep, np, pc)
    ensures Silence(env, Running(np, pc, st.trace, st.err), n)
    decreases n, p, 0
  {
    hide Silence, Eval, Ready, Reaches, Flatten, Context, Moved;
    ReadySeq(env, p, st, mark, np, pc);
    ReadySaid(env, p, st, mark, np, pc);
    var ends, f := EndsOrNot(env, p.first, st, mark);
    if !ends {
      Endless(env, p.first, st, mark, deep, np, pc, n);
    } else {
      SeqGoesOn(env, p, st, mark, deep, f);
      var r := Eval(p.first, st, env.o, env.ignore, mark, f).value;
      var n1, np1 := Simulate(env, p.first, st, mark, f, np, pc);
      var pc1 := pc + |Flatten(p.first)|;
      ReadyRest(env, p, st, mark, np, pc, r.st, np1);
      if n >= n1 {
        Endless(env, p.rest, r.st, mark, deep, np1, pc1, n - n1);
      }
      SilenceBefore(env, Running(np, pc, st.trace, st.err), n1, Running(np1, pc1, r.st.trace, r.st.err), n);
    }
  }

  // The first part ends, so it is the rest that runs for ever.
  lemma {:induction false} SeqGoesOn(env: Env, p: Prog, st: St, mark: Option<nat>, deep: bool, f: nat)
    requires p.Seq? && Straight(p, st, mark, deep) && Diverges(env, p, st, mark)
    requires Eval(p.first, st, env.o, env.ignore, mark, f).Some?
    ensures var r := Eval(p.first, st, env.o, env.ignore, mark, f).value;
            && r.Finished? && Kept(st, r.st) && r.st.said == st.said
            && Straight(p.rest, r.st, mark, deep) && Diverges(env, p.rest, r.st, mark)
  {
    hide Eval;
    var r := Eval(p.first, st, env.o, env.ignore, mark, f).value;
    if r.Aborted? || !r.st.live {
      SeqEnds(env, p, st, mark, deep, f);
      assert false;
    }
    EndsQuietly(env, p.first, st, mark, deep, f);
    forall g: nat ensures Eval(p.rest, r.st, env.o, env.ignore, mark, g).None? {
      if Eval(p.rest, r.st, env.o, env.ignore, mark, g).Some? {
        SeqEndsLater(env, p, st, mark, f, g);
        assert false;
      }
    }
  }

  lemma {:induction false} SeqEnds(env: Env, p: Prog, st: St, mark: Option<nat>, deep: bool, f: nat)
    requires p.Seq? && Straight(p, st, mark, deep)
    requires var r := Eval(p.first, st, env.o, env.ignore, mark, f);
             r.Some? && (r.value.Aborted? || !r.value.st.live)
    ensures !Diverges(env, p, st, mark)
  {
    hide Eval;
    EvalSeq(p, st, env.o, env.ignore, mark, f);
    EndsQuietly(env, p.first, st, mark, deep, f);
    var r := Eval(p.first, st, env.o, env.ignore, mark, f).value;
    if r.Finished? {
      SkippingIsSilentIff(p.rest, r.st, env.o, env.ignore, mark, f);
    }
    assert Eval(p, st, env.o, env.ignore, mark, f).Some?;
  }

  lemma {:induction false} SeqEndsLater(env: Env, p: Prog, st: St, mark: Option<nat>, f: nat, g: nat)
    requires p.Seq? && (mark.Some? ==> mark.value < |st.ie|)
    requires var r := Eval(p.first, st, env.o, env.ignore, mark, f);
             r.Some? && r.value.Finished? && Eval(p.rest, r.value.st, env.o, env.ignore, mark, g).Some?
    ensures !Diverges(env, p, st, mark)
  {
    hide Eval;
    var r := Eval(p.first, st, env.o, env.ignore, mark, f).value;
    MoreFuel(p.first, st, env.o, env.ignore, mark, f, f + g);
    MoreFuel(p.rest, r.st, env.o, env.ignore, mark, g, f + g);
    EvalSeq(p, st, env.o, env.ignore, mark, f + g);
    assert Eval(p, st, env.o, env.ignore, mark, f + g).Some?;
  }

  lemma {:induction false} EndlessIf(env: Env, p: Prog, st: St, mark: Option<nat>, deep: bool, np: Np, pc: nat, n: nat)
    requires p.IfElse? && Going(env, p, st, mark, deep, np, pc)
    ensures Silence(env, Running(np, pc, st.trace, st.err), n)
    decreases n, p, 0
  {
    hide Silence, Eval, Ready, Reaches, Flatten, Context, Moved, EnterIf, Diverges;
    ReadySaid(env, p, st, mark, np, pc);
    EnteredIf(p, st, env.o, mark);
    var st1 := EnterIf(p.inverted, p.cond, st, env.o, mark);
    var np1 := TakeThen(env, p, st, mark, np, pc);
    var c, c1 := Running(np, pc, st.trace, st.err), Running(np1, pc + 2, st1.trace, st1.err);
    if n >= 2 {
      if env.o(st.trace + [p.cond], st.fail) == p.inverted {
        ThenGoesOn(env, p, st, mark, deep);
        Endless(env, p.thn, st1, mark, true, np1, pc + 2, n - 2);
      } else {
        EndlessElse(env, p, st, mark, deep, np, pc, np1, n - 2);
      }
    }
    SilenceBefore(env, c, 2, c1, n);
  }

  // The then branch is taken, so it is that branch that runs for ever.
  lemma {:induction false} ThenGoesOn(env: Env, p: Prog, st: St, mark: Option<nat>, deep: bool)
    requires p.IfElse? && Straight(p, st, mark, deep) && Diverges(env, p, st, mark)
    requires env.o(st.trace + [p.cond], st.fail) == p.inverted
    ensures var st1 := EnterIf(p.inverted, p.cond, st, env.o, mark);
            Straight(p.thn, st1, mark, true) && Diverges(env, p.thn, st1, mark)
  {
    hide Eval, EnterIf;
    EnteredIf(p, st, env.o, mark);
    var st1 := EnterIf(p.inverted, p.cond, st, env.o, mark);
    forall f: nat ensures Eval(p.thn, st1, env.o, env.ignore, mark, f).None? {
      if Eval(p.thn, st1, env.o, env.ignore, mark, f).Some? {
        ThenEnds(env, p, st, mark, deep, f);
        assert false;
      }
    }
  }

  lemma {:induction false} ThenEnds(env: Env, p: Prog, st: St, mark: Option<nat>, deep: bool, f: nat)
    requires p.IfElse? && Straight(p, st, mark, deep) && env.o(st.trace + [p.cond], st.fail) == p.inverted
    requires Eval(p.thn, EnterIf(p.inverted, p.cond, st, env.o, mark), env.o, env.ignore, mark, f).Some?
    ensures !Diverges(env, p, st, mark)
  {
    hide Eval, EnterIf, Close;
    EnteredIf(p, st, env.o, mark);
    EvalIf(p, st, env.o, env.ignore, mark, f);
    var st1 := EnterIf(p.inverted, p.cond, st, env.o, mark);
    EndsQuietly(env, p.thn, st1, mark, true, f);
    var r := Eval(p.thn, st1, env.o, env.ignore, mark, f).value;
    if r.Finished? {
      PassElse(p, st, st1, r.st, env.o, env.ignore, mark, f);
    }
    assert Eval(p, st, env.o, env.ignore, mark, f).Some?;
  }

  // The then branch is passed over, and the else branch runs for ever.
  lemma {:induction false} EndlessElse(env: Env, p: Prog, st: St, mark: Option<nat>, deep: bool, np: Np, pc: nat,
                                       np1: Np, n: nat)
    requires p.IfElse? && Going(env, p, st, mark, deep, np, pc)
    requires var st1 := EnterIf(p.inverted, p.cond, st, env.o, mark);
             && Ready(env, p.thn, st1, mark, np1, pc + 2)
             && Simulated(env, np, pc, st, mark, Finished(st1), 2, np1, pc + 2)
    requires env.o(st.trace + [p.cond], st.fail) != p.inverted
    ensures var st1 := EnterIf(p.inverted, p.cond, st, env.o, mark);
            Silence(env, Running(np1, pc + 2, st1.trace, st1.err), n)
    decreases n, p, 0
  {
    hide Silence, Eval, Reaches, Fits, Layout, Flatten, Context, Moved, EnterIf, AtElse, Diverges, Strict, Level;
    EnteredIf(p, st, env.o, mark);
    var st1, k := EnterIf(p.inverted, p.cond, st, env.o, mark), |Flatten(p.thn)|;
    DeadCode(p.thn, st1, env.o, env.ignore, mark, 0);
    var st2 := Eval(p.thn, st1, env.o, env.ignore, mark, 0).value.st;
    var n1, np2 := Simulate(env, p.thn, st1, mark, 0, np1, pc + 2);
    ElseGoesOn(env, p, st, mark, deep);
    OwnElse(st1, st2, env.ignore);
    var st3 := AtElse(st2, env.ignore).st;
    FitsIf(Parts(env.script), pc, p);
    var np3 := SimulateElse(env, st2, mark, np2, pc + 2 + k);
    SimTrans(env, np1, pc + 2, st1, mark, st2, n1, np2, pc + 2 + k, Finished(st3), 1, np3, pc + 3 + k);
    SimTrans(env, np, pc, st, mark, st1, 2, np1, pc + 2, Finished(st3), n1 + 1, np3, pc + 3 + k);
    ReadyElse(env, p, st, mark, np, pc, st3, np3);
    if n >= n1 + 1 {
      Endless(env, p.els.value, st3, mark, true, np3, pc + 3 + k, n - n1 - 1);
    }
    ReadySaid(env, p.thn, st1, mark, np1, pc + 2);
    SilenceBefore(env, Running(np1, pc + 2, st1.trace, st1.err), n1 + 1,
                  Running(np3, pc + 3 + k, st3.trace, st3.err), n);
  }

  lemma {:induction false} ElseGoesOn(env: Env, p: Prog, st: St, mark: Option<nat>, deep: bool)
    requires p.IfElse? && Straight(p, st, mark, deep) && Diverges(env, p, st, mark)
    requires env.o(st.trace + [p.cond], st.fail) != p.inverted
    ensures p.els.Some? && Eval(p.thn, EnterIf(p.inverted, p.cond, st, env.o, mark), env.o, env.ignore, mark, 0).Some?
    ensures var st1 := EnterIf(p.inverted, p.cond, st, env.o, mark);
            var st3 := AtElse(Eval(p.thn, st1, env.o, env.ignore, mark, 0).value.st, env.ignore).st;
            Straight(p.els.value, st3, mark, true) && Diverges(env, p.els.value, st3, mark)
  {
    hide Eval, EnterIf, AtElse, AtFi;
    if p.els.None? {
      NoElseEnds(env, p, st, mark, deep);
      assert false;
    }
    EnteredIf(p, st, env.o, mark);
    var st1 := EnterIf(p.inverted, p.cond, st, env.o, mark);
    DeadCode(p.thn, st1, env.o, env.ignore, mark, 0);
    var st2 := Eval(p.thn, st1, env.o, env.ignore, mark, 0).value.st;
    OwnElse(st1, st2, env.ignore);
    var st3 := AtElse(st2, env.ignore).st;
    forall f: nat ensures Eval(p.els.value, st3, env.o, env.ignore, mark, f).None? {
      if Eval(p.els.value, st3, env.o, env.ignore, mark, f).Some? {
        ElseEnds(env, p, st, mark, deep, f);
        assert false;
      }
    }
  }

  lemma {:induction false} NoElseEnds(env: Env, p: Prog, st: St, mark: Option<nat>, deep: bool)
    requires p.IfElse? && p.els.None? && Straight(p, st, mark, deep)
    requires env.o(st.trace + [p.cond], st.fail) != p.inverted
    ensures !Diverges(env, p, st, mark)
  {
    hide Eval, EnterIf, AtFi;
    EnteredIf(p, st, env.o, mark);
    EvalIf(p, st, env.o, env.ignore, mark, 0);
    DeadCode(p.thn, EnterIf(p.inverted, p.cond, st, env.o, mark), env.o, env.ignore, mark, 0);
    assert Eval(p, st, env.o, env.ignore, mark, 0).Some?;
  }

  lemma {:induction false} ElseEnds(env: Env, p: Prog, st: St, mark: Option<nat>, deep: bool, f: nat)
    requires p.IfElse? && p.els.Some? && Straight(p, st, mark, deep)
    requires env.o(st.trace + [p.cond], st.fail) != p.inverted
    requires var st1 := EnterIf(p.inverted, p.cond, st, env.o, mark);
             var r := Eval(p.thn, st1, env.o, env.ignore, mark, 0);
             && r.Some? && r.value.Finished?
             && Eval(p.els.value, AtElse(r.value.st, env.ignore).st, env.o, env.ignore, mark, f).Some?
    ensures !Diverges(env, p, st, mark)
  {
    hide Eval, EnterIf, AtElse, AtFi;
    MoreFuel(p.thn, EnterIf(p.inverted, p.cond, st, env.o, mark), env.o, env.ignore, mark, 0, f);
    EvalIf(p, st, env.o, env.ignore, mark, f);
    assert Eval(p, st, env.o, env.ignore, mark, f).Some?;
  }

  lemma {:induction false} EndlessLoop(env: Env, p: Prog, st: St, mark: Option<nat>, deep: bool, np: Np, pc: nat,
                                       n: nat)
    requires p.Loop? && Going(env, p, st, mark, deep, np, pc)
    ensures Silence(env, Running(np, pc, st.trace, st.err), n)
    decreases n, p, 0
  {
    hide Silence, Eval, Ready, Reaches, Flatten, Context, Moved, Inside, EnterLoop, Diverges;
    ReadySaid(env, p, st, mark, np, pc);
    var st1 := EnterLoop(p.until, p.cond, st, env.o);
    var np1 := TakeBody(env, p, st, mark, np, pc);
    ReadySaid(env, p.body, st1, Some(st.top), np1, pc + 2);
    EntersLive(env, p, st, mark, deep);
    if n >= 2 {
      var ends, f := EndsOrNot(env, p.body, st1, Some(st.top));
      if ends {
        EndlessPass(env, p, st, mark, deep, np, pc, np1, f, n - 2);
      } else {
        Endless(env, p.body, st1, Some(st.top), false, np1, pc + 2, n - 2);
      }
    }
    SilenceBefore(env, Running(np, pc, st.trace, st.err), 2, Running(np1, pc + 2, st1.trace, st1.err), n);
  }

  // The body is run.
  lemma {:induction false} EntersLive(env: Env, p: Prog, st: St, mark: Option<nat>, deep: bool)
    requires p.Loop? && Straight(p, st, mark, deep) && Diverges(env, p, st, mark)
    ensures Straight(p.body, EnterLoop(p.until, p.cond, st, env.o), Some(st.top), false)
  {
    hide Eval;
    if !EnterLoop(p.until, p.cond, st, env.o).live {
      SkippedEnds(env, p, st, mark, deep);
      assert false;
    }
  }

  lemma {:induction false} SkippedEnds(env: Env, p: Prog, st: St, mark: Option<nat>, deep: bool)
    requires p.Loop? && Straight(p, st, mark, deep) && !EnterLoop(p.until, p.cond, st, env.o).live
    ensures !Diverges(env, p, st, mark)
  {
    hide Eval;
    EvalLoop(p, st, env.o, env.ignore, mark, 0);
    SkippingIsSilentIff(p.body, EnterLoop(p.until, p.cond, st, env.o), env.o, env.ignore, Some(st.top), 0);
    assert Eval(p, st, env.o, env.ignore, mark, 0).Some?;
  }

  // A pass through the body ends, so another one begins.
  lemma {:induction false} EndlessPass(env: Env, p: Prog, st: St, mark: Option<nat>, deep: bool, np: Np, pc: nat,
                                       np1: Np, f: nat, n: nat)
    requires p.Loop? && Going(env, p, st, mark, deep, np, pc) && Inside(env, np, np1, pc)
    requires var st1 := EnterLoop(p.until, p.cond, st, env.o);
             && Ready(env, p.body, st1, Some(st.top), np1, pc + 2) && Straight(p.body, st1, Some(st.top), false)
             && Eval(p.body, st1, env.o, env.ignore, Some(st.top), f).Some?
    ensures var st1 := EnterLoop(p.until, p.cond, st, env.o);
            Silence(env, Running(np1, pc + 2, st1.trace, st1.err), n)
    decreases n, p, 0
  {
    hide Silence, Eval, Ready, Reaches, Flatten, Context, Moved, Inside, EnterLoop, Diverges, PartStep;
    var st1, g := EnterLoop(p.until, p.cond, st, env.o), PartStepper(env);
    ReadySaid(env, p.body, st1, Some(st.top), np1, pc + 2);
    LoopGoesRound(env, p, st, mark, deep, f);
    var r := Eval(p.body, st1, env.o, env.ignore, Some(st.top), f).value;
    var n1, np2 := Simulate(env, p.body, st1, Some(st.top), f, np1, pc + 2);
    var c1 := Running(np1, pc + 2, st1.trace, st1.err);
    var c2 := Running(np2, pc + 2 + |Flatten(p.body)|, r.st.trace, r.st.err);
    var np3 := CloseBody(env, p, st, mark, np, pc, np1, r.st, np2);
    ReachMore(g, c1, n1, c2);
    var st3 := r.st.(err := false, live := st.live);
    ReadySaid(env, p, st3, mark, np3, pc);
    if n >= n1 + 1 {
      EndlessLoop(env, p, st3, mark, deep, np3, pc, n - n1 - 1);
    }
    SilenceBefore(env, c1, n1 + 1, Running(np3, pc, st3.trace, st3.err), n);
  }

  lemma {:induction false} LoopGoesRound(env: Env, p: Prog, st: St, mark: Option<nat>, deep: bool, f: nat)
    requires p.Loop? && Straight(p, st, mark, deep) && Diverges(env, p, st, mark)
    requires var st1 := EnterLoop(p.until, p.cond, st, env.o);
             && Straight(p.body, st1, Some(st.top), false)
             && Eval(p.body, st1, env.o, env.ignore, Some(st.top), f).Some?
    ensures var r := Eval(p.body, EnterLoop(p.until, p.cond, st, env.o), env.o, env.ignore, Some(st.top), f).value;
            && r.Finished? && r.st.live && r.st.said == st.said && r.st.top == st.top
            && (var st3 := r.st.(err := false, live := st.live);
                Straight(p, st3, mark, deep) && Diverges(env, p, st3, mark))
  {
    hide Eval;
    var st1 := EnterLoop(p.until, p.cond, st, env.o);
    var r := Eval(p.body, st1, env.o, env.ignore, Some(st.top), f).value;
    if r.Aborted? || !r.st.live {
      LoopEnds(env, p, st, mark, f);
      assert false;
    }
    EndsQuietly(env, p.body, st1, Some(st.top), false, f);
    var st3 := r.st.(err := false, live := st.live);
    forall h: nat ensures Eval(p, st3, env.o, env.ignore, mark, h).None? {
      if Eval(p, st3, env.o, env.ignore, mark, h).Some? {
        LoopEndsLater(env, p, st, mark, f, h);
        assert false;
      }
    }
  }

  lemma {:induction false} LoopEnds(env: Env, p: Prog, st: St, mark: Option<nat>, f: nat)
    requires p.Loop? && (mark.Some? ==> mark.value < |st.ie|)
    requires var r := Eval(p.body, EnterLoop(p.until, p.cond, st, env.o), env.o, env.ignore, Some(st.top), f);
             r.Some? && (r.value.Aborted? || !r.value.st.live)
    ensures !Diverges(env, p, st, mark)
  {
    hide Eval;
    EvalLoop(p, st, env.o, env.ignore, mark, f);
    assert Eval(p, st, env.o, env.ignore, mark, f).Some?;
  }

  lemma {:induction false} LoopEndsLater(env: Env, p: Prog, st: St, mark: Option<nat>, f: nat, h: nat)
    requires p.Loop? && (mark.Some? ==> mark.value < |st.ie|)
    requires var r := Eval(p.body, EnterLoop(p.until, p.cond, st, env.o), env.o, env.ignore, Some(st.top), f);
             && r.Some? && r.value.Finished? && r.value.st.live
             && Eval(p, r.value.st.(err := false, live := st.live), env.o, env.ignore, mark, h).Some?
    ensures !Diverges(env, p, st, mark)
  {
    hide Eval;
    var st1, m := EnterLoop(p.until, p.cond, st, env.o), f + h + 1;
    var r := Eval(p.body, st1, env.o, env.ignore, Some(st.top), f).value;
    MoreFuel(p.body, st1, env.o, env.ignore, Some(st.top), f, m);
    MoreFuel(p, r.st.(err := false, live := st.live), env.o, env.ignore, mark, h, m - 1);
    EvalLoop(p, st, env.o, env.ignore, mark, m);
    assert Eval(p, st, env.o, env.ignore, mark, m).Some?;
  }

  // ----- Whole scripts -----

  // No word of the script is ever rejected.
  ghost predicate RejectsNothing(env: Env, np: Np, s: Obs) {
    forall n: nat :: Iterate(Stepper(env), Running(np, 0, s.trace, s.err), n).np.said == np.said
  }

  // Where the machine comes to, the machine on parts does.
  lemma {:induction false} PartsReach(env: Env, c: Config, n: nat) returns (m: nat)
    ensures Reaches(PartStepper(env), Lift(env, c), m, Lift(env, Iterate(Stepper(env), c, n)))
    decreases n
  {
    hide Reaches, Step, PartStep, Lift;
    if n == 0 {
      ReachNone(PartStepper(env), Lift(env, c));
      m := 0;
    } else {
      var c1 := Step(env, c);
      var m1 := PartsReach(env, c1, n - 1);
      if c.Halted? {
        HaltedIsHalted(env, c);
        m := m1;
      } else {
        var k := CommandByParts(env, c);
        ReachTrans(PartStepper(env), Lift(env, c), k, Lift(env, c1), m1, Lift(env, Iterate(Stepper(env), c1, n - 1)));
        m := k + m1;
      }
    }
  }

  lemma LiftSaid(env: Env, c: Config)
    ensures Lift(env, c).np.said == c.np.said
  {
  }

  // The machine on parts says nothing.
  lemma {:induction false} SilentParts(env: Env, p: Prog, np: Np, s: Obs, m: nat)
    requires Loaded(env, p, np, s) && Faithful(p, false, false)
    ensures Silence(env, Running(np, 0, s.trace, s.err), m)
  {
    hide Silence, Eval, Reaches, Fits, Layout, Strict, Level, Faithful, Diverges;
    var st, c := Start(np, s), Running(np, 0, s.trace, s.err);
    assert Straight(p, st, None, false);
    var ends, fuel := EndsOrNot(env, p, st, None);
    if !ends {
      Endless(env, p, st, None, false, np, 0, m);
    } else {
      EndsQuietly(env, p, st, None, false, fuel);
      var n, h, np' := RunOfEval(env, p, np, s, fuel);
      if m >= n {
        SilentAtRest(env, h, m - n);
      }
      SilenceBefore(env, c, n, h, m);
    }
  }

  lemma {:induction false} SilentAtRest(env: Env, h: Config, n: nat)
    requires h.Halted?
    ensures Silence(env, h, n)
  {
    IterateFixed(PartStepper(env), h, n);
  }

  /** A faithful script has no word rejected, at any time, in any world. */
  lemma {:induction false} FaithfulRejectsNothing(env: Env, p: Prog, np: Np, s: Obs)
    requires Loaded(env, p, np, s) && Faithful(p, false, false)
    ensures RejectsNothing(env, np, s)
  {
    hide Loaded, Faithful, Iterate, Lift, Step, PartStep;
    var c := Running(np, 0, s.trace, s.err);
    FirstPart(env, np, s);
    forall n: nat ensures Iterate(Stepper(env), c, n).np.said == np.said {
      var m := PartsReach(env, c, n);
      SilentParts(env, p, np, s, m);
      LiftSaid(env, Iterate(Stepper(env), c, n));
    }
  }
}
