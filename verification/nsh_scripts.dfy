/** Scripts with a `break` inside an `if` of a loop body: two that NSH does not run as they are meant,
    one that keeps its meaning all the same, and one that differs in a message only; and a loop on one
    line. */
module NshScripts {
  import opened Basics
  import opened NshLevels
  import opened NshMachine
  import opened NshPaths
  import opened NshSimulation
  import opened NshStructured
  import opened NshTheorem

  // `if y; then; break; fi`
  function BreakIf(y: Argv): Prog {
    IfElse(false, y, BreakCmd, None)
  }

  // ----- while a; do; if b; then; break; fi; done -----

  function Breaking(a: Argv, b: Argv): Prog {
    Loop(false, a, BreakIf(b))
  }

  /** When both commands succeed, the script means to run each of them once and to succeed.  NSH runs
      them and then rejects the `fi`: that is an error, and if errors are ignored the last status is
      failure all the same. */
  lemma {:induction false} BreakInsideIfFails(env: Env, a: Argv, b: Argv, np: Np, s: Obs)
    requires forall trace, fail :: !env.o(trace, fail)
    requires AtPeace(Breaking(a, b), np, s) && Loaded(env, Breaking(a, b), np, s)
    ensures var trace := s.trace + [a] + [b];
            && MachineGives(env, np, s, Obs(trace, true, !env.ignore, s.said + 1))
            && Means(env, Breaking(a, b), s, Obs(trace, false, false, s.said))
            && !Faithful(Breaking(a, b), false, false)
  {
    hide MachineGives, Loaded;
    var p, trace := Breaking(a, b), s.trace + [a] + [b];
    var mean := Meaning(p, s, env.o, env.ignore, false, 0);
    MeaningLoop(p, s, env.o, env.ignore, false, 0);
    MeaningIf(p.body, Ran(s, a), env.o, env.ignore, true, 0);
    assert MeaningShows(mean, Obs(trace, false, false, s.said));
    assert !Faithful(BreakCmd, true, true) && !Faithful(p.body, true, false);
    BreakingRun(env, a, b, np, s);
    MachineIsEval(env, p, np, s, Obs(trace, true, !env.ignore, s.said + 1));
  }

  lemma {:induction false} BreakingRun(env: Env, a: Argv, b: Argv, np: Np, s: Obs)
    requires (forall trace, fail :: !env.o(trace, fail)) && AtPeace(Breaking(a, b), np, s)
    ensures EvalShows(Eval(Breaking(a, b), Start(np, s), env.o, env.ignore, None, 0),
                      Obs(s.trace + [a] + [b], true, !env.ignore, s.said + 1))
  {
    var p, st := Breaking(a, b), Start(np, s);
    EvalLoop(p, st, env.o, env.ignore, None, 0);
    var st1 := EnterLoop(false, a, st, env.o);
    EvalIf(p.body, st1, env.o, env.ignore, Some(0), 0);
    var st2 := EnterIf(false, b, st1, env.o, Some(0));
    assert Eval(BreakCmd, st2, env.o, env.ignore, Some(0), 0) ==
           Some(Finished(st2.(fail := false, err := false, live := false, top := 0)));
  }

  // ----- if x; then; while a; do; if b; then; break; fi; done; else; c; fi -----

  function Astray(x: Argv, a: Argv, b: Argv, c: Argv): Prog {
    IfElse(false, x, Breaking(a, b), Some(Simple(c)))
  }

  /** When every command succeeds and errors are ignored, the script means to run the then branch.  The
      `fi` of the inner `if` closes the outer one, its `else` is rejected and what follows is run: NSH
      runs both branches. */
  lemma {:induction false} RunsBothBranches(env: Env, x: Argv, a: Argv, b: Argv, c: Argv, np: Np, s: Obs)
    requires env.ignore && (forall trace, fail :: !env.o(trace, fail)) && c != []
    requires AtPeace(Astray(x, a, b, c), np, s) && Loaded(env, Astray(x, a, b, c), np, s)
    ensures var trace := s.trace + [x] + [a] + [b];
            && MachineGives(env, np, s, Obs(trace + [c], true, true, s.said + 2))
            && Means(env, Astray(x, a, b, c), s, Obs(trace, false, false, s.said))
    ensures Unmended(Astray(x, a, b, c), false) && !Faithful(Astray(x, a, b, c), false, false)
  {
    hide MachineGives, Loaded;
    var p, q, trace := Astray(x, a, b, c), Breaking(a, b), s.trace + [x] + [a] + [b];
    var mean := Meaning(p, s, env.o, true, false, 0);
    MeaningIf(p, s, env.o, true, false, 0);
    MeaningLoop(q, Ran(s, x), env.o, true, false, 0);
    MeaningIf(q.body, Ran(Ran(s, x), a), env.o, true, true, 0);
    assert MeaningShows(mean, Obs(trace, false, false, s.said));
    AstrayFacts(x, a, b, c);
    AstrayRun(env, x, a, b, c, np, s);
    MachineIsEval(env, p, np, s, Obs(trace + [c], true, true, s.said + 2));
  }

  lemma {:induction false} AstrayFacts(x: Argv, a: Argv, b: Argv, c: Argv)
    ensures Unmended(Astray(x, a, b, c), false) && !Faithful(Astray(x, a, b, c), false, false)
    ensures IfDepth(Astray(x, a, b, c)) == 2
  {
    var q := Breaking(a, b);
    assert !Faithful(BreakCmd, true, true) && !Faithful(q.body, true, false) && !Faithful(q, false, true);
    assert !DeepBreak(BreakCmd, false, true) && !DeepBreak(q.body, false, false);
    assert Unmended(BreakCmd, true) && Unmended(q.body, true) && Unmended(q, true) && Unmended(Simple(c), true);
    assert IfDepth(BreakCmd) == 0 && IfDepth(q.body) == 1 && IfDepth(q) == 1 && IfDepth(Simple(c)) == 0;
  }

  // The loop, inside the `if`: it ends with that `if` closed.
  lemma {:induction false} AstrayLoop(o: Oracle, a: Argv, b: Argv, st: St)
    requires (forall trace, fail :: !o(trace, fail)) && st.live && st.top == 1 && 2 < |st.ie|
    requires IsOn(st.ie[1]) && st.ie[1].state == ItefThen
    ensures var st' := st.(trace := st.trace + [a] + [b], fail := false, err := false, top := 0,
                           ie := st.ie[2 := Itef(false, false, false, ItefThen)]);
            Eval(Breaking(a, b), st, o, true, None, 0) == Some(Finished(st'))
  {
    var p := Breaking(a, b);
    EvalLoop(p, st, o, true, None, 0);
    var st1 := EnterLoop(false, a, st, o);
    EvalIf(p.body, st1, o, true, Some(1), 0);
    var st2 := EnterIf(false, b, st1, o, Some(1));
    assert Eval(BreakCmd, st2, o, true, Some(1), 0) ==
           Some(Finished(st2.(fail := false, err := false, live := false, top := 1)));
  }

  lemma {:induction false} AstrayRun(env: Env, x: Argv, a: Argv, b: Argv, c: Argv, np: Np, s: Obs)
    requires (forall trace, fail :: !env.o(trace, fail)) && AtPeace(Astray(x, a, b, c), np, s) && c != []
    ensures EvalShows(Eval(Astray(x, a, b, c), Start(np, s), env.o, true, None, 0),
                      Obs(s.trace + [x] + [a] + [b] + [c], true, true, s.said + 2))
  {
    hide Breaking;
    AstrayFacts(x, a, b, c);
    var p, st := Astray(x, a, b, c), Start(np, s);
    EvalIf(p, st, env.o, true, None, 0);
    var st1 := EnterIf(false, x, st, env.o, None);
    AstrayLoop(env.o, a, b, st1);
  }

  // ----- A script that is not faithful and keeps its meaning all the same -----

  // while b; do; if y; then; break; fi; break; done
  function Inner(b: Argv, y: Argv): Prog {
    Loop(false, b, Seq(BreakIf(y), BreakCmd))
  }

  // while a; do; if z; then; <Inner>; fi; break; done
  function Outer(a: Argv, z: Argv, b: Argv, y: Argv): Prog {
    Loop(false, a, Seq(IfElse(false, z, Inner(b, y), None), BreakCmd))
  }

  function Mended(x: Argv, a: Argv, z: Argv, b: Argv, y: Argv): Prog {
    IfElse(false, x, Outer(a, z, b, y), None)
  }

  lemma {:induction false} InnerFacts(b: Argv, y: Argv)
    ensures IfDepth(Inner(b, y)) == IfDepth(Inner(b, y).body) == 1 && !HasBareLoop(Inner(b, y).body)
    ensures !Faithful(Inner(b, y), false, true) && !Faithful(Inner(b, y), true, true)
  {
    var p := BreakIf(y);
    assert IfDepth(BreakCmd) == 0 && IfDepth(p) == 1 && IfDepth(Seq(p, BreakCmd)) == 1;
    assert !Faithful(BreakCmd, true, true) && !Faithful(p, true, false) && !Faithful(Seq(p, BreakCmd), true, false);
    assert !HasBareLoop(p) && !HasBareLoop(BreakCmd);
  }

  lemma {:induction false} OuterFacts(a: Argv, z: Argv, b: Argv, y: Argv)
    ensures IfDepth(Outer(a, z, b, y)) == IfDepth(Outer(a, z, b, y).body) == 2 && !HasBareLoop(Outer(a, z, b, y).body)
    ensures !Faithful(Outer(a, z, b, y), false, true)
  {
    InnerFacts(b, y);
    hide Inner;
    var p := IfElse(false, z, Inner(b, y), None);
    assert IfDepth(BreakCmd) == 0 && IfDepth(p) == 2 && IfDepth(Seq(p, BreakCmd)) == 2;
    assert !Faithful(p, true, false) && !Faithful(Seq(p, BreakCmd), true, false);
    assert !HasBareLoop(p) && !HasBareLoop(BreakCmd);
  }

  // The outcome is that of the meaning, the entries of the if stack are kept up to where it was, and
  // it may have sunk by `down` levels.
  ghost predicate Lowered(st: St, r: Option<Outcome>, m: Option<Signal>, live: bool, down: nat) {
    && r.Some? && r.value.Finished? && m.Some? && !m.value.Stopped? && ObsOf(r.value.st) == m.value.obs
    && r.value.st.live == live && |r.value.st.ie| == |st.ie|
    && r.value.st.top <= st.top <= r.value.st.top + down
    && (forall k | 0 <= k <= st.top :: r.value.st.ie[k] == st.ie[k])
  }

  // The body of the inner loop, entered live: it ends with a `break`, and if that was the one inside
  // the `if`, the `fi` has closed the `if` around the loop.
  lemma {:induction false} InnerBody(y: Argv, st: St, o: Oracle, ignore: bool, fuel: nat)
    requires st.live && IsOn(st.ie[st.top]) && st.ie[st.top].state == ItefThen && 0 < st.top && st.top + 1 < |st.ie|
    ensures var p := Seq(BreakIf(y), BreakCmd);
            && Lowered(st, Eval(p, st, o, ignore, Some(st.top), fuel), Meaning(p, ObsOf(st), o, ignore, true, fuel),
                       false, 1)
            && Meaning(p, ObsOf(st), o, ignore, true, fuel).value.Broke?
  {
    var p := Seq(BreakIf(y), BreakCmd);
    EvalSeq(p, st, o, ignore, Some(st.top), fuel);
    MeaningSeq(p, ObsOf(st), o, ignore, true, fuel);
    MeaningIf(p.first, ObsOf(st), o, ignore, true, fuel);
    EvalIf(p.first, st, o, ignore, Some(st.top), fuel);
    var st1 := EnterIf(false, y, st, o, Some(st.top));
    assert Eval(BreakCmd, st1, o, ignore, Some(st.top), fuel) ==
           Some(Finished(if IsOn(st1.ie[st1.top]) then st1.(fail := false, err := false, live := false, top := st.top)
                         else st1.(err := false)));
  }

  lemma {:induction false} InnerLoop(b: Argv, y: Argv, st: St, o: Oracle, ignore: bool, mark: Option<nat>, fuel: nat)
    requires mark.Some? ==> mark.value < |st.ie|
    requires st.live && IsOn(st.ie[st.top]) && st.ie[st.top].state == ItefThen && 0 < st.top && st.top + 1 < |st.ie|
    ensures Lowered(st, Eval(Inner(b, y), st, o, ignore, mark, fuel),
                    Meaning(Inner(b, y), ObsOf(st), o, ignore, mark.Some?, fuel), true, 1)
    ensures Meaning(Inner(b, y), ObsOf(st), o, ignore, mark.Some?, fuel).value.Normal?
  {
    hide Eval, Meaning;
    InnerFacts(b, y);
    var p := Inner(b, y);
    EvalLoop(p, st, o, ignore, mark, fuel);
    MeaningLoop(p, ObsOf(st), o, ignore, mark.Some?, fuel);
    var st1 := EnterLoop(false, b, st, o);
    if st1.live {
      InnerBody(y, st1, o, ignore, fuel);
    } else {
      SkippingIsSilentIff(p.body, st1, o, ignore, Some(st.top), fuel);
    }
  }

  // The body of the outer loop, entered live: its own `break` raises the stack again.
  lemma {:induction false} OuterBody(z: Argv, b: Argv, y: Argv, st: St, o: Oracle, ignore: bool, fuel: nat)
    requires st.live && IsOn(st.ie[st.top]) && st.ie[st.top].state == ItefThen && st.top == 1 && st.top + 2 < |st.ie|
    requires IsOn(st.ie[0])
    ensures var p := Seq(IfElse(false, z, Inner(b, y), None), BreakCmd);
            && Lowered(st, Eval(p, st, o, ignore, Some(1), fuel), Meaning(p, ObsOf(st), o, ignore, true, fuel),
                       false, 0)
            && Meaning(p, ObsOf(st), o, ignore, true, fuel).value.Broke?
  {
    var p := Seq(IfElse(false, z, Inner(b, y), None), BreakCmd);
    OuterIf(z, b, y, st, o, ignore, fuel);
    hide Inner;
    EvalSeq(p, st, o, ignore, Some(1), fuel);
    MeaningSeq(p, ObsOf(st), o, ignore, true, fuel);
  }

  lemma {:induction false} OuterIf(z: Argv, b: Argv, y: Argv, st: St, o: Oracle, ignore: bool, fuel: nat)
    requires st.live && IsOn(st.ie[st.top]) && st.ie[st.top].state == ItefThen && st.top == 1 && st.top + 2 < |st.ie|
    ensures var p := IfElse(false, z, Inner(b, y), None);
            && Lowered(st, Eval(p, st, o, ignore, Some(1), fuel), Meaning(p, ObsOf(st), o, ignore, true, fuel), true, 1)
            && Meaning(p, ObsOf(st), o, ignore, true, fuel).value.Normal?
  {
    hide Eval, Meaning, Inner;
    var p := IfElse(false, z, Inner(b, y), None);
    EvalIf(p, st, o, ignore, Some(1), fuel);
    MeaningIf(p, ObsOf(st), o, ignore, true, fuel);
    var st1 := EnterIf(false, z, st, o, Some(1));
    if IsOn(st1.ie[st1.top]) {
      InnerLoop(b, y, st1, o, ignore, Some(1), fuel);
    } else {
      InnerFacts(b, y);
      DeadCode(p.thn, st1, o, ignore, Some(1), fuel);
    }
  }

  lemma {:induction false} OuterLoop(a: Argv, z: Argv, b: Argv, y: Argv, st: St, o: Oracle, ignore: bool, fuel: nat)
    requires st.live && IsOn(st.ie[st.top]) && st.ie[st.top].state == ItefThen && st.top == 1 && st.top + 2 < |st.ie|
    requires IsOn(st.ie[0])
    ensures Lowered(st, Eval(Outer(a, z, b, y), st, o, ignore, None, fuel),
                    Meaning(Outer(a, z, b, y), ObsOf(st), o, ignore, false, fuel), true, 0)
    ensures Meaning(Outer(a, z, b, y), ObsOf(st), o, ignore, false, fuel).value.Normal?
  {
    hide Eval, Meaning;
    OuterFacts(a, z, b, y);
    var p := Outer(a, z, b, y);
    EvalLoop(p, st, o, ignore, None, fuel);
    MeaningLoop(p, ObsOf(st), o, ignore, false, fuel);
    var st1 := EnterLoop(false, a, st, o);
    if st1.live {
      OuterBody(z, b, y, st1, o, ignore, fuel);
    } else {
      SkippingIsSilentIff(p.body, st1, o, ignore, Some(1), fuel);
    }
  }

  lemma {:induction false} MendedRun(x: Argv, a: Argv, z: Argv, b: Argv, y: Argv, st: St, o: Oracle, ignore: bool,
                                     fuel: nat)
    requires st.live && IsOn(st.ie[0]) && st.top == 0 && 3 < |st.ie|
    ensures Lowered(st, Eval(Mended(x, a, z, b, y), st, o, ignore, None, fuel),
                    Meaning(Mended(x, a, z, b, y), ObsOf(st), o, ignore, false, fuel), true, 0)
  {
    hide Eval, Meaning, Outer;
    var p := Mended(x, a, z, b, y);
    EvalIf(p, st, o, ignore, None, fuel);
    MeaningIf(p, ObsOf(st), o, ignore, false, fuel);
    var st1 := EnterIf(false, x, st, o, None);
    if IsOn(st1.ie[st1.top]) {
      OuterLoop(a, z, b, y, st1, o, ignore, fuel);
    } else {
      OuterFacts(a, z, b, y);
      DeadCode(p.thn, st1, o, ignore, None, fuel);
    }
  }

  /** A script with a `break` inside an `if` of a loop body, which a run can reach, that keeps its
      meaning in every world: the `break` of the loop around it undoes the damage. */
  lemma {:induction false} MendedKeepsMeaning(env: Env, x: Argv, a: Argv, z: Argv, b: Argv, y: Argv, np: Np, s: Obs)
    requires AtPeace(Mended(x, a, z, b, y), np, s) && Loaded(env, Mended(x, a, z, b, y), np, s)
    ensures KeepsMeaning(env, Mended(x, a, z, b, y), np, s)
    ensures !Faithful(Mended(x, a, z, b, y), false, false)
  {
    hide MachineGives, Loaded, Eval, Meaning, Outer;
    OuterFacts(a, z, b, y);
    var p := Mended(x, a, z, b, y);
    assert IfDepth(p) == 3;
    forall res ensures MachineGives(env, np, s, res) <==> Means(env, p, s, res) {
      MachineIsEval(env, p, np, s, res);
      forall fuel: nat
        ensures EvalShows(Eval(p, Start(np, s), env.o, env.ignore, None, fuel), res) <==>
                MeaningShows(Meaning(p, s, env.o, env.ignore, false, fuel), res)
      {
        MendedRun(x, a, z, b, y, Start(np, s), env.o, env.ignore, fuel);
      }
    }
  }

  // ----- One that differs in a message only, when errors are ignored -----

  // <Inner>; if c; then; fi
  function Forgotten(b: Argv, y: Argv, c: Argv): Prog {
    Seq(Inner(b, y), IfElse(false, c, Empty, None))
  }

  // The two agree on the commands run; the status of the last one may differ.
  ghost predicate SameTrace(st: St, r: Option<Outcome>, m: Option<Signal>, live: bool) {
    && r.Some? && r.value.Finished? && m.Some? && !m.value.Stopped? && r.value.st.trace == m.value.obs.trace
    && r.value.st.live == live && |r.value.st.ie| == |st.ie| && r.value.st.top == 0 && IsOn(r.value.st.ie[0])
    && m.value.obs.said == st.said
  }

  // The `fi` is rejected, but that does not stop the script.
  lemma {:induction false} ForgottenBody(y: Argv, st: St, o: Oracle, fuel: nat)
    requires st.live && IsOn(st.ie[0]) && st.ie[0].state == ItefNormal && st.top == 0 && 1 < |st.ie|
    ensures var p := Seq(BreakIf(y), BreakCmd);
            && SameTrace(st, Eval(p, st, o, true, Some(0), fuel), Meaning(p, ObsOf(st), o, true, true, fuel), false)
            && Meaning(p, ObsOf(st), o, true, true, fuel).value.Broke?
  {
    var p := Seq(BreakIf(y), BreakCmd);
    EvalSeq(p, st, o, true, Some(0), fuel);
    MeaningSeq(p, ObsOf(st), o, true, true, fuel);
    MeaningIf(p.first, ObsOf(st), o, true, true, fuel);
    EvalIf(p.first, st, o, true, Some(0), fuel);
    var st1 := EnterIf(false, y, st, o, Some(0));
    assert Eval(BreakCmd, st1, o, true, Some(0), fuel) ==
           Some(Finished(if IsOn(st1.ie[st1.top]) then st1.(fail := false, err := false, live := false, top := 0)
                         else st1.(err := false)));
  }

  lemma {:induction false} ForgottenLoop(b: Argv, y: Argv, st: St, o: Oracle, fuel: nat)
    requires st.live && IsOn(st.ie[0]) && st.ie[0].state == ItefNormal && st.top == 0 && 1 < |st.ie|
    ensures SameTrace(st, Eval(Inner(b, y), st, o, true, None, fuel),
                      Meaning(Inner(b, y), ObsOf(st), o, true, false, fuel), true)
    ensures Meaning(Inner(b, y), ObsOf(st), o, true, false, fuel).value.Normal?
  {
    hide Eval, Meaning;
    InnerFacts(b, y);
    var p := Inner(b, y);
    EvalLoop(p, st, o, true, None, fuel);
    MeaningLoop(p, ObsOf(st), o, true, false, fuel);
    var st1 := EnterLoop(false, b, st, o);
    if st1.live {
      ForgottenBody(y, st1, o, fuel);
    } else {
      SkippingIsSilentIff(p.body, st1, o, true, Some(0), fuel);
    }
  }

  // An empty `if`: its condition makes the status success.
  lemma {:induction false} EmptyIf(c: Argv, st: St, s: Obs, o: Oracle, fuel: nat)
    requires st.live && IsOn(st.ie[0]) && st.top == 0 && 1 < |st.ie| && st.trace == s.trace
    ensures var p := IfElse(false, c, Empty, None);
            && MeaningShows(Meaning(p, s, o, true, false, fuel), Ran(s, c))
            && EvalShows(Eval(p, st, o, true, None, fuel), Obs(s.trace + [c], false, false, st.said))
  {
    var p := IfElse(false, c, Empty, None);
    EvalIf(p, st, o, true, None, fuel);
    MeaningIf(p, s, o, true, false, fuel);
  }

  lemma {:induction false} ForgottenRun(b: Argv, y: Argv, c: Argv, st: St, o: Oracle, fuel: nat)
    requires st.live && IsOn(st.ie[0]) && st.ie[0].state == ItefNormal && st.top == 0 && 1 < |st.ie|
    ensures var p := Forgotten(b, y, c);
            var r, m := Eval(p, st, o, true, None, fuel), Meaning(p, ObsOf(st), o, true, false, fuel);
            r.Some? && m.Some? && ObsOf(r.value.st).(said := st.said) == m.value.obs
  {
    hide Eval, Meaning, Inner;
    var p := Forgotten(b, y, c);
    EvalSeq(p, st, o, true, None, fuel);
    MeaningSeq(p, ObsOf(st), o, true, false, fuel);
    ForgottenLoop(b, y, st, o, fuel);
    EmptyIf(c, Eval(Inner(b, y), st, o, true, None, fuel).value.st,
            Meaning(Inner(b, y), ObsOf(st), o, true, false, fuel).value.obs, o, fuel);
  }

  // NSH gives `res`, whatever it says.
  ghost predicate GivesBut(env: Env, np: Np, s: Obs, res: Obs) {
    exists said: nat :: MachineGives(env, np, s, res.(said := said))
  }

  /** This script is not faithful, and where errors are ignored it does in every world what it is meant
      to do; only the message about the rejected `fi` tells. */
  lemma {:induction false} OnlyTheMessageTells(env: Env, b: Argv, y: Argv, c: Argv, np: Np, s: Obs, res: Obs)
    requires env.ignore && AtPeace(Forgotten(b, y, c), np, s) && Loaded(env, Forgotten(b, y, c), np, s)
    requires res.said == s.said
    ensures GivesBut(env, np, s, res) <==> Means(env, Forgotten(b, y, c), s, res)
    ensures !Faithful(Forgotten(b, y, c), false, false)
  {
    hide MachineGives, Loaded, Eval, Meaning;
    InnerFacts(b, y);
    var p := Forgotten(b, y, c);
    assert !Faithful(Inner(b, y), false, false) && IfDepth(p) >= 1;
    if said: nat :| MachineGives(env, np, s, res.(said := said)) {
      MachineIsEval(env, p, np, s, res.(said := said));
      var fuel: nat :| EvalShows(Eval(p, Start(np, s), env.o, env.ignore, None, fuel), res.(said := said));
      ForgottenRun(b, y, c, Start(np, s), env.o, fuel);
      assert MeaningShows(Meaning(p, s, env.o, env.ignore, false, fuel), res);
    }
    if fuel: nat :| MeaningShows(Meaning(p, s, env.o, env.ignore, false, fuel), res) {
      ForgottenRun(b, y, c, Start(np, s), env.o, fuel);
      var res' := ObsOf(Eval(p, Start(np, s), env.o, env.ignore, None, fuel).value.st);
      assert EvalShows(Eval(p, Start(np, s), env.o, env.ignore, None, fuel), res') && res' == res.(said := res'.said);
      MachineIsEval(env, p, np, s, res');
    }
  }

  // ----- while a; do b; done, on one line -----

  function OneLine(a: Argv, b: Argv): seq<Cmd> {
    [Cmd(LoopHead(false, a), false), Cmd([Do] + b, false), Cmd([Done], true)]
  }

  // The loop has been entered and its body is enabled.
  function Entered(np: Np): Np
    requires np.lpndx + 1 < |np.lp|
  {
    SetLp(np, np.lpndx + 1, LoopEntry(LoopWhile, true, np.iendx, 0))
    .(jump := None, lpndx := np.lpndx + 1, fail := false)
  }

  lemma HeadRuns(np: Np, a: Argv, o: Oracle, trace: Trace)
    requires IsCondition(a) && Settled(np) && CmdEnabled(np) && np.lpndx + 1 < |np.lp|
    requires !o(trace + [a], np.fail)
    ensures ParseCommand(np.(jump := None), LoopHead(false, a), 0, o, trace) == (Entered(np), trace + [a], true)
  {
    hide Keeps, ParseLoop, AfterLoop;
    var np0 := np.(jump := None);
    LoopHeadPushes(np0, 0, false, a);
    var np1 := ParseLoop(np0, LoopHead(false, a), 0).np;
    assert CmdEnabled(np1);
    LoopCondition(np1, a, o, trace);
    assert SetLp(np1, np1.lpndx, TopLp(np1).(enable := true)).(fail := false) == Entered(np);
  }

  lemma BodyFails(np: Np, b: Argv, o: Oracle, trace: Trace)
    requires IsCommand(b) && Settled(np) && CmdEnabled(np) && np.lpndx + 1 < |np.lp|
    requires o(trace + [b], false)
    ensures var np1 := Entered(np);
            ParseCommand(np1, [Do] + b, 1, o, trace) ==
            (SetLp(np1, np1.lpndx, TopLp(np1).(state := LoopDo)).(fail := true), trace + [b], false)
  {
    hide Keeps;
    var np1 := Entered(np);
    var np2 := SetLp(np1, np1.lpndx, TopLp(np1).(state := LoopDo));
    assert ([Do] + b)[1..] == b;
    assert ParseLoop(np1, [Do] + b, 1) == Parsed(np2, b, None);
    assert ParseItef(np2, b) == Parsed(np2, b, None);
    hide ParseLoop, ParseItef;
  }

  /** When errors are ignored, a command that fails gives up the rest of its line.  A loop on one line
      whose body fails is never closed: its `done` is not read, and the script ends inside the loop. */
  lemma OneLineLoopStaysOpen(env: Env, a: Argv, b: Argv, np: Np, s: Obs) returns (np': Np)
    requires env.ignore && env.script == OneLine(a, b) && IsCondition(a) && IsCommand(b)
    requires Settled(np) && CmdEnabled(np) && np.lpndx + 1 < |np.lp|
    requires !env.o(s.trace + [a], np.fail) && env.o(s.trace + [a] + [b], false)
    ensures Reaches(Stepper(env), Running(np, 0, s.trace, s.err), 3, Halted(np', s.trace + [a] + [b], true))
    ensures np'.lpndx == np.lpndx + 1 && TopLp(np').state == LoopDo
  {
    hide ParseCommand, Reaches, IsCondition, IsCommand, Settled, CmdEnabled;
    var f, c := Stepper(env), Running(np, 0, s.trace, s.err);
    HeadRuns(np, a, env.o, s.trace);
    BodyFails(np, b, env.o, s.trace + [a]);
    var np1 := Entered(np);
    np' := SetLp(np1, np1.lpndx, TopLp(np1).(state := LoopDo)).(fail := true);
    ReachStep(f, c);
    assert Step(env, c) == Running(np1, 1, s.trace + [a], false);
    ReachMore(f, c, 1, Running(np1, 1, s.trace + [a], false));
    assert np1.(jump := None) == np1;
    assert NextLine(env.script, 2) == 3 && NextLine(env.script, 1) == 3;
    assert Step(env, Running(np1, 1, s.trace + [a], false)) == Running(np', 3, s.trace + [a] + [b], true);
    ReachMore(f, c, 2, Running(np', 3, s.trace + [a] + [b], true));
  }
}
