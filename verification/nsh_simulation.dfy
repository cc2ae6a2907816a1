/** The flat machine, one part of a command after the other, does with a structured script what Eval
    says, and runs for ever only if Eval does. */
module NshSimulation {
  import opened Basics
  import opened NshLevels
  import opened NshMachine
  import opened NshParts
  import opened NshStructured

  ghost predicate Fits(parts: seq<Part>, pc: nat, code: seq<Argv>) {
    pc + |code| <= |parts| && forall i | 0 <= i < |code| :: parts[pc + i].toks == code[i]
  }

  // Parts that never end in an error, in a well-formed script: conditions, `then`, `do`, `done`,
  // `break` and empty commands.
  predicate Safe(toks: Argv) {
    toks == [] || IsLoopWord(toks[0]) || toks[0] == If || toks[0] == Then || toks == [Break]
  }

  // Parts that end in an error only if a `break` has taken their `if` away.
  predicate Closes(toks: Argv) {
    toks == [Else] || toks == [Fi]
  }

  // If errors are ignored, nothing follows a command that may fail on its line.
  ghost predicate Layout(env: Env) {
    env.ignore ==> forall i | 0 <= i < |Parts(env.script)| :: LaidOut(env, Parts(env.script)[i])
  }

  ghost predicate LaidOut(env: Env, part: Part) {
    Safe(part.toks) || Closes(part.toks) || Ends(env, part)
  }

  // The same for `else` and `fi`.
  ghost predicate Strict(env: Env) {
    env.ignore ==> forall i | 0 <= i < |Parts(env.script)| && Closes(Parts(env.script)[i].toks) ::
                     Ends(env, Parts(env.script)[i])
  }

  lemma StrictEnds(env: Env, pc: nat)
    requires Strict(env) && env.ignore && pc < |Parts(env.script)| && Closes(Parts(env.script)[pc].toks)
    ensures Ends(env, Parts(env.script)[pc])
  {
  }

  // No `break` of p takes away an `if` that is not its own.
  ghost predicate Level(p: Prog, st: St, mark: Option<nat>) {
    (mark.Some? ==> mark.value <= st.top) && !DeepBreak(p, mark.Some?, mark.Some? && mark.value < st.top)
  }

  // The part is the last of its line.
  predicate Ends(env: Env, part: Part) {
    !part.more && part.at < |env.script| && env.script[part.at].eol
  }

  // The if stack between commands: no entry is waiting for its condition.
  ghost predicate AtRest(ie: seq<Itef>) {
    |ie| > 0 && ie[0].state == ItefNormal && forall k | 0 <= k < |ie| :: ie[k].state != ItefIf
  }

  // np is where the machine stands when Eval is in state st.
  ghost predicate Context(np: Np, st: St, mark: Option<nat>) {
    && np.ie == st.ie && np.iendx == st.top && np.fail == st.fail && np.said == st.said && np.stream && AtRest(np.ie)
    && (if mark.None? then TopLp(np).state == LoopNormal
        else TopLp(np).state == LoopDo && TopLp(np).enable == st.live && TopLp(np).iendx == mark.value)
  }

  // The loop stack is as before, but for the enable bit of the loop being run.
  ghost predicate Moved(np: Np, np': Np) {
    && np'.lpndx == np.lpndx && |np'.lp| == |np.lp|
    && (forall k | 0 <= k < np.lpndx :: np'.lp[k] == np.lp[k])
    && TopLp(np') == TopLp(np).(enable := TopLp(np').enable)
  }

  lemma MovedTrans(np: Np, np1: Np, np2: Np)
    requires Moved(np, np1) && Moved(np1, np2)
    ensures Moved(np, np2)
  {
  }

  function At(r: Outcome, np: Np, pc: nat): Config {
    match r
    case Finished(st) => Running(np, pc, st.trace, st.err)
    case Aborted(st) => Halted(np, st.trace, st.err)
  }

  // Started in np at part pc, the machine reaches outcome r in state np' after n parts.
  ghost predicate Simulated(env: Env, np: Np, pc: nat, st: St, mark: Option<nat>, r: Outcome, n: nat, np': Np,
                            pc': nat) {
    && Reaches(PartStepper(env), Running(np, pc, st.trace, st.err), n, At(r, np', pc'))
    && np'.fail == r.st.fail && np'.said == r.st.said
    && (r.Finished? ==> Context(np', r.st, mark) && Moved(np, np'))
  }

  lemma SimTrans(env: Env, np: Np, pc: nat, st: St, mark: Option<nat>, st1: St, m: nat, np1: Np, pc1: nat,
                 r: Outcome, n: nat, np2: Np, pc2: nat)
    requires Simulated(env, np, pc, st, mark, Finished(st1), m, np1, pc1)
    requires Simulated(env, np1, pc1, st1, mark, r, n, np2, pc2)
    ensures Simulated(env, np, pc, st, mark, r, m + n, np2, pc2)
  {
    hide Reaches, Context, Moved;
    ReachTrans(PartStepper(env), Running(np, pc, st.trace, st.err), m, Running(np1, pc1, st1.trace, st1.err),
               n, At(r, np2, pc2));
    if r.Finished? {
      MovedTrans(np, np1, np2);
    }
  }

  // ----- Where the commands stand -----

  lemma FitsSplit(parts: seq<Part>, pc: nat, a: seq<Argv>, b: seq<Argv>)
    requires Fits(parts, pc, a + b)
    ensures Fits(parts, pc, a) && Fits(parts, pc + |a|, b)
  {
    forall i | 0 <= i < |a| ensures parts[pc + i].toks == a[i] {
      assert (a + b)[i] == a[i];
    }
    forall i | 0 <= i < |b| ensures parts[pc + |a| + i].toks == b[i] {
      assert (a + b)[|a| + i] == b[i];
      assert parts[pc + (|a| + i)].toks == b[i];
    }
  }

  lemma FitsAt(parts: seq<Part>, pc: nat, code: seq<Argv>, i: nat)
    requires Fits(parts, pc, code) && i < |code|
    ensures pc + i < |parts| && parts[pc + i].toks == code[i]
  {
  }

  lemma {:induction false} FitsIf(parts: seq<Part>, pc: nat, p: Prog)
    requires p.IfElse? && Fits(parts, pc, Flatten(p))
    ensures Fits(parts, pc, [IfHead(p.inverted, p.cond), [Then]])
    ensures Fits(parts, pc + 2, Flatten(p.thn))
    ensures var q := pc + 2 + |Flatten(p.thn)|;
            if p.els.None? then
              |Flatten(p)| == 3 + |Flatten(p.thn)| && Fits(parts, q, [[Fi]])
            else
              && |Flatten(p)| == 4 + |Flatten(p.thn)| + |Flatten(p.els.value)|
              && Fits(parts, q, [[Else]]) && Fits(parts, q + 1, Flatten(p.els.value))
              && Fits(parts, q + 1 + |Flatten(p.els.value)|, [[Fi]])
  {
    hide Fits;
    var head, thn, els := [IfHead(p.inverted, p.cond), [Then]], Flatten(p.thn), FlattenElse(p.els);
    assert Flatten(p) == head + (thn + (els + [[Fi]]));
    FitsSplit(parts, pc, head, thn + (els + [[Fi]]));
    FitsSplit(parts, pc + 2, thn, els + [[Fi]]);
    FitsSplit(parts, pc + 2 + |thn|, els, [[Fi]]);
    if p.els.Some? {
      FitsSplit(parts, pc + 2 + |thn|, [[Else]], Flatten(p.els.value));
    }
  }

  lemma {:induction false} FitsLoop(parts: seq<Part>, pc: nat, p: Prog)
    requires p.Loop? && Fits(parts, pc, Flatten(p))
    ensures Fits(parts, pc, [LoopHead(p.until, p.cond), [Do]])
    ensures Fits(parts, pc + 2, Flatten(p.body))
    ensures |Flatten(p)| == 3 + |Flatten(p.body)| && Fits(parts, pc + 2 + |Flatten(p.body)|, [[Done]])
  {
    hide Fits;
    var head, body := [LoopHead(p.until, p.cond), [Do]], Flatten(p.body);
    assert Flatten(p) == head + (body + [[Done]]);
    FitsSplit(parts, pc, head, body + [[Done]]);
    FitsSplit(parts, pc + 2, body, [[Done]]);
  }

  // A part that is not one of the words that open something is the last of its command.
  lemma LastPart(env: Env, pc: nat)
    requires pc < |Parts(env.script)|
    ensures var part := Parts(env.script)[pc]; part.more ==> |part.toks| == 1 && Opens(part.toks[0])
  {
    hide Where, Parts;
    PartInPlace(env.script, pc);
  }

  // Behind a part that ends its line the next line begins.
  lemma {:induction false} LinePart(env: Env, pc: nat)
    requires pc < |Parts(env.script)| && Ends(env, Parts(env.script)[pc])
    ensures Where(env.script, NextLine(env.script, Parts(env.script)[pc].at)) == pc + 1
  {
    hide Where, Parts;
    PartInPlace(env.script, pc);
  }

  // ----- One part after the other -----

  // Nothing is being waited for.
  ghost predicate Settled(np: Np) {
    np.stream && TopIe(np).state != ItefIf && !AwaitsDo(np)
  }

  // The outcome of a part that leaves no jump.  A word that opens something may be rejected only if
  // that ends the run.
  lemma PartDone(env: Env, np: Np, pc: nat, trace: Trace, err: bool, out: (Np, Trace, bool))
    requires pc < |Parts(env.script)| && out.0.jump == None
    requires var part := Parts(env.script)[pc];
             && out == ParseCommand(np.(jump := None), part.toks, part.at, env.o, trace)
             && (env.ignore && !out.2 ==> Ends(env, part))
             && (part.more && out.2 ==> ErrorFree(np.(jump := None), part.toks, part.at))
    ensures PartStep(env, Running(np, pc, trace, err)) ==
            if !out.2 && !env.ignore then Halted(out.0, out.1, true) else Running(out.0, pc + 1, out.1, !out.2)
  {
    hide ParseCommand, ErrorFree, Parts, Where;
    if env.ignore && !out.2 {
      LinePart(env, pc);
    }
  }

  lemma PartSimple(env: Env, np: Np, pc: nat, trace: Trace, err: bool, argv: Argv)
    requires pc < |Parts(env.script)| && Parts(env.script)[pc].toks == argv && Layout(env) && Settled(np)
    requires argv == [] || IsCommand(argv)
    ensures var failed := env.o(trace + [argv], np.fail);
            PartStep(env, Running(np, pc, trace, err)) ==
            if argv == [] || !CmdEnabled(np) then
              Running(np.(jump := None), pc + 1, trace, false)
            else if failed && !env.ignore then
              Halted(np.(jump := None, fail := true), trace + [argv], true)
            else
              Running(np.(jump := None, fail := failed), pc + 1, trace + [argv], failed)
  {
    hide Keeps, Parts, Where, PartStep;
    LastPart(env, pc);
    var np0, part := np.(jump := None), Parts(env.script)[pc];
    assert env.ignore && argv != [] ==> LaidOut(env, part) && !Safe(part.toks);
    assert ParseLoop(np0, argv, part.at) == Parsed(np0, argv, None);
    assert ParseItef(np0, argv) == Parsed(np0, argv, None);
    hide ParseLoop, ParseItef;
    PartDone(env, np, pc, trace, err, ParseCommand(np0, argv, part.at, env.o, trace));
  }

  lemma PartBreak(env: Env, np: Np, pc: nat, trace: Trace, err: bool)
    requires pc < |Parts(env.script)| && Parts(env.script)[pc].toks == [Break] && Settled(np)
    requires np.ie[TopLp(np).iendx].state != ItefIf
    ensures PartStep(env, Running(np, pc, trace, err)) ==
            Running(if !CmdEnabled(np) then np.(jump := None)
                    else if TopLp(np).state != LoopDo then np.(jump := None, fail := false)
                    else SetLp(np, np.lpndx, TopLp(np).(enable := false))
                         .(jump := None, fail := false, iendx := TopLp(np).iendx),
                    pc + 1, trace, false)
  {
    hide Keeps, Parts, Where, Layout, PartStep;
    LastPart(env, pc);
    var np0, part := np.(jump := None), Parts(env.script)[pc];
    assert ParseLoop(np0, [Break], part.at) == Parsed(np0, [Break], None);
    assert ParseItef(np0, [Break]) == Parsed(np0, [Break], None);
    hide ParseLoop, ParseItef;
    PartDone(env, np, pc, trace, err, ParseCommand(np0, [Break], part.at, env.o, trace));
  }

  lemma IfHeadPushes(np: Np, inverted: bool, cond: Argv)
    requires Settled(np) && IsCondition(cond) && np.iendx + 1 < |np.ie|
    ensures ParseItef(np, IfHead(inverted, cond)) ==
            Parsed(SetIe(np, np.iendx + 1, Itef(false, !CmdEnabled(np), inverted, ItefIf))
                   .(iendx := np.iendx + 1), cond, None)
  {
    hide Keeps;
    var toks := IfHead(inverted, cond);
    assert (if inverted then toks[2..] else toks[1..]) == cond;
  }

  lemma LoopHeadPushes(np: Np, at: nat, until: bool, cond: Argv)
    requires Settled(np) && IsCondition(cond) && np.lpndx + 1 < |np.lp| && np.jump == None
    ensures ParseLoop(np, LoopHead(until, cond), at) ==
            Parsed(SetLp(np, np.lpndx + 1,
                         LoopEntry(if until then LoopUntil else LoopWhile, CmdEnabled(np), np.iendx, at))
                   .(lpndx := np.lpndx + 1), cond, None)
  {
    hide Keeps;
    assert LoopHead(until, cond)[1..] == cond;
  }

  // A condition runs, if commands are enabled, and its result goes to the stack that waits for it.
  lemma IfCondition(np: Np, cond: Argv, o: Oracle, trace: Trace)
    requires TopIe(np).state == ItefIf && !AwaitsDo(np) && IsCondition(cond)
    ensures AfterItef(Parsed(np, cond, None), o, trace) ==
            if CmdEnabled(np) then
              var ifcond := TopIe(np).inverted != o(trace + [cond], np.fail);
              (SetIe(np, np.iendx, TopIe(np).(ifcond := ifcond)).(fail := false), trace + [cond], true)
            else (np, trace, true)
  {
    hide Keeps;
  }

  lemma LoopCondition(np: Np, cond: Argv, o: Oracle, trace: Trace)
    requires AwaitsDo(np) && TopIe(np).state != ItefIf && IsCondition(cond)
    ensures AfterLoop(Parsed(np, cond, None), o, trace) ==
            if CmdEnabled(np) then
              var enable := o(trace + [cond], np.fail) == (TopLp(np).state == LoopUntil);
              (SetLp(np, np.lpndx, TopLp(np).(enable := enable)).(fail := false), trace + [cond], true)
            else (np, trace, true)
  {
    hide Keeps;
    assert ParseItef(np, cond) == Parsed(np, cond, None);
    hide ParseItef;
  }

  lemma PartIf(env: Env, np: Np, pc: nat, trace: Trace, err: bool, inverted: bool, cond: Argv)
    requires pc < |Parts(env.script)| && Parts(env.script)[pc].toks == IfHead(inverted, cond)
    requires Settled(np) && IsCondition(cond) && np.iendx + 1 < |np.ie|
    ensures var on := CmdEnabled(np);
            var trace' := if on then trace + [cond] else trace;
            var entry := Itef(on && inverted != env.o(trace', np.fail), !on, inverted, ItefIf);
            PartStep(env, Running(np, pc, trace, err)) ==
            Running(SetIe(np, np.iendx + 1, entry)
                    .(jump := None, iendx := np.iendx + 1, fail := np.fail && !on), pc + 1, trace', false)
  {
    hide Keeps, AfterItef, Parts, Where, Layout, PartStep;
    LastPart(env, pc);
    var np0, part, toks := np.(jump := None), Parts(env.script)[pc], IfHead(inverted, cond);
    assert ParseLoop(np0, toks, part.at) == Parsed(np0, toks, None);
    IfHeadPushes(np0, inverted, cond);
    hide ParseLoop, ParseItef;
    var np1 := ParseItef(np0, toks).np;
    IfCondition(np1, cond, env.o, trace);
    assert CmdEnabled(np1) == CmdEnabled(np);
    PartDone(env, np, pc, trace, err, ParseCommand(np0, toks, part.at, env.o, trace));
  }

  lemma PartThen(env: Env, np: Np, pc: nat, trace: Trace, err: bool)
    requires pc < |Parts(env.script)| && Parts(env.script)[pc].toks == [Then]
    requires TopIe(np).state == ItefIf && !AwaitsDo(np)
    ensures PartStep(env, Running(np, pc, trace, err)) ==
            Running(SetIe(np, np.iendx, TopIe(np).(state := ItefThen)).(jump := None), pc + 1, trace, false)
  {
    hide Keeps, Parts, Where, Layout, PartStep;
    var np0, part := np.(jump := None), Parts(env.script)[pc];
    assert ParseLoop(np0, [Then], part.at) == Parsed(np0, [Then], None);
    assert ParseItef(np0, [Then]) == Parsed(SetIe(np0, np0.iendx, TopIe(np0).(state := ItefThen)), [], None);
    hide ParseLoop, ParseItef;
    PartDone(env, np, pc, trace, err, ParseCommand(np0, [Then], part.at, env.o, trace));
  }

  // What a rejected word leaves.
  function Emptied(np: Np): Np {
    SetIe(np, 0, Itef(false, false, false, ItefNormal)).(jump := None, iendx := 0, fail := true, said := np.said + 1)
  }

  lemma PartElse(env: Env, np: Np, pc: nat, trace: Trace, err: bool)
    requires pc < |Parts(env.script)| && Parts(env.script)[pc].toks == [Else] && !AwaitsDo(np)
    requires env.ignore && TopIe(np).state != ItefThen ==> Ends(env, Parts(env.script)[pc])
    ensures PartStep(env, Running(np, pc, trace, err)) ==
            if TopIe(np).state == ItefThen then
              Running(SetIe(np, np.iendx, TopIe(np).(state := ItefElse)).(jump := None), pc + 1, trace, false)
            else if env.ignore then Running(Emptied(np), pc + 1, trace, true)
            else Halted(Emptied(np), trace, true)
  {
    hide Keeps, Parts, Where, Layout;
    LastPart(env, pc);
    var np0, part := np.(jump := None), Parts(env.script)[pc];
    assert ParseLoop(np0, [Else], part.at) == Parsed(np0, [Else], None);
    var itef := ParseItef(np0, [Else]);
    if TopIe(np).state == ItefThen {
      assert itef == Parsed(SetIe(np0, np0.iendx, TopIe(np0).(state := ItefElse)), [], None);
    } else {
      assert itef == ItefError(np0, [], BadContext);
      assert SaveResult(itef.np, true) == (Emptied(np), false);
    }
    hide ParseLoop, ParseItef;
    PartDone(env, np, pc, trace, err, ParseCommand(np0, [Else], part.at, env.o, trace));
  }

  lemma PartFi(env: Env, np: Np, pc: nat, trace: Trace, err: bool)
    requires pc < |Parts(env.script)| && Parts(env.script)[pc].toks == [Fi] && !AwaitsDo(np)
    requires np.ie[0].state == ItefNormal
    requires env.ignore && TopIe(np).state !in {ItefThen, ItefElse} ==> Ends(env, Parts(env.script)[pc])
    ensures PartStep(env, Running(np, pc, trace, err)) ==
            if TopIe(np).state in {ItefThen, ItefElse} then
              Running(np.(jump := None, iendx := np.iendx - 1), pc + 1, trace, false)
            else if env.ignore then Running(Emptied(np), pc + 1, trace, true)
            else Halted(Emptied(np), trace, true)
  {
    hide Keeps, Parts, Where, Layout;
    LastPart(env, pc);
    var np0, part := np.(jump := None), Parts(env.script)[pc];
    assert ParseLoop(np0, [Fi], part.at) == Parsed(np0, [Fi], None);
    var itef := ParseItef(np0, [Fi]);
    if TopIe(np).state in {ItefThen, ItefElse} {
      assert itef == Parsed(np0.(iendx := np0.iendx - 1), [], None);
    } else {
      assert itef == ItefError(np0, [], BadContext);
      assert SaveResult(itef.np, true) == (Emptied(np), false);
    }
    hide ParseLoop, ParseItef;
    PartDone(env, np, pc, trace, err, ParseCommand(np0, [Fi], part.at, env.o, trace));
  }

  // The condition runs unless an `if` suppresses it: a disabled enclosing loop does not.
  lemma PartLoopHead(env: Env, np: Np, pc: nat, trace: Trace, err: bool, until: bool, cond: Argv)
    requires pc < |Parts(env.script)| && Parts(env.script)[pc].toks == LoopHead(until, cond)
    requires Settled(np) && IsCondition(cond) && np.lpndx + 1 < |np.lp|
    ensures var on := ItefEnabled(np);
            var trace' := if on then trace + [cond] else trace;
            var entry := LoopEntry(if until then LoopUntil else LoopWhile,
                                   on && env.o(trace', np.fail) == until, np.iendx, Parts(env.script)[pc].at);
            PartStep(env, Running(np, pc, trace, err)) ==
            Running(SetLp(np, np.lpndx + 1, entry)
                    .(jump := None, lpndx := np.lpndx + 1, fail := np.fail && !on), pc + 1, trace', false)
  {
    hide Keeps, ParseLoop, AfterLoop, Parts, Where, Layout, PartStep;
    LastPart(env, pc);
    var np0, part, toks := np.(jump := None), Parts(env.script)[pc], LoopHead(until, cond);
    LoopHeadPushes(np0, part.at, until, cond);
    var np1 := ParseLoop(np0, toks, part.at).np;
    LoopCondition(np1, cond, env.o, trace);
    assert CmdEnabled(np1) == ItefEnabled(np);
    PartDone(env, np, pc, trace, err, ParseCommand(np0, toks, part.at, env.o, trace));
  }

  lemma PartDo(env: Env, np: Np, pc: nat, trace: Trace, err: bool)
    requires pc < |Parts(env.script)| && Parts(env.script)[pc].toks == [Do] && AwaitsDo(np)
    ensures PartStep(env, Running(np, pc, trace, err)) ==
            Running(SetLp(np, np.lpndx, TopLp(np).(state := LoopDo)).(jump := None), pc + 1, trace, false)
  {
    hide Keeps, Parts, Where, Layout, PartStep;
    var np0, part := np.(jump := None), Parts(env.script)[pc];
    assert ParseLoop(np0, [Do], part.at) == Parsed(SetLp(np0, np0.lpndx, TopLp(np0).(state := LoopDo)), [], None);
    hide ParseLoop;
    PartDone(env, np, pc, trace, err, ParseCommand(np0, [Do], part.at, env.o, trace));
  }

  lemma PartDoneWord(env: Env, np: Np, pc: nat, trace: Trace, err: bool)
    requires pc < |Parts(env.script)| && Parts(env.script)[pc].toks == [Done]
    requires TopLp(np).state == LoopDo && np.lpndx > 0
    ensures var popped := SetLp(np, np.lpndx, TopLp(np).(state := LoopNormal, enable := true))
                          .(lpndx := np.lpndx - 1);
            PartStep(env, Running(np, pc, trace, err)) ==
            if TopLp(np).enable then
              Running(popped.(jump := Some(TopLp(np).topoffs)), Where(env.script, TopLp(np).topoffs), trace, false)
            else
              Running(popped.(jump := None), pc + 1, trace, false)
  {
    hide Keeps, Parts, Where, Layout;
    LastPart(env, pc);
    var np0, part := np.(jump := None), Parts(env.script)[pc];
    assert ParseLoop(np0, [Done], part.at) == Parsed(PopLoop(np0), [], None);
    hide ParseLoop;
  }

  // ----- The machine does what Eval says -----

  lemma ContextSettled(np: Np, st: St, mark: Option<nat>)
    requires Context(np, st, mark)
    ensures Settled(np) && np.ie[0].state == ItefNormal && (CmdEnabled(np) <==> Enabled(st, mark))
    ensures (ItefEnabled(np) <==> IsOn(st.ie[st.top])) && np.ie[TopLp(np).iendx].state != ItefIf
  {
  }

  // What is run and its status leave the stacks alone.
  lemma StatusContext(np: Np, st: St, mark: Option<nat>, trace: Trace, fail: bool, err: bool)
    requires Context(np, st, mark)
    ensures var np' := np.(jump := None, fail := fail);
            Context(np', st.(trace := trace, fail := fail, err := err), mark) && Moved(np, np')
  {
  }

  lemma {:induction false} SimulateSimple(env: Env, p: Prog, st: St, mark: Option<nat>, fuel: nat, np: Np, pc: nat)
    returns (np': Np)
    requires p.Simple? && WellFormed(p) && Fits(Parts(env.script), pc, Flatten(p)) && Layout(env) &&
             Context(np, st, mark)
    requires mark.Some? ==> mark.value < |st.ie|
    ensures Simulated(env, np, pc, st, mark, Eval(p, st, env.o, env.ignore, mark, fuel).value, 1, np', pc + 1)
  {
    hide Reaches, Keeps, PartStep, Fits, Layout, Parts, CmdEnabled, Enabled, AtRest, Moved;
    FitsAt(Parts(env.script), pc, [p.argv], 0);
    ContextSettled(np, st, mark);
    var c := Running(np, pc, st.trace, st.err);
    ReachStep(PartStepper(env), c);
    PartSimple(env, np, pc, st.trace, st.err, p.argv);
    np' := PartStep(env, c).np;
    var e := Eval(p, st, env.o, env.ignore, mark, fuel).value.st;
    StatusContext(np, st, mark, e.trace, e.fail, e.err);
    assert np.(jump := None, fail := np.fail) == np.(jump := None);
  }

  lemma {:induction false} SimulateBreak(env: Env, p: Prog, st: St, mark: Option<nat>, fuel: nat, np: Np, pc: nat)
    returns (np': Np)
    requires p.BreakCmd? && Fits(Parts(env.script), pc, Flatten(p)) && Context(np, st, mark)
    requires mark.Some? ==> mark.value < |st.ie|
    ensures Simulated(env, np, pc, st, mark, Eval(p, st, env.o, env.ignore, mark, fuel).value, 1, np', pc + 1)
  {
    hide Reaches, Keeps, PartStep, Fits, Layout, Parts, CmdEnabled, Enabled;
    FitsAt(Parts(env.script), pc, [[Break]], 0);
    ContextSettled(np, st, mark);
    var c := Running(np, pc, st.trace, st.err);
    ReachStep(PartStepper(env), c);
    PartBreak(env, np, pc, st.trace, st.err);
    np' := PartStep(env, c).np;
  }

  // `if cond` and `then`.
  lemma IfPrologue(env: Env, p: Prog, np: Np, pc: nat, trace: Trace, err: bool)
    requires p.IfElse? && IsCondition(p.cond) && Fits(Parts(env.script), pc, [IfHead(p.inverted, p.cond), [Then]])
    requires Settled(np) && np.iendx + 1 < |np.ie|
    ensures var on := CmdEnabled(np);
            var trace' := if on then trace + [p.cond] else trace;
            var entry := Itef(on && p.inverted != env.o(trace', np.fail), !on, p.inverted, ItefThen);
            var np1 := SetIe(np, np.iendx + 1, entry).(jump := None, iendx := np.iendx + 1, fail := np.fail && !on);
            Reaches(PartStepper(env), Running(np, pc, trace, err), 2, Running(np1, pc + 2, trace', false))
  {
    hide Reaches, Keeps, PartStep, Fits, Layout, Parts, CmdEnabled;
    FitsAt(Parts(env.script), pc, [IfHead(p.inverted, p.cond), [Then]], 0);
    FitsAt(Parts(env.script), pc, [IfHead(p.inverted, p.cond), [Then]], 1);
    var c, f := Running(np, pc, trace, err), PartStepper(env);
    PartIf(env, np, pc, trace, err, p.inverted, p.cond);
    ReachStep(f, c);
    var c1 := PartStep(env, c);
    PartThen(env, c1.np, pc + 1, c1.trace, false);
    ReachMore(f, c, 1, c1);
    var i := np.iendx + 1;
    assert c1.np.ie[i := c1.np.ie[i].(state := ItefThen)] == np.ie[i := c1.np.ie[i].(state := ItefThen)];
  }

  lemma SimulateEnterIf(env: Env, p: Prog, st: St, mark: Option<nat>, np: Np, pc: nat) returns (np': Np)
    requires p.IfElse? && IsCondition(p.cond) && Fits(Parts(env.script), pc, [IfHead(p.inverted, p.cond), [Then]])
    requires Context(np, st, mark) && st.top + 1 < |st.ie|
    ensures Simulated(env, np, pc, st, mark, Finished(EnterIf(p.inverted, p.cond, st, env.o, mark)), 2, np', pc + 2)
  {
    hide Reaches, Keeps, PartStep, Fits, Layout, Parts, CmdEnabled, Enabled;
    ContextSettled(np, st, mark);
    IfPrologue(env, p, np, pc, st.trace, st.err);
    var st1 := EnterIf(p.inverted, p.cond, st, env.o, mark);
    np' := SetIe(np, np.iendx + 1, st1.ie[st1.top])
           .(jump := None, iendx := np.iendx + 1, fail := np.fail && !CmdEnabled(np));
  }

  // The states after `else` and `fi`.
  lemma ElseContext(np: Np, st: St, mark: Option<nat>, ignore: bool)
    requires Context(np, st, mark)
    ensures var st' := AtElse(st, ignore).st;
            var np' := if TopIe(np).state == ItefThen then
                         SetIe(np, np.iendx, TopIe(np).(state := ItefElse)).(jump := None)
                       else Emptied(np);
            Context(np', st', mark) && Moved(np, np') && st'.trace == st.trace
  {
  }

  lemma FiContext(np: Np, st: St, mark: Option<nat>, ignore: bool)
    requires Context(np, st, mark)
    ensures var st' := AtFi(st, ignore).st;
            var np' := if TopIe(np).state in {ItefThen, ItefElse} then np.(jump := None, iendx := np.iendx - 1)
                       else Emptied(np);
            Context(np', st', mark) && Moved(np, np') && st'.trace == st.trace
  {
  }

  lemma SimulateElse(env: Env, st: St, mark: Option<nat>, np: Np, pc: nat) returns (np': Np)
    requires Fits(Parts(env.script), pc, [[Else]]) && Context(np, st, mark)
    requires Strict(env) || st.ie[st.top].state == ItefThen
    ensures Simulated(env, np, pc, st, mark, AtElse(st, env.ignore), 1, np', pc + 1)
  {
    hide Reaches, Keeps, PartStep, Fits, Layout, Strict, Ends, Parts, CmdEnabled, Enabled, AtRest, SetIe, Emptied,
      Moved;
    FitsAt(Parts(env.script), pc, [[Else]], 0);
    if Strict(env) && env.ignore {
      StrictEnds(env, pc);
    }
    ContextSettled(np, st, mark);
    var c := Running(np, pc, st.trace, st.err);
    ReachStep(PartStepper(env), c);
    PartElse(env, np, pc, st.trace, st.err);
    np' := PartStep(env, c).np;
    ElseContext(np, st, mark, env.ignore);
  }

  lemma SimulateFi(env: Env, st: St, mark: Option<nat>, np: Np, pc: nat) returns (np': Np)
    requires Fits(Parts(env.script), pc, [[Fi]]) && Context(np, st, mark)
    requires Strict(env) || st.ie[st.top].state in {ItefThen, ItefElse}
    ensures Simulated(env, np, pc, st, mark, AtFi(st, env.ignore), 1, np', pc + 1)
  {
    hide Reaches, Keeps, PartStep, Fits, Layout, Strict, Ends, Parts, CmdEnabled, Enabled, AtRest, Emptied, Moved;
    FitsAt(Parts(env.script), pc, [[Fi]], 0);
    if Strict(env) && env.ignore {
      StrictEnds(env, pc);
    }
    ContextSettled(np, st, mark);
    var c := Running(np, pc, st.trace, st.err);
    ReachStep(PartStepper(env), c);
    PartFi(env, np, pc, st.trace, st.err);
    np' := PartStep(env, c).np;
    FiContext(np, st, mark, env.ignore);
  }

  // What Simulate asks for.
  ghost predicate Ready(env: Env, p: Prog, st: St, mark: Option<nat>, np: Np, pc: nat) {
    && WellFormed(p) && Fits(Parts(env.script), pc, Flatten(p)) && Layout(env) && (Strict(env) || Level(p, st, mark))
    && Context(np, st, mark) && (mark.Some? ==> mark.value < |st.ie|) && np.lpndx + LoopDepth(p) < |np.lp|
  }

  lemma {:induction false} ReadySeq(env: Env, p: Prog, st: St, mark: Option<nat>, np: Np, pc: nat)
    requires p.Seq? && Ready(env, p, st, mark, np, pc)
    ensures Ready(env, p.first, st, mark, np, pc)
    ensures |Flatten(p)| == |Flatten(p.first)| + |Flatten(p.rest)|
  {
    hide Fits, Context, Layout;
    FitsSplit(Parts(env.script), pc, Flatten(p.first), Flatten(p.rest));
  }

  lemma {:induction false} ReadyRest(env: Env, p: Prog, st: St, mark: Option<nat>, np: Np, pc: nat, st1: St, np1: Np)
    requires p.Seq? && Ready(env, p, st, mark, np, pc) && |st1.ie| == |st.ie|
    requires Context(np1, st1, mark) && Moved(np, np1) && (Strict(env) || st1.top == st.top)
    ensures Ready(env, p.rest, st1, mark, np1, pc + |Flatten(p.first)|)
  {
    hide Fits, Context, Layout;
    FitsSplit(Parts(env.script), pc, Flatten(p.first), Flatten(p.rest));
  }

  // A part of the script without such a `break` leaves the stack as it was.
  lemma {:induction false} LevelKeeps(p: Prog, st: St, o: Oracle, ignore: bool, mark: Option<nat>, fuel: nat)
    requires Level(p, st, mark) && (mark.Some? ==> mark.value < |st.ie|)
    ensures Keeping(st, Eval(p, st, o, ignore, mark, fuel))
  {
    StaysLevel(p, st, o, ignore, mark, mark.Some? && mark.value < st.top, fuel);
  }

  // The same for the branches of an `if`.
  lemma {:induction false} LevelBranches(p: Prog, st: St, st1: St, mark: Option<nat>)
    requires p.IfElse? && Level(p, st, mark) && st1.top == st.top + 1
    ensures Level(p.thn, st1, mark) && (p.els.Some? ==> Level(p.els.value, st1, mark))
  {
    if mark.None? {
      ShallowBranches(p.thn, false);
      if p.els.Some? {
        ShallowBranches(p.els.value, false);
      }
    }
  }

  // st2 ends the then branch of p, and its `if` is still there.
  ghost predicate OwnIf(env: Env, p: Prog, st: St, mark: Option<nat>, st2: St)
    requires p.IfElse? && st.top + 1 < |st.ie|
  {
    Strict(env) || (Level(p, st, mark) && Kept(EnterIf(p.inverted, p.cond, st, env.o, mark), st2))
  }

  lemma {:induction false} Simulate(env: Env, p: Prog, st: St, mark: Option<nat>, fuel: nat, np: Np, pc: nat)
    returns (n: nat, np': Np)
    requires Ready(env, p, st, mark, np, pc) && Eval(p, st, env.o, env.ignore, mark, fuel).Some?
    ensures Simulated(env, np, pc, st, mark, Eval(p, st, env.o, env.ignore, mark, fuel).value, n, np',
                      pc + |Flatten(p)|)
    decreases fuel, p, 1
  {
    hide Reaches, Fits, Context, Layout, Simulated;
    match p {
      case Empty =>
        n, np' := 0, np;
        SimulateNothing(env, st, mark, np, pc);
      case Seq(_, _) =>
        n, np' := SimulateSeq(env, p, st, mark, fuel, np, pc);
      case Simple(_) =>
        n := 1;
        np' := SimulateSimple(env, p, st, mark, fuel, np, pc);
      case BreakCmd =>
        n := 1;
        np' := SimulateBreak(env, p, st, mark, fuel, np, pc);
      case IfElse(_, _, _, _) =>
        n, np' := SimulateIf(env, p, st, mark, fuel, np, pc);
      case Loop(_, _, _) =>
        n, np' := SimulateLoop(env, p, st, mark, fuel, np, pc);
    }
  }

  lemma SimulateNothing(env: Env, st: St, mark: Option<nat>, np: Np, pc: nat)
    requires Context(np, st, mark)
    ensures Simulated(env, np, pc, st, mark, Finished(st), 0, np, pc)
  {
    hide Reaches;
    ReachNone(PartStepper(env), Running(np, pc, st.trace, st.err));
  }

  lemma {:induction false} SimulateSeq(env: Env, p: Prog, st: St, mark: Option<nat>, fuel: nat, np: Np, pc: nat)
    returns (n: nat, np': Np)
    requires p.Seq? && Ready(env, p, st, mark, np, pc) && Eval(p, st, env.o, env.ignore, mark, fuel).Some?
    ensures Simulated(env, np, pc, st, mark, Eval(p, st, env.o, env.ignore, mark, fuel).value, n, np',
                      pc + |Flatten(p)|)
    decreases fuel, p, 0
  {
    hide Reaches, Context, Moved, Fits, Layout, Strict, Level, Flatten, Eval;
    EvalSeq(p, st, env.o, env.ignore, mark, fuel);
    ReadySeq(env, p, st, mark, np, pc);
    n, np' := Simulate(env, p.first, st, mark, fuel, np, pc);
    var r1 := Eval(p.first, st, env.o, env.ignore, mark, fuel).value;
    if r1.Finished? {
      var n1, np1 := n, np';
      if !Strict(env) {
        LevelKeeps(p.first, st, env.o, env.ignore, mark, fuel);
      }
      ReadyRest(env, p, st, mark, np, pc, r1.st, np1);
      var n2;
      n2, np' := Simulate(env, p.rest, r1.st, mark, fuel, np1, pc + |Flatten(p.first)|);
      n := n1 + n2;
      SimTrans(env, np, pc, st, mark, r1.st, n1, np1, pc + |Flatten(p.first)|,
               Eval(p.rest, r1.st, env.o, env.ignore, mark, fuel).value, n2, np', pc + |Flatten(p)|);
    }
  }

  // Where the then branch begins.
  lemma TakeThen(env: Env, p: Prog, st: St, mark: Option<nat>, np: Np, pc: nat) returns (np1: Np)
    requires p.IfElse? && Ready(env, p, st, mark, np, pc) && st.top + 1 < |st.ie|
    ensures var st1 := EnterIf(p.inverted, p.cond, st, env.o, mark);
            && Simulated(env, np, pc, st, mark, Finished(st1), 2, np1, pc + 2)
            && Ready(env, p.thn, st1, mark, np1, pc + 2)
  {
    hide Reaches, Fits, Context, Layout, Strict, Level;
    FitsIf(Parts(env.script), pc, p);
    if !Strict(env) {
      LevelBranches(p, st, EnterIf(p.inverted, p.cond, st, env.o, mark), mark);
    }
    np1 := SimulateEnterIf(env, p, st, mark, np, pc);
  }

  lemma {:induction false} SimulateIf(env: Env, p: Prog, st: St, mark: Option<nat>, fuel: nat, np: Np, pc: nat)
    returns (n: nat, np': Np)
    requires p.IfElse? && Ready(env, p, st, mark, np, pc) && Eval(p, st, env.o, env.ignore, mark, fuel).Some?
    ensures Simulated(env, np, pc, st, mark, Eval(p, st, env.o, env.ignore, mark, fuel).value, n, np',
                      pc + |Flatten(p)|)
    decreases fuel, p, 0
  {
    hide Reaches, Context, Moved, Eval, EnterIf, Fits, Layout, Strict, Level, Close, Simulated;
    EvalIf(p, st, env.o, env.ignore, mark, fuel);
    var st1, k := EnterIf(p.inverted, p.cond, st, env.o, mark), |Flatten(p.thn)|;
    var np1 := TakeThen(env, p, st, mark, np, pc);
    var n1, np2 := Simulate(env, p.thn, st1, mark, fuel, np1, pc + 2);
    var r := Eval(p.thn, st1, env.o, env.ignore, mark, fuel).value;
    SimTrans(env, np, pc, st, mark, st1, 2, np1, pc + 2, r, n1, np2, pc + 2 + k);
    n, np' := 2 + n1, np2;
    if r.Aborted? {
      AbortedAnywhere(env, np, pc, st, mark, r, n, np', pc + 2 + k, pc + |Flatten(p)|);
    } else {
      if !Strict(env) {
        LevelKeeps(p.thn, st1, env.o, env.ignore, mark, fuel);
      }
      var n2;
      n2, np' := SimulateClose(env, p, st, mark, fuel, np, pc, r.st, np2, n);
      n := n2;
    }
  }

  // Where a script stops does not matter.
  lemma AbortedAnywhere(env: Env, np: Np, pc: nat, st: St, mark: Option<nat>, r: Outcome, n: nat, np': Np,
                        pc1: nat, pc2: nat)
    requires Simulated(env, np, pc, st, mark, r, n, np', pc1) && r.Aborted?
    ensures Simulated(env, np, pc, st, mark, r, n, np', pc2)
  {
    hide Reaches;
  }

  // From the end of the then branch, reached after m parts, to past the `fi`.
  lemma {:induction false} SimulateClose(env: Env, p: Prog, st: St, mark: Option<nat>, fuel: nat, np: Np, pc: nat,
                                         st2: St, np2: Np, m: nat) returns (n: nat, np': Np)
    requires p.IfElse? && Ready(env, p, st, mark, np, pc) && |st2.ie| == |st.ie|
    requires st.top + 1 < |st.ie| && OwnIf(env, p, st, mark, st2)
    requires Simulated(env, np, pc, st, mark, Finished(st2), m, np2, pc + 2 + |Flatten(p.thn)|)
    requires Close(p, st2, env.o, env.ignore, mark, fuel).Some?
    ensures Simulated(env, np, pc, st, mark, Close(p, st2, env.o, env.ignore, mark, fuel).value, n, np',
                      pc + |Flatten(p)|)
    decreases fuel, p, 0, 1
  {
    hide Reaches, Fits, Context, Moved, Eval, AtElse, AtFi, Flatten, Strict, Level, Layout;
    FitsIf(Parts(env.script), pc, p);
    var q := pc + 2 + |Flatten(p.thn)|;
    if p.els.None? {
      np' := SimulateFi(env, st2, mark, np2, q);
      SimTrans(env, np, pc, st, mark, st2, m, np2, q, AtFi(st2, env.ignore), 1, np', q + 1);
      n := m + 1;
    } else {
      n, np' := SimulateElseBranch(env, p, st, mark, fuel, np, pc, st2, np2, m);
    }
  }

  lemma {:induction false} SimulateElseBranch(env: Env, p: Prog, st: St, mark: Option<nat>, fuel: nat, np: Np, pc: nat,
                                              st2: St, np2: Np, m: nat) returns (n: nat, np': Np)
    requires p.IfElse? && p.els.Some? && Ready(env, p, st, mark, np, pc) && |st2.ie| == |st.ie|
    requires st.top + 1 < |st.ie| && OwnIf(env, p, st, mark, st2)
    requires Simulated(env, np, pc, st, mark, Finished(st2), m, np2, pc + 2 + |Flatten(p.thn)|)
    requires Close(p, st2, env.o, env.ignore, mark, fuel).Some?
    ensures Simulated(env, np, pc, st, mark, Close(p, st2, env.o, env.ignore, mark, fuel).value, n, np',
                      pc + |Flatten(p)|)
    decreases fuel, p, 0, 0
  {
    hide Reaches, Fits, Context, Moved, Eval, AtElse, AtFi, Flatten, Strict, Level, Layout, EnterIf;
    FitsIf(Parts(env.script), pc, p);
    OwnWords(env, p, st, mark, fuel, st2);
    var q, els := pc + 2 + |Flatten(p.thn)|, p.els.value;
    var end, r3 := q + 1 + |Flatten(els)|, AtElse(st2, env.ignore);
    var np3 := SimulateElse(env, st2, mark, np2, q);
    SimTrans(env, np, pc, st, mark, st2, m, np2, q, r3, 1, np3, q + 1);
    n, np' := m + 1, np3;
    if r3.Aborted? {
      AbortedAnywhere(env, np, pc, st, mark, r3, n, np', q + 1, end + 1);
    } else {
      ReadyElse(env, p, st, mark, np, pc, r3.st, np3);
      var n4, np4 := Simulate(env, els, r3.st, mark, fuel, np3, q + 1);
      var r4 := Eval(els, r3.st, env.o, env.ignore, mark, fuel).value;
      SimTrans(env, np, pc, st, mark, r3.st, n, np3, q + 1, r4, n4, np4, end);
      n, np' := n + n4, np4;
      if r4.Aborted? {
        AbortedAnywhere(env, np, pc, st, mark, r4, n, np', end, end + 1);
      } else {
        np' := SimulateFi(env, r4.st, mark, np4, end);
        SimTrans(env, np, pc, st, mark, r4.st, n, np4, end, AtFi(r4.st, env.ignore), 1, np', end + 1);
        n := n + 1;
      }
    }
  }

  // `else` and `fi` find their `if`.
  lemma {:induction false} OwnWords(env: Env, p: Prog, st: St, mark: Option<nat>, fuel: nat, st2: St)
    requires p.IfElse? && p.els.Some? && |st2.ie| == |st.ie| && (mark.Some? ==> mark.value < |st.ie|)
    requires st.top + 1 < |st.ie| && OwnIf(env, p, st, mark, st2)
    ensures Strict(env) || st2.ie[st2.top].state == ItefThen
    ensures var r3 := AtElse(st2, env.ignore);
            Strict(env) ||
            (r3.Finished? ==>
               && r3.st.top == st.top + 1
               && (var r4 := Eval(p.els.value, r3.st, env.o, env.ignore, mark, fuel);
                   r4.Some? && r4.value.Finished? ==> r4.value.st.ie[r4.value.st.top].state == ItefElse))
  {
    hide Strict, Level, Eval;
    if !Strict(env) {
      var st1, r3 := EnterIf(p.inverted, p.cond, st, env.o, mark), AtElse(st2, env.ignore);
      LevelBranches(p, st, r3.st, mark);
      LevelKeeps(p.els.value, r3.st, env.o, env.ignore, mark, fuel);
    }
  }

  lemma {:induction false} ReadyElse(env: Env, p: Prog, st: St, mark: Option<nat>, np: Np, pc: nat, st3: St, np3: Np)
    requires p.IfElse? && p.els.Some? && Ready(env, p, st, mark, np, pc) && |st3.ie| == |st.ie|
    requires Context(np3, st3, mark) && Moved(np, np3) && (Strict(env) || st3.top == st.top + 1)
    ensures Ready(env, p.els.value, st3, mark, np3, pc + 3 + |Flatten(p.thn)|)
  {
    hide Fits, Context, Layout, Strict, Level;
    FitsIf(Parts(env.script), pc, p);
    if !Strict(env) {
      LevelBranches(p, st, st3, mark);
    }
  }

  // ----- Loops -----

  lemma LoopPrologue(env: Env, p: Prog, np: Np, pc: nat, trace: Trace, err: bool)
    requires p.Loop? && IsCondition(p.cond) && Fits(Parts(env.script), pc, [LoopHead(p.until, p.cond), [Do]])
    requires Settled(np) && np.lpndx + 1 < |np.lp|
    ensures pc < |Parts(env.script)| && Where(env.script, Parts(env.script)[pc].at) == pc
    ensures var on := ItefEnabled(np);
            var trace' := if on then trace + [p.cond] else trace;
            var entry := LoopEntry(LoopDo, on && env.o(trace', np.fail) == p.until, np.iendx, Parts(env.script)[pc].at);
            var np1 := SetLp(np, np.lpndx + 1, entry).(jump := None, lpndx := np.lpndx + 1, fail := np.fail && !on);
            Reaches(PartStepper(env), Running(np, pc, trace, err), 2, Running(np1, pc + 2, trace', false))
  {
    hide Reaches, Keeps, PartStep, Fits, Layout, Parts, Where, ItefEnabled;
    FitsAt(Parts(env.script), pc, [LoopHead(p.until, p.cond), [Do]], 0);
    FitsAt(Parts(env.script), pc, [LoopHead(p.until, p.cond), [Do]], 1);
    LoopHeadIsFirst(env.script, pc);
    var c, f := Running(np, pc, trace, err), PartStepper(env);
    PartLoopHead(env, np, pc, trace, err, p.until, p.cond);
    ReachStep(f, c);
    var c1 := PartStep(env, c);
    PartDo(env, c1.np, pc + 1, c1.trace, false);
    ReachMore(f, c, 1, c1);
    var i := np.lpndx + 1;
    assert c1.np.lp[i := c1.np.lp[i].(state := LoopDo)] == np.lp[i := c1.np.lp[i].(state := LoopDo)];
  }

  lemma {:induction false} LevelBody(p: Prog, st: St, st1: St, mark: Option<nat>)
    requires p.Loop? && Level(p, st, mark) && st1.top == st.top
    ensures Level(p.body, st1, Some(st.top))
  {
  }

  // The state in the body of the loop, `on` saying whether an `if` lets its condition run.
  function InBody(np: Np, live: bool, at: nat, on: bool): Np
    requires np.lpndx + 1 < |np.lp|
  {
    SetLp(np, np.lpndx + 1, LoopEntry(LoopDo, live, np.iendx, at))
    .(jump := None, lpndx := np.lpndx + 1, fail := np.fail && !on)
  }

  lemma BodyContext(env: Env, p: Prog, st: St, mark: Option<nat>, np: Np, pc: nat, at: nat)
    requires p.Loop? && Context(np, st, mark) && np.lpndx + 1 < |np.lp| && Where(env.script, at) == pc
    ensures var st1 := EnterLoop(p.until, p.cond, st, env.o);
            var np1 := InBody(np, st1.live, at, ItefEnabled(np));
            Context(np1, st1, Some(st.top)) && Inside(env, np, np1, pc)
  {
    hide Where, AtRest;
  }

  // One pass of a loop begins: the condition has run and `do` has been read.
  lemma TakeBody(env: Env, p: Prog, st: St, mark: Option<nat>, np: Np, pc: nat) returns (np1: Np)
    requires p.Loop? && Ready(env, p, st, mark, np, pc)
    ensures var st1 := EnterLoop(p.until, p.cond, st, env.o);
            && Reaches(PartStepper(env), Running(np, pc, st.trace, st.err), 2, Running(np1, pc + 2, st1.trace, st1.err))
            && Ready(env, p.body, st1, Some(st.top), np1, pc + 2)
    ensures Inside(env, np, np1, pc)
  {
    hide Reaches, Keeps, PartStep, Fits, Layout, Strict, Level, Parts, Where, CmdEnabled, ItefEnabled, IsOn, Inside;
    FitsLoop(Parts(env.script), pc, p);
    var st1 := EnterLoop(p.until, p.cond, st, env.o);
    if !Strict(env) {
      LevelBody(p, st, st1, mark);
    }
    ContextSettled(np, st, mark);
    LoopPrologue(env, p, np, pc, st.trace, st.err);
    var at := Parts(env.script)[pc].at;
    np1 := InBody(np, st1.live, at, ItefEnabled(np));
    BodyContext(env, p, st, mark, np, pc, at);
    hide Context;
  }

  // np1 is inside a loop that begins at part pc, and np is just outside.
  ghost predicate Inside(env: Env, np: Np, np1: Np, pc: nat) {
    && np1.lpndx == np.lpndx + 1 && |np1.lp| == |np.lp|
    && (forall k | 0 <= k <= np.lpndx :: np1.lp[k] == np.lp[k])
    && Where(env.script, TopLp(np1).topoffs) == pc
  }

  // `done`: back to the head if the body is still live, on otherwise.
  lemma {:induction false} CloseBody(env: Env, p: Prog, st: St, mark: Option<nat>, np: Np, pc: nat, np1: Np, st2: St,
                                     np2: Np)
    returns (np': Np)
    requires p.Loop? && Ready(env, p, st, mark, np, pc) && Inside(env, np, np1, pc) && |st2.ie| == |st.ie|
    requires Moved(np1, np2) && Context(np2, st2, Some(st.top)) && (Strict(env) || st2.top == st.top)
    ensures var st3 := st2.(err := false, live := st.live);
            && PartStep(env, Running(np2, pc + 2 + |Flatten(p.body)|, st2.trace, st2.err)) ==
               Running(np', if st2.live then pc else pc + |Flatten(p)|, st3.trace, st3.err)
            && Ready(env, p, st3, mark, np', pc) && Moved(np, np')
  {
    hide Reaches, Keeps, PartStep, Fits, Layout, Strict, Parts, Where, DeepBreak;
    FitsLoop(Parts(env.script), pc, p);
    FitsAt(Parts(env.script), pc + 2 + |Flatten(p.body)|, [[Done]], 0);
    PartDoneWord(env, np2, pc + 2 + |Flatten(p.body)|, st2.trace, st2.err);
    np' := SetLp(np2, np2.lpndx, TopLp(np2).(state := LoopNormal, enable := true))
           .(lpndx := np2.lpndx - 1, jump := if st2.live then Some(TopLp(np2).topoffs) else None);
  }

  lemma {:induction false} SimulateLoop(env: Env, p: Prog, st: St, mark: Option<nat>, fuel: nat, np: Np, pc: nat)
    returns (n: nat, np': Np)
    requires p.Loop? && Ready(env, p, st, mark, np, pc) && Eval(p, st, env.o, env.ignore, mark, fuel).Some?
    ensures Simulated(env, np, pc, st, mark, Eval(p, st, env.o, env.ignore, mark, fuel).value, n, np',
                      pc + |Flatten(p)|)
    decreases fuel, p, 0
  {
    hide Reaches, PartStep, Context, Moved, Inside, Eval, EnterLoop, Fits, Layout, Strict, Level, Flatten;
    EvalLoop(p, st, env.o, env.ignore, mark, fuel);
    var c, f := Running(np, pc, st.trace, st.err), PartStepper(env);
    var st1, k := EnterLoop(p.until, p.cond, st, env.o), |Flatten(p.body)|;
    var np1 := TakeBody(env, p, st, mark, np, pc);
    var n1, np2 := Simulate(env, p.body, st1, Some(st.top), fuel, np1, pc + 2);
    var r := Eval(p.body, st1, env.o, env.ignore, Some(st.top), fuel).value;
    ReachTrans(f, c, 2, Running(np1, pc + 2, st1.trace, st1.err), n1, At(r, np2, pc + 2 + k));
    if r.Aborted? {
      n, np' := 2 + n1, np2;
    } else {
      if !Strict(env) {
        LevelKeeps(p.body, st1, env.o, env.ignore, Some(st.top), fuel);
      }
      n, np' := LoopGoesOn(env, p, st, mark, fuel, np, pc, np1, r.st, np2, 2 + n1);
    }
  }

  // After a pass through the body, reached after m parts.
  lemma {:induction false} LoopGoesOn(env: Env, p: Prog, st: St, mark: Option<nat>, fuel: nat, np: Np, pc: nat,
                                      np1: Np, st2: St, np2: Np, m: nat) returns (n: nat, np': Np)
    requires p.Loop? && Ready(env, p, st, mark, np, pc) && Inside(env, np, np1, pc) && |st2.ie| == |st.ie|
    requires Moved(np1, np2) && Context(np2, st2, Some(st.top)) && (Strict(env) || st2.top == st.top)
    requires Reaches(PartStepper(env), Running(np, pc, st.trace, st.err), m,
                     Running(np2, pc + 2 + |Flatten(p.body)|, st2.trace, st2.err))
    requires st2.live ==>
               fuel > 0 && Eval(p, st2.(err := false, live := st.live), env.o, env.ignore, mark, fuel - 1).Some?
    ensures var st3 := st2.(err := false, live := st.live);
            Simulated(env, np, pc, st, mark,
                      if st2.live then Eval(p, st3, env.o, env.ignore, mark, fuel - 1).value else Finished(st3),
                      n, np', pc + |Flatten(p)|)
    decreases fuel, p.body
  {
    hide Reaches, PartStep, Inside, Eval, Flatten, Context, Moved, Strict, Level;
    var c, f, st3 := Running(np, pc, st.trace, st.err), PartStepper(env), st2.(err := false, live := st.live);
    var np3 := CloseBody(env, p, st, mark, np, pc, np1, st2, np2);
    ReachMore(f, c, m, Running(np2, pc + 2 + |Flatten(p.body)|, st2.trace, st2.err));
    n, np' := m + 1, np3;
    ContextFail(np3, st3, mark);
    if st2.live {
      assert Simulated(env, np, pc, st, mark, Finished(st3), m + 1, np3, pc);
      var n2;
      n2, np' := SimulateLoop(env, p, st3, mark, fuel - 1, np3, pc);
      n := m + 1 + n2;
      SimTrans(env, np, pc, st, mark, st3, m + 1, np3, pc,
               Eval(p, st3, env.o, env.ignore, mark, fuel - 1).value, n2, np', pc + |Flatten(p)|);
    }
  }

  lemma ContextFail(np: Np, st: St, mark: Option<nat>)
    requires Context(np, st, mark)
    ensures np.fail == st.fail && np.said == st.said
  {
  }

  // ----- ... and nothing else: if the machine stops, so does Eval -----

  lemma {:induction false} MoreFuel(p: Prog, st: St, o: Oracle, ignore: bool, mark: Option<nat>, f: nat, g: nat)
    requires mark.Some? ==> mark.value < |st.ie|
    requires f <= g && Eval(p, st, o, ignore, mark, f).Some?
    ensures Eval(p, st, o, ignore, mark, g) == Eval(p, st, o, ignore, mark, f)
    decreases f, p, 1
  {
    match p {
      case Seq(a, b) =>
        MoreFuel(a, st, o, ignore, mark, f, g);
        var r := Eval(a, st, o, ignore, mark, f).value;
        if r.Finished? {
          MoreFuel(b, r.st, o, ignore, mark, f, g);
        }
      case IfElse(_, _, _, _) =>
        MoreFuelIf(p, st, o, ignore, mark, f, g);
      case Loop(_, _, _) =>
        MoreFuelLoop(p, st, o, ignore, mark, f, g);
      case _ =>
    }
  }

  lemma {:induction false} MoreFuelIf(p: Prog, st: St, o: Oracle, ignore: bool, mark: Option<nat>, f: nat, g: nat)
    requires p.IfElse? && (mark.Some? ==> mark.value < |st.ie|)
    requires f <= g && Eval(p, st, o, ignore, mark, f).Some?
    ensures Eval(p, st, o, ignore, mark, g) == Eval(p, st, o, ignore, mark, f)
    decreases f, p, 0
  {
    hide Eval, EnterIf, AtElse, AtFi;
    EvalIf(p, st, o, ignore, mark, f);
    EvalIf(p, st, o, ignore, mark, g);
    var st1 := EnterIf(p.inverted, p.cond, st, o, mark);
    MoreFuel(p.thn, st1, o, ignore, mark, f, g);
    var r := Eval(p.thn, st1, o, ignore, mark, f).value;
    if r.Finished? && p.els.Some? {
      var r3 := AtElse(r.st, ignore);
      if r3.Finished? {
        MoreFuel(p.els.value, r3.st, o, ignore, mark, f, g);
      }
    }
  }

  lemma {:induction false} MoreFuelLoop(p: Prog, st: St, o: Oracle, ignore: bool, mark: Option<nat>, f: nat, g: nat)
    requires p.Loop? && (mark.Some? ==> mark.value < |st.ie|)
    requires f <= g && Eval(p, st, o, ignore, mark, f).Some?
    ensures Eval(p, st, o, ignore, mark, g) == Eval(p, st, o, ignore, mark, f)
    decreases f, p, 0
  {
    hide Eval, EnterLoop;
    EvalLoop(p, st, o, ignore, mark, f);
    EvalLoop(p, st, o, ignore, mark, g);
    var st1 := EnterLoop(p.until, p.cond, st, o);
    MoreFuel(p.body, st1, o, ignore, Some(st.top), f, g);
    var r := Eval(p.body, st1, o, ignore, Some(st.top), f).value;
    if r.Finished? && r.st.live {
      MoreFuel(p, r.st.(err := false, live := st.live), o, ignore, mark, f - 1, g - 1);
    }
  }

  // Room on the if stack for the nesting of p, also after a `break`.
  ghost predicate Room(p: Prog, st: St, mark: Option<nat>) {
    st.top + IfDepth(p) < |st.ie| && (mark.Some? ==> mark.value + IfDepth(p) < |st.ie|)
  }

  function Highest(st: St, mark: Option<nat>): nat {
    if mark.Some? then Max(st.top, mark.value) else st.top
  }

  // The if stack is never higher afterwards than before, or than where the loop began.
  lemma {:induction false} TopBound(p: Prog, st: St, o: Oracle, ignore: bool, mark: Option<nat>, fuel: nat)
    requires mark.Some? ==> mark.value < |st.ie|
    ensures var r := Eval(p, st, o, ignore, mark, fuel);
            r.Some? && r.value.Finished? ==> r.value.st.top <= Highest(st, mark)
    decreases fuel, p, 1
  {
    match p {
      case Seq(a, b) =>
        TopBound(a, st, o, ignore, mark, fuel);
        var r := Eval(a, st, o, ignore, mark, fuel);
        if r.Some? && r.value.Finished? {
          TopBound(b, r.value.st, o, ignore, mark, fuel);
        }
      case IfElse(_, _, _, _) =>
        TopBoundIf(p, st, o, ignore, mark, fuel);
      case Loop(_, _, _) =>
        TopBoundLoop(p, st, o, ignore, mark, fuel);
      case _ =>
    }
  }

  lemma {:induction false} TopBoundIf(p: Prog, st: St, o: Oracle, ignore: bool, mark: Option<nat>, fuel: nat)
    requires p.IfElse? && (mark.Some? ==> mark.value < |st.ie|)
    ensures var r := Eval(p, st, o, ignore, mark, fuel);
            r.Some? && r.value.Finished? ==> r.value.st.top <= Highest(st, mark)
    decreases fuel, p, 0
  {
    hide Eval, Close;
    EvalIf(p, st, o, ignore, mark, fuel);
    if st.top + 1 < |st.ie| {
      var st1 := EnterIf(p.inverted, p.cond, st, o, mark);
      TopBound(p.thn, st1, o, ignore, mark, fuel);
      var r := Eval(p.thn, st1, o, ignore, mark, fuel);
      if r.Some? && r.value.Finished? {
        TopBoundClose(p, st, r.value.st, o, ignore, mark, fuel);
      }
    }
  }

  lemma {:induction false} TopBoundClose(p: Prog, st: St, st2: St, o: Oracle, ignore: bool, mark: Option<nat>,
                                         fuel: nat)
    requires p.IfElse? && |st2.ie| == |st.ie| && (mark.Some? ==> mark.value < |st.ie|)
    requires st2.top <= Max(st.top + 1, Highest(st, mark))
    ensures var r := Close(p, st2, o, ignore, mark, fuel);
            r.Some? && r.value.Finished? ==> r.value.st.top <= Highest(st, mark)
    decreases fuel, p, 0, 0
  {
    hide Eval;
    var r3 := AtElse(st2, ignore);
    if p.els.Some? && r3.Finished? {
      TopBound(p.els.value, r3.st, o, ignore, mark, fuel);
    }
  }

  lemma {:induction false} TopBoundLoop(p: Prog, st: St, o: Oracle, ignore: bool, mark: Option<nat>, fuel: nat)
    requires p.Loop? && (mark.Some? ==> mark.value < |st.ie|)
    ensures var r := Eval(p, st, o, ignore, mark, fuel);
            r.Some? && r.value.Finished? ==> r.value.st.top <= st.top
    decreases fuel, p, 0
  {
    hide Eval;
    EvalLoop(p, st, o, ignore, mark, fuel);
    var st1 := EnterLoop(p.until, p.cond, st, o);
    TopBound(p.body, st1, o, ignore, Some(st.top), fuel);
    var r := Eval(p.body, st1, o, ignore, Some(st.top), fuel);
    if r.Some? && r.value.Finished? && r.value.st.live && fuel > 0 {
      TopBoundLoop(p, r.value.st.(err := false, live := st.live), o, ignore, mark, fuel - 1);
    }
  }

  // The machine, started at part pc, halts in h after n parts.
  ghost predicate Halts(env: Env, st: St, np: Np, pc: nat, n: nat, h: Config) {
    Reaches(PartStepper(env), Running(np, pc, st.trace, st.err), n, h) && h.Halted?
  }

  // A run that halts and has come to st1 after m parts halts n - m parts later.
  lemma HaltsAfter(env: Env, st: St, np: Np, pc: nat, n: nat, h: Config, mark: Option<nat>,
                   st1: St, m: nat, np1: Np, pc1: nat)
    requires Halts(env, st, np, pc, n, h) && Simulated(env, np, pc, st, mark, Finished(st1), m, np1, pc1)
    ensures m < n && Halts(env, st1, np1, pc1, n - m, h)
  {
    hide Reaches, PartStep;
    HaltedIsHalted(env, h);
    HaltsLater(PartStepper(env), Running(np, pc, st.trace, st.err), m, Running(np1, pc1, st1.trace, st1.err), n, h);
  }

  lemma {:induction false} Terminates(env: Env, p: Prog, st: St, mark: Option<nat>, np: Np, pc: nat, n: nat, h: Config)
    returns (fuel: nat)
    requires Ready(env, p, st, mark, np, pc) && Room(p, st, mark) && Halts(env, st, np, pc, n, h)
    ensures Eval(p, st, env.o, env.ignore, mark, fuel).Some?
    decreases n, p, 1
  {
    hide Reaches, Fits, Context, Layout;
    fuel := 0;
    match p {
      case Seq(_, _) =>
        fuel := TerminatesSeq(env, p, st, mark, np, pc, n, h);
      case IfElse(_, _, _, _) =>
        fuel := TerminatesIf(env, p, st, mark, np, pc, n, h);
      case Loop(_, _, _) =>
        fuel := TerminatesLoop(env, p, st, mark, np, pc, n, h);
      case _ =>
    }
  }

  lemma {:induction false} TerminatesSeq(env: Env, p: Prog, st: St, mark: Option<nat>, np: Np, pc: nat, n: nat,
                                         h: Config)
    returns (fuel: nat)
    requires p.Seq? && Ready(env, p, st, mark, np, pc) && Room(p, st, mark) && Halts(env, st, np, pc, n, h)
    ensures Eval(p, st, env.o, env.ignore, mark, fuel).Some?
    decreases n, p, 0
  {
    hide Reaches, Context, Moved, Fits, Layout, Strict, Level, Flatten, Eval, Halts;
    ReadySeq(env, p, st, mark, np, pc);
    var f1 := Terminates(env, p.first, st, mark, np, pc, n, h);
    var r := Eval(p.first, st, env.o, env.ignore, mark, f1).value;
    fuel := f1;
    if r.Finished? {
      var k := |Flatten(p.first)|;
      var n1, np1 := Simulate(env, p.first, st, mark, f1, np, pc);
      HaltsAfter(env, st, np, pc, n, h, mark, r.st, n1, np1, pc + k);
      if !Strict(env) {
        LevelKeeps(p.first, st, env.o, env.ignore, mark, f1);
      }
      ReadyRest(env, p, st, mark, np, pc, r.st, np1);
      TopBound(p.first, st, env.o, env.ignore, mark, f1);
      var f2 := Terminates(env, p.rest, r.st, mark, np1, pc + k, n - n1, h);
      fuel := f1 + f2;
      MoreFuel(p.first, st, env.o, env.ignore, mark, f1, fuel);
      MoreFuel(p.rest, r.st, env.o, env.ignore, mark, f2, fuel);
    }
    EvalSeq(p, st, env.o, env.ignore, mark, fuel);
  }

  lemma {:induction false} TerminatesIf(env: Env, p: Prog, st: St, mark: Option<nat>, np: Np, pc: nat, n: nat,
                                        h: Config)
    returns (fuel: nat)
    requires p.IfElse? && Ready(env, p, st, mark, np, pc) && Room(p, st, mark) && Halts(env, st, np, pc, n, h)
    ensures Eval(p, st, env.o, env.ignore, mark, fuel).Some?
    decreases n, p, 0
  {
    hide Reaches, Context, Moved, Fits, Layout, Strict, Level, Flatten, Eval, Halts, Close;
    var st1, k := EnterIf(p.inverted, p.cond, st, env.o, mark), |Flatten(p.thn)|;
    var np1 := TakeThen(env, p, st, mark, np, pc);
    HaltsAfter(env, st, np, pc, n, h, mark, st1, 2, np1, pc + 2);
    var f1 := Terminates(env, p.thn, st1, mark, np1, pc + 2, n - 2, h);
    var r := Eval(p.thn, st1, env.o, env.ignore, mark, f1).value;
    fuel := f1;
    if r.Finished? {
      var n1, np2 := Simulate(env, p.thn, st1, mark, f1, np1, pc + 2);
      SimTrans(env, np, pc, st, mark, st1, 2, np1, pc + 2, r, n1, np2, pc + 2 + k);
      TopBound(p.thn, st1, env.o, env.ignore, mark, f1);
      if !Strict(env) {
        LevelKeeps(p.thn, st1, env.o, env.ignore, mark, f1);
      }
      var f2 := TerminatesClose(env, p, st, mark, np, pc, n, h, r.st, np2, 2 + n1);
      fuel := f1 + f2;
      MoreFuel(p.thn, st1, env.o, env.ignore, mark, f1, fuel);
      MoreClose(p, r.st, env.o, env.ignore, mark, f2, fuel);
    }
    EvalIf(p, st, env.o, env.ignore, mark, fuel);
  }

  lemma MoreClose(p: Prog, st: St, o: Oracle, ignore: bool, mark: Option<nat>, f: nat, g: nat)
    requires p.IfElse? && (mark.Some? ==> mark.value < |st.ie|)
    requires f <= g && Close(p, st, o, ignore, mark, f).Some?
    ensures Close(p, st, o, ignore, mark, g) == Close(p, st, o, ignore, mark, f)
  {
    hide Eval, AtElse, AtFi;
    if p.els.Some? && AtElse(st, ignore).Finished? {
      MoreFuel(p.els.value, AtElse(st, ignore).st, o, ignore, mark, f, g);
    }
  }

  // From the end of the then branch, reached after m parts.
  lemma {:induction false} TerminatesClose(env: Env, p: Prog, st: St, mark: Option<nat>, np: Np, pc: nat, n: nat,
                                           h: Config, st2: St, np2: Np, m: nat) returns (fuel: nat)
    requires p.IfElse? && Ready(env, p, st, mark, np, pc) && Room(p, st, mark) && Halts(env, st, np, pc, n, h) && m > 0
    requires Simulated(env, np, pc, st, mark, Finished(st2), m, np2, pc + 2 + |Flatten(p.thn)|)
    requires |st2.ie| == |st.ie| && st2.top <= Max(st.top + 1, Highest(st, mark)) && OwnIf(env, p, st, mark, st2)
    ensures Close(p, st2, env.o, env.ignore, mark, fuel).Some?
    decreases n, p, 0, 0
  {
    hide Reaches, Context, Moved, Fits, Layout, Strict, Level, Flatten, Eval, Halts, AtFi;
    fuel := 0;
    if p.els.Some? {
      var q, els, r3 := pc + 2 + |Flatten(p.thn)|, p.els.value, AtElse(st2, env.ignore);
      FitsIf(Parts(env.script), pc, p);
      OwnWords(env, p, st, mark, 0, st2);
      if r3.Finished? {
        var np3 := SimulateElse(env, st2, mark, np2, q);
        SimTrans(env, np, pc, st, mark, st2, m, np2, q, r3, 1, np3, q + 1);
        HaltsAfter(env, st, np, pc, n, h, mark, r3.st, m + 1, np3, q + 1);
        ReadyElse(env, p, st, mark, np, pc, r3.st, np3);
        fuel := Terminates(env, els, r3.st, mark, np3, q + 1, n - m - 1, h);
      }
    }
  }

  lemma {:induction false} TerminatesLoop(env: Env, p: Prog, st: St, mark: Option<nat>, np: Np, pc: nat, n: nat,
                                          h: Config)
    returns (fuel: nat)
    requires p.Loop? && Ready(env, p, st, mark, np, pc) && Room(p, st, mark) && Halts(env, st, np, pc, n, h)
    ensures Eval(p, st, env.o, env.ignore, mark, fuel).Some?
    decreases n, p, 0
  {
    hide Reaches, PartStep, Context, Moved, Inside, Fits, Layout, Strict, Level, Flatten, Eval, EnterLoop;
    var c, f := Running(np, pc, st.trace, st.err), PartStepper(env);
    var st1, k := EnterLoop(p.until, p.cond, st, env.o), |Flatten(p.body)|;
    var np1 := TakeBody(env, p, st, mark, np, pc);
    HaltedIsHalted(env, h);
    HaltsLater(f, c, 2, Running(np1, pc + 2, st1.trace, st1.err), n, h);
    var f1 := Terminates(env, p.body, st1, Some(st.top), np1, pc + 2, n - 2, h);
    var r := Eval(p.body, st1, env.o, env.ignore, Some(st.top), f1).value;
    fuel := f1;
    if r.Finished? && r.st.live {
      var n1, np2 := Simulate(env, p.body, st1, Some(st.top), f1, np1, pc + 2);
      var c2, st3 := Running(np2, pc + 2 + k, r.st.trace, r.st.err), r.st.(err := false, live := st.live);
      ReachTrans(f, c, 2, Running(np1, pc + 2, st1.trace, st1.err), n1, c2);
      if !Strict(env) {
        LevelKeeps(p.body, st1, env.o, env.ignore, Some(st.top), f1);
      }
      var np3 := CloseBody(env, p, st, mark, np, pc, np1, r.st, np2);
      ReachMore(f, c, 2 + n1, c2);
      HaltsLater(f, c, 3 + n1, Running(np3, pc, st3.trace, st3.err), n, h);
      TopBound(p.body, st1, env.o, env.ignore, Some(st.top), f1);
      var f2 := TerminatesLoop(env, p, st3, mark, np3, pc, n - 3 - n1, h);
      fuel := f1 + f2 + 1;
      MoreFuel(p.body, st1, env.o, env.ignore, Some(st.top), f1, fuel);
      MoreFuel(p, st3, env.o, env.ignore, mark, f2, f1 + f2);
    }
    EvalLoop(p, st, env.o, env.ignore, mark, fuel);
  }
}
