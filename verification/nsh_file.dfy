/** A script file run from its text, position by byte, does what its commands do in NshMachine,
    position by command.  With the theorem about structured scripts this is `nsh_script` from the
    bytes of a file to the meaning of the script. */
module NshFile {
  import opened Basics
  import opened NshLexer
  import opened NshParts
  import opened NshMachine
  import opened NshText
  import opened NshStructured
  import opened NshTheorem

  type Marks = (nat, nat) -> bool

  // ----- States that differ in the positions of loops only -----

  // `marks` relates the positions of open loops, and those of a jump.
  ghost predicate Alike(marks: Marks, np: Np, nt: Np) {
    && nt.ie == np.ie && nt.iendx == np.iendx && nt.lpndx == np.lpndx && nt.fail == np.fail && nt.stream == np.stream
    && nt.said == np.said
    && |nt.lp| == |np.lp|
    && (forall j | 0 <= j < |np.lp| :: nt.lp[j] == np.lp[j].(topoffs := nt.lp[j].topoffs))
    && (forall j | 0 < j <= np.lpndx :: marks(np.lp[j].topoffs, nt.lp[j].topoffs))
    && nt.jump.Some? == np.jump.Some? && (np.jump.Some? ==> marks(np.jump.value, nt.jump.value))
  }

  // Both states decide alike.
  lemma TopsAlike(marks: Marks, np: Np, nt: Np)
    requires Alike(marks, np, nt)
    ensures nt.ie == np.ie && |nt.ie| == |np.ie| == |np.lp| == |nt.lp| && nt.iendx == np.iendx && nt.lpndx == np.lpndx
    ensures nt.stream == np.stream && nt.fail == np.fail && nt.said == np.said && nt.jump.Some? == np.jump.Some?
    ensures TopLp(nt) == TopLp(np).(topoffs := TopLp(nt).topoffs)
    ensures CmdEnabled(nt) == CmdEnabled(np) && AwaitsDo(nt) == AwaitsDo(np)
  {
    assert nt.lp[np.lpndx] == np.lp[np.lpndx].(topoffs := nt.lp[np.lpndx].topoffs);
  }

  lemma SetLpAlike(marks: Marks, np: Np, nt: Np, j: nat, e: LoopEntry, e': LoopEntry)
    requires Alike(marks, np, nt) && j < |np.lp| && e.iendx < |np.ie| && e' == e.(topoffs := e'.topoffs)
    requires 0 < j <= np.lpndx ==> marks(e.topoffs, e'.topoffs)
    ensures Alike(marks, SetLp(np, j, e), SetLp(nt, j, e'))
  {
  }

  // The entry of the loop being run, with its positions kept.
  lemma SetTopAlike(marks: Marks, np: Np, nt: Np, state: LoopState, enable: bool)
    requires Alike(marks, np, nt)
    ensures Alike(marks, SetLp(np, np.lpndx, TopLp(np).(state := state, enable := enable)),
                  SetLp(nt, nt.lpndx, TopLp(nt).(state := state, enable := enable)))
  {
    TopsAlike(marks, np, nt);
    SetLpAlike(marks, np, nt, np.lpndx, TopLp(np).(state := state, enable := enable),
               TopLp(nt).(state := state, enable := enable));
  }

  lemma IfStackAlike(marks: Marks, np: Np, nt: Np, ie: seq<Itef>, iendx: nat, fail: bool, said: nat)
    requires Alike(marks, np, nt) && |ie| == |np.ie| && iendx < |ie|
    ensures Alike(marks, np.(ie := ie, iendx := iendx, fail := fail, said := said),
                  nt.(ie := ie, iendx := iendx, fail := fail, said := said))
  {
  }

  lemma LoopErrorAlike(marks: Marks, np: Np, nt: Np, toks: Argv, e: Error)
    requires Alike(marks, np, nt)
    ensures var r, t := LoopError(np, toks, e), LoopError(nt, toks, e);
            t.toks == r.toks && t.err == r.err && Alike(marks, r.np, t.np)
  {
    hide Keeps;
    SetLpAlike(marks, np, nt, 0, np.lp[0].(state := LoopNormal, enable := true, topoffs := 0),
               nt.lp[0].(state := LoopNormal, enable := true, topoffs := 0));
  }

  lemma PushAlike(marks: Marks, np: Np, nt: Np, state: LoopState, k: nat, b: nat)
    requires Alike(marks, np, nt) && marks(k, b)
    requires np.lpndx + 1 < |np.lp| && !AwaitsDo(np) && !AwaitsDo(nt) && state != LoopNormal
    ensures Alike(marks, PushLoop(np, state, k), PushLoop(nt, state, b))
  {
    hide Keeps;
    TopsAlike(marks, np, nt);
    hide CmdEnabled;
    SetLpAlike(marks, np, nt, np.lpndx + 1, LoopEntry(state, CmdEnabled(np), np.iendx, k),
               LoopEntry(state, CmdEnabled(np), np.iendx, b));
  }

  lemma PopAlike(marks: Marks, np: Np, nt: Np)
    requires Alike(marks, np, nt) && np.lpndx > 0 && TopLp(np).state == LoopDo && TopLp(nt).state == LoopDo
    ensures Alike(marks, PopLoop(np), PopLoop(nt))
  {
    hide Keeps;
    TopsAlike(marks, np, nt);
    SetTopAlike(marks, np, nt, LoopNormal, true);
  }

  lemma HeadAlike(marks: Marks, np: Np, nt: Np, toks: Argv, k: nat, b: nat)
    requires Alike(marks, np, nt) && IsHead(toks) && marks(k, b)
    ensures var r, t := ParseLoop(np, toks, k), ParseLoop(nt, toks, b);
            t.toks == r.toks && t.err == r.err && Alike(marks, r.np, t.np)
  {
    hide Alike, Keeps, NoArgument, LoopError, PushLoop, CmdEnabled, AwaitsDo;
    TopsAlike(marks, np, nt);
    var rest := toks[1..];
    if NoArgument(rest) {
      LoopErrorAlike(marks, np, nt, rest, ArgInvalid);
    } else if TopIe(np).state == ItefIf || AwaitsDo(np) || !np.stream {
      LoopErrorAlike(marks, np, nt, rest, BadContext);
    } else if np.lpndx >= |np.lp| - 1 {
      LoopErrorAlike(marks, np, nt, rest, DeepNesting);
    } else {
      PushAlike(marks, np, nt, if toks[0] == While then LoopWhile else LoopUntil, k, b);
    }
  }

  lemma LoopAlike(marks: Marks, np: Np, nt: Np, toks: Argv, k: nat, b: nat)
    requires Alike(marks, np, nt) && (IsHead(toks) ==> marks(k, b))
    ensures var r, t := ParseLoop(np, toks, k), ParseLoop(nt, toks, b);
            t.toks == r.toks && t.err == r.err && Alike(marks, r.np, t.np)
  {
    hide Alike, Keeps, NoArgument, LoopError, PopLoop, CmdEnabled;
    TopsAlike(marks, np, nt);
    if IsHead(toks) {
      HeadAlike(marks, np, nt, toks, k, b);
    } else if toks != [] {
      var r := ParseLoop(np, toks, k);
      if r.err != None {
        LoopErrorAlike(marks, np, nt, if toks[0] == Do || toks[0] == Done then toks[1..] else toks, r.err.value);
      } else if toks[0] == Do {
        SetTopAlike(marks, np, nt, LoopDo, TopLp(np).enable);
      } else if toks[0] == Done {
        PopAlike(marks, np, nt);
      }
    }
  }

  // From np and nt to np' and nt' the if stacks and the messages have changed, and in the same way.
  ghost predicate SameIfs(np: Np, nt: Np, np': Np, nt': Np) {
    && np' == np.(ie := np'.ie, iendx := np'.iendx, said := np'.said)
    && nt' == nt.(ie := np'.ie, iendx := np'.iendx, said := np'.said)
  }

  // nsh_itef changes nothing else, and looks at little else.
  lemma ItefParts(np: Np, nt: Np, toks: Argv)
    requires nt.ie == np.ie && nt.iendx == np.iendx && nt.said == np.said && CmdEnabled(nt) == CmdEnabled(np)
    ensures var r, t := ParseItef(np, toks), ParseItef(nt, toks);
            t.toks == r.toks && t.err == r.err && SameIfs(np, nt, r.np, t.np)
  {
    hide Keeps, NoArgument, CmdEnabled, PushIf, ItefError;
    if toks != [] {
      var r := ParseItef(np, toks);
      if r.err != None {
        var rest := if toks[0] == If && |toks| > 1 && toks[1] == Bang then toks[2..]
                    else if IsItefWord(toks[0]) then toks[1..] else toks;
        ItefErrorParts(np, nt, rest, r.err.value);
      } else if toks[0] == If {
        PushIfParts(np, nt, |toks| > 1 && toks[1] == Bang);
      }
    }
  }

  lemma ItefErrorParts(np: Np, nt: Np, toks: Argv, e: Error)
    requires nt.ie == np.ie && nt.said == np.said
    ensures var r, t := ItefError(np, toks, e), ItefError(nt, toks, e);
            t.toks == r.toks && t.err == r.err && SameIfs(np, nt, r.np, t.np)
  {
    hide Keeps;
  }

  lemma PushIfParts(np: Np, nt: Np, inverted: bool)
    requires nt.ie == np.ie && nt.iendx == np.iendx && nt.said == np.said && CmdEnabled(nt) == CmdEnabled(np)
    requires np.iendx + 1 < |np.ie|
    ensures SameIfs(np, nt, PushIf(np, inverted), PushIf(nt, inverted))
  {
    hide Keeps, CmdEnabled;
  }

  lemma ItefAlike(marks: Marks, np: Np, nt: Np, toks: Argv)
    requires Alike(marks, np, nt)
    ensures var r, t := ParseItef(np, toks), ParseItef(nt, toks);
            t.toks == r.toks && t.err == r.err && Alike(marks, r.np, t.np)
  {
    hide Alike, ParseItef, CmdEnabled;
    TopsAlike(marks, np, nt);
    ItefParts(np, nt, toks);
    var r := ParseItef(np, toks);
    IfStackAlike(marks, np, nt, r.np.ie, r.np.iendx, np.fail, r.np.said);
  }

  lemma SaveAlike(marks: Marks, np: Np, nt: Np, result: bool)
    requires Alike(marks, np, nt)
    ensures var r, t := SaveResult(np, result), SaveResult(nt, result); t.1 == r.1 && Alike(marks, r.0, t.0)
  {
    hide Alike, Keeps, CmdEnabled;
    TopsAlike(marks, np, nt);
    var r := SaveResult(np, result);
    if AwaitsDo(np) {
      var enable := TopLp(r.0).enable;
      SetTopAlike(marks, np, nt, TopLp(np).state, enable);
      IfStackAlike(marks, SetLp(np, np.lpndx, TopLp(np).(enable := enable)),
                   SetLp(nt, nt.lpndx, TopLp(nt).(enable := enable)), np.ie, np.iendx, false, np.said);
    } else {
      IfStackAlike(marks, np, nt, r.0.ie, np.iendx, r.0.fail, np.said);
    }
  }

  lemma ExecuteAlike(marks: Marks, np: Np, nt: Np, argv: Argv, o: Oracle, trace: Trace)
    requires Alike(marks, np, nt) && argv != []
    ensures var r, t := Execute(np, argv, o, trace), Execute(nt, argv, o, trace);
            t.1 == r.1 && t.2 == r.2 && Alike(marks, r.0, t.0)
  {
    hide Keeps, SaveResult;
    if argv != [Break] && argv[0] == Break {
      TopsAlike(marks, np, nt);
      IfStackAlike(marks, np, nt, np.ie, np.iendx, np.fail, np.said + 1);
      SaveAlike(marks, np.(said := np.said + 1), nt.(said := nt.said + 1), true);
    } else if argv == [Break] {
      assert Alike(marks, CmdBreak(np), CmdBreak(nt));
      SaveAlike(marks, CmdBreak(np), CmdBreak(nt), false);
    } else {
      SaveAlike(marks, np, nt, o(trace + [argv], np.fail));
    }
  }

  // A command does the same in both states.
  lemma CommandAlike(marks: Marks, np: Np, nt: Np, toks: Argv, k: nat, b: nat, o: Oracle, trace: Trace)
    requires Alike(marks, np, nt) && (IsHead(toks) ==> marks(k, b))
    ensures var r, t := ParseCommand(np, toks, k, o, trace), ParseCommand(nt, toks, b, o, trace);
            t.1 == r.1 && t.2 == r.2 && Alike(marks, r.0, t.0)
  {
    hide ParseLoop, ParseItef, SaveResult, Execute, IsHead, Alike, CmdEnabled;
    LoopAlike(marks, np, nt, toks, k, b);
    var loop, loop' := ParseLoop(np, toks, k), ParseLoop(nt, toks, b);
    if loop.err != None {
      SaveAlike(marks, loop.np, loop'.np, true);
    } else {
      ItefAlike(marks, loop.np, loop'.np, loop.toks);
      var itef, itef' := ParseItef(loop.np, loop.toks), ParseItef(loop'.np, loop.toks);
      TopsAlike(marks, itef.np, itef'.np);
      if itef.err != None {
        SaveAlike(marks, itef.np, itef'.np, true);
      } else if itef.toks != [] && CmdEnabled(itef.np) {
        ExecuteAlike(marks, itef.np, itef'.np, itef.toks, o, trace);
      }
    }
  }

  // ----- Lines -----

  // Command k begins a loop, at byte b.
  ghost predicate Mark(file: string, k: nat, b: nat) {
    k < |Script(file, 0)| && IsHead(Script(file, 0)[k].toks) && b == Position(file, 0, k)
  }

  ghost function MarksOf(file: string): Marks {
    (k: nat, b: nat) => Mark(file, k, b)
  }

  // The commands of the file, to be run by the machine.
  function Compiled(env: TextEnv): Env {
    Env(Script(env.file, 0), env.o, env.ignore)
  }

  lemma {:induction false} NextLineIs(script: seq<Cmd>, k: nat, next: nat)
    requires k < next <= |script| && forall j | k <= j < next :: script[j].eol == (j == next - 1)
    ensures NextLine(script, k) == next
    decreases next - k
  {
    if k + 1 < next {
      NextLineIs(script, k + 1, next);
    }
  }

  // The commands cs, read at byte foffs, are commands k and following.
  ghost predicate ReadsFrom(file: string, cs: seq<Command>, foffs: nat, k: nat) {
    forall i | 0 <= i < |cs| :: ReadsCommand(file, 0, k + i, cs[i], foffs + cs[i].loffs, i == |cs| - 1)
  }

  // The first of them, in both machines.
  lemma {:induction false} FirstAlike(env: TextEnv, cs: seq<Command>, foffs: nat, k: nat, np: Np, nt: Np, trace: Trace)
    requires Alike(MarksOf(env.file), np, nt) && cs != [] && ReadsFrom(env.file, cs, foffs, k)
    ensures k + |cs| <= |Script(env.file, 0)| && NextLine(Script(env.file, 0), k) == k + |cs|
    ensures var r := ParseCommand(np, Script(env.file, 0)[k].toks, k, env.o, trace);
            var toks := Words(env.shells(trace).(fail := nt.fail), RawTokens(cs[0].text));
            var t := ParseCommand(nt, toks, foffs + cs[0].loffs, env.o, trace);
            t.1 == r.1 && t.2 == r.2 && Alike(MarksOf(env.file), r.0, t.0)
    ensures ReadsFrom(env.file, cs[1..], foffs, k + 1)
  {
    hide Alike, ParseCommand, Script, Position, Words, RawTokens, Steady;
    var script := Script(env.file, 0);
    assert ReadsCommand(env.file, 0, k + 0, cs[0], foffs + cs[0].loffs, |cs| == 1);
    SameWords(env.shells(trace).(fail := nt.fail), RawTokens(cs[0].text));
    CommandAlike(MarksOf(env.file), np, nt, script[k].toks, k, foffs + cs[0].loffs, env.o, trace);
    assert k + |cs| <= |script| by {
      assert ReadsCommand(env.file, 0, k + (|cs| - 1), cs[|cs| - 1], foffs + cs[|cs| - 1].loffs, true);
    }
    forall j | k <= j < k + |cs| ensures script[j].eol == (j == k + |cs| - 1) {
      assert ReadsCommand(env.file, 0, k + (j - k), cs[j - k], foffs + cs[j - k].loffs, j - k == |cs| - 1);
    }
    NextLineIs(script, k, k + |cs|);
    forall i | 0 <= i < |cs[1..]|
      ensures ReadsCommand(env.file, 0, k + 1 + i, cs[1..][i], foffs + cs[1..][i].loffs, i == |cs[1..]| - 1)
    {
      assert ReadsCommand(env.file, 0, k + (1 + i), cs[1 + i], foffs + cs[1 + i].loffs, 1 + i == |cs| - 1);
    }
  }

  // Where the machine stands when the commands up to `next` have given `out` and state np.
  function Stands(env: TextEnv, np: Np, next: nat, out: (Np, Trace, bool)): Config {
    if !out.2 && !env.ignore then Halted(np, out.1, true)
    else Running(np, if np.jump.Some? then np.jump.value else next, out.1, !out.2)
  }

  lemma {:induction false} RunLineStep(env: TextEnv, cmds: seq<Command>, foffs: nat, np: Np, trace: Trace)
    requires cmds != []
    ensures var toks := Words(env.shells(trace).(fail := np.fail), RawTokens(cmds[0].text));
            var out := ParseCommand(np, toks, foffs + cmds[0].loffs, env.o, trace);
            RunLine(env, cmds, true, foffs, np, trace) ==
            if !out.2 || out.0.jump.Some? then out
            else if |cmds| == 1 then (out.0, out.1, true)
            else RunLine(env, cmds[1..], true, foffs, out.0, out.1)
  {
    hide ParseCommand, Words;
  }

  // nsh_parse on the rest of a line is some steps of the machine.
  lemma {:induction false} LineAlike(env: TextEnv, cs: seq<Command>, foffs: nat, k: nat, np: Np, nt: Np, trace: Trace,
                                     err: bool)
    returns (n: nat, np': Np)
    requires Alike(MarksOf(env.file), np.(jump := None), nt) && cs != [] && ReadsFrom(env.file, cs, foffs, k)
    ensures var out := RunLine(env, cs, true, foffs, nt, trace);
            && n > 0 && Alike(MarksOf(env.file), np', out.0)
            && Reaches(Stepper(Compiled(env)), Running(np, k, trace, err), n, Stands(env, np', k + |cs|, out))
    decreases |cs|
  {
    hide Alike, ParseCommand, Script, Reaches, ReadsFrom, RunLine, Words, NextLine, MarksOf;
    var np0, m := np.(jump := None), Compiled(env);
    FirstAlike(env, cs, foffs, k, np0, nt, trace);
    RunLineStep(env, cs, foffs, nt, trace);
    var r := ParseCommand(np0, Script(env.file, 0)[k].toks, k, env.o, trace);
    var t := ParseCommand(nt, Words(env.shells(trace).(fail := nt.fail), RawTokens(cs[0].text)), foffs + cs[0].loffs,
                          env.o, trace);
    TopsAlike(MarksOf(env.file), r.0, t.0);
    var c := Running(np, k, trace, err);
    ReachStep(Stepper(m), c);
    assert Step(m, c) == Advance(m, k, r);
    if !r.2 || r.0.jump.Some? || |cs| == 1 {
      n, np' := 1, r.0;
    } else {
      assert r.0.(jump := None) == r.0;
      n, np' := LineAlike(env, cs[1..], foffs, k + 1, r.0, t.0, r.1, false);
      ReachTrans(Stepper(m), c, 1, Running(r.0, k + 1, r.1, false), n,
                 Stands(env, np', k + |cs|, RunLine(env, cs, true, foffs, nt, trace)));
      n := n + 1;
    }
  }

  // ----- Files -----

  // The machine at a command and the text at its first byte.  A jump that has been made does not
  // matter any more.
  ghost predicate Same(env: TextEnv, c: Config, t: Config) {
    && Alike(MarksOf(env.file), c.np.(jump := None), t.np.(jump := None))
    && t.trace == c.trace && t.err == c.err && t.Running? == c.Running?
    && (c.Running? ==> Entry(Script(env.file, 0), c.pc) && t.pc == Position(env.file, 0, c.pc))
  }

  // One line of the text, read where command k begins.
  lemma {:induction false} LineStep(env: TextEnv, t: Config, k: nat)
    requires t.Running? && t.pc == Position(env.file, 0, k) && Reads(env.file, 0, env.most, k)
    ensures t.pc < |env.file|
    ensures var line := LineAt(env.file, t.pc);
            var cmds := Split(line).cmds;
            var out := RunLine(env, cmds, true, t.pc, t.np.(jump := None), t.trace);
            && cmds != [] && ReadsFrom(env.file, cmds, t.pc, k)
            && TextStep(env, t) ==
               if !out.2 && !env.ignore then Halted(out.0, out.1, true)
               else Running(out.0, if out.0.jump.Some? then out.0.jump.value else t.pc + |line|, out.1, !out.2)
  {
    hide Script, RunLine, Position, Split, LineLength, ReadsCommand;
    assert ReadLine(env.file, t.pc, env.most) == LineAt(env.file, t.pc);
  }

  // One line of the text is some steps of the machine.
  lemma {:induction false} StepAlike(env: TextEnv, c: Config, t: Config) returns (n: nat, c': Config)
    requires Regular(env.file, 0, env.most) && c.Running? && Same(env, c, t)
    ensures n > 0 && Reaches(Stepper(Compiled(env)), c, n, c') && Same(env, c', TextStep(env, t))
  {
    hide Alike, Script, Reaches, RunLine, Regular, Position, MarksOf, Reads, Split, LineLength, ReadsFrom, Entry;
    if c.pc >= |Script(env.file, 0)| {
      LastPosition(env.file, 0, c.pc);
      ReachStep(Stepper(Compiled(env)), c);
      n, c' := 1, Halted(c.np, c.trace, c.err);
    } else {
      hide TextStep;
      ReadAt(env.file, 0, env.most, c.pc);
      LineStep(env, t, c.pc);
      var cmds, nt := Split(LineAt(env.file, t.pc)).cmds, t.np.(jump := None);
      var np';
      n, np' := LineAlike(env, cmds, t.pc, c.pc, c.np, nt, c.trace, c.err);
      var out := RunLine(env, cmds, true, t.pc, nt, c.trace);
      c' := Stands(env, np', c.pc + |cmds|, out);
      GoesOn(env, np', out.0, c.pc, |cmds|);
      NoJumpAlike(env.file, np', out.0);
    }
  }

  lemma NoJumpAlike(file: string, np: Np, nt: Np)
    requires Alike(MarksOf(file), np, nt)
    ensures Alike(MarksOf(file), np.(jump := None), nt.(jump := None))
  {
  }

  // The next command is the top of a loop or begins a line.
  lemma {:induction false} GoesOn(env: TextEnv, np: Np, nt: Np, k: nat, n: nat)
    requires Alike(MarksOf(env.file), np, nt) && Reads(env.file, 0, env.most, k)
    requires n == |Split(LineAt(env.file, Position(env.file, 0, k))).cmds|
    ensures nt.jump.Some? == np.jump.Some?
    ensures var next := if np.jump.Some? then np.jump.value else k + n;
            && Entry(Script(env.file, 0), next)
            && (if np.jump.Some? then nt.jump.value
                else Position(env.file, 0, k) + |LineAt(env.file, Position(env.file, 0, k))|) ==
                    Position(env.file, 0, next)
  {
    hide Script, Position, Split;
    if np.jump.Some? {
      assert Mark(env.file, np.jump.value, nt.jump.value);
    } else {
      var s := Split(LineAt(env.file, Position(env.file, 0, k)));
      assert ReadsCommand(env.file, 0, k + (n - 1), s.cmds[n - 1], Position(env.file, 0, k) + s.cmds[n - 1].loffs,
                          true);
    }
  }

  lemma RestingText(env: TextEnv, t: Config)
    requires t.Halted?
    ensures TextStep(env, t) == t
  {
  }

  lemma RestingMachine(env: Env, c: Config)
    requires c.Halted?
    ensures Step(env, c) == c
  {
  }

  lemma {:induction false} TextHalts(env: TextEnv, c: Config, n: nat, h: Config, t: Config) returns (m: nat, h': Config)
    requires Regular(env.file, 0, env.most) && Same(env, c, t) && h.Halted? && Reaches(Stepper(Compiled(env)), c, n, h)
    ensures h'.Halted? && Same(env, h, h') && Reaches(TextStepper(env), t, m, h')
    decreases n
  {
    hide Reaches, TextStep, Step, Regular, Script;
    var f, g := Stepper(Compiled(env)), TextStepper(env);
    RestingMachine(Compiled(env), h);
    if c.Halted? {
      RestingMachine(Compiled(env), c);
      ReachNone(f, c);
      HaltsOnce(f, c, 0, c, n, h);
      ReachNone(g, t);
      m, h' := 0, t;
    } else {
      var k, c' := StepAlike(env, c, t);
      var t' := TextStep(env, t);
      ReachStep(g, t);
      if c'.Halted? {
        RestingMachine(Compiled(env), c');
        HaltsOnce(f, c, k, c', n, h);
        m, h' := 1, t';
      } else {
        HaltsLater(f, c, k, c', n, h);
        m, h' := TextHalts(env, c', n - k, h, t');
        ReachTrans(g, t, 1, t', m, h');
        m := m + 1;
      }
    }
  }

  lemma {:induction false} MachineHalts(env: TextEnv, t: Config, m: nat, h: Config, c: Config)
    returns (n: nat, h': Config)
    requires Regular(env.file, 0, env.most) && Same(env, c, t) && h.Halted? && Reaches(TextStepper(env), t, m, h)
    ensures h'.Halted? && Same(env, h', h) && Reaches(Stepper(Compiled(env)), c, n, h')
    decreases m
  {
    hide Reaches, TextStep, Step, Regular, Script;
    var f, g := Stepper(Compiled(env)), TextStepper(env);
    RestingText(env, h);
    if t.Halted? {
      RestingText(env, t);
      ReachNone(g, t);
      HaltsOnce(g, t, 0, t, m, h);
      ReachNone(f, c);
      n, h' := 0, c;
    } else {
      var k, c' := StepAlike(env, c, t);
      var t' := TextStep(env, t);
      ReachStep(g, t);
      if t'.Halted? {
        RestingText(env, t');
        HaltsOnce(g, t, 1, t', m, h);
        n, h' := k, c';
      } else {
        HaltsLater(g, t, 1, t', m, h);
        n, h' := MachineHalts(env, t', m - 1, h, c');
        ReachTrans(f, c, k, c', n, h');
        n := n + k;
      }
    }
  }

  // nsh_script on the file, with no loop open, returns with `res` to be seen.
  ghost predicate FileGives(env: TextEnv, np: Np, s: Obs, res: Obs) {
    exists m, h: Config :: Reaches(TextStepper(env), Running(np, 0, s.trace, s.err), m, h) && Shows(h, res)
  }

  lemma {:induction false} StartsAlike(env: TextEnv, np: Np, s: Obs)
    requires Regular(env.file, 0, env.most) && np.lpndx == 0
    ensures Same(env, Running(np, 0, s.trace, s.err), Running(np, 0, s.trace, s.err))
  {
    hide Script;
    FirstPosition(env.file, 0, env.most);
  }

  /** A regular file is run from its text as its commands are run by the machine: one returns exactly
      if the other does, after the same commands and with the same status and return value. */
  lemma {:induction false} FileIsMachine(env: TextEnv, np: Np, s: Obs, res: Obs)
    requires Regular(env.file, 0, env.most) && np.lpndx == 0
    ensures FileGives(env, np, s, res) <==> MachineGives(Compiled(env), np, s, res)
  {
    hide Reaches, Regular, Script;
    var c := Running(np, 0, s.trace, s.err);
    StartsAlike(env, np, s);
    if FileGives(env, np, s, res) {
      var m, h: Config :| Reaches(TextStepper(env), c, m, h) && Shows(h, res);
      var n, h' := MachineHalts(env, c, m, h, c);
    }
    if MachineGives(Compiled(env), np, s, res) {
      var n, h: Config :| Reaches(Stepper(Compiled(env)), c, n, h) && Shows(h, res);
      var m, h' := TextHalts(env, c, n, h, c);
    }
  }

  /** From bytes to meaning: a regular file whose commands are a faithful script runs as the script's
      tree means. */
  lemma {:induction false} FileMeansItsTree(env: TextEnv, p: Prog, np: Np, s: Obs, res: Obs)
    requires Regular(env.file, 0, env.most) && np.lpndx == 0
    requires Loaded(Compiled(env), p, np, s) && Faithful(p, false, false)
    ensures FileGives(env, np, s, res) <==> Means(Compiled(env), p, s, res)
  {
    hide FileGives, MachineGives, Means, Regular, Loaded, Faithful, Script;
    FileIsMachine(env, np, s, res);
    ScriptMeansItsTree(Compiled(env), p, np, s, res);
  }
}
