/** The parser as nsh_parse.c has it: one object whose stacks, indices and flags are updated in
    place.  Each method is proved to do what the function of NshMachine says. */
module NshParser {
  import opened Basics
  import opened NshMachine

  class Parser {
    const ie: array<Itef>         // np_iestate
    const lp: array<LoopEntry>    // np_lpstate
    var iendx: nat
    var lpndx: nat
    var fail: bool
    var jump: Option<nat>
    var stream: bool
    var said: nat                 // messages printed

    ghost predicate Valid()
      reads this, ie, lp
    {
      InRange(Np(ie[..], iendx, lp[..], lpndx, fail, jump, stream, said))
    }

    // The state as a value.
    ghost function View(): Np
      requires Valid()
      reads this, ie, lp
    {
      Np(ie[..], iendx, lp[..], lpndx, fail, jump, stream, said)
    }

    constructor (depth: nat, stream: bool)
      requires depth > 0
      ensures Valid() && fresh(ie) && fresh(lp)
      ensures View() == Initial(depth, stream)
    {
      ie := new Itef[depth](_ => Itef(false, false, false, ItefNormal));
      lp := new LoopEntry[depth](_ => LoopEntry(LoopNormal, false, 0, 0));
      iendx, lpndx, fail, jump, said := 0, 0, false, None, 0;
      this.stream := stream;
      new;
      assert ie[..] == seq(depth, _ => Itef(false, false, false, ItefNormal));
      assert lp[..] == seq(depth, _ => LoopEntry(LoopNormal, false, 0, 0));
    }

    method LoopIsEnabled() returns (enabled: bool)
      requires Valid()
      ensures enabled == LoopEnabled(View())
    {
      if lp[lpndx].state == LoopDo {
        return lp[lpndx].enable;
      }
      return true;
    }

    method ItefIsEnabled() returns (enabled: bool)
      requires Valid()
      ensures enabled == ItefEnabled(View())
    {
      enabled := !ie[iendx].disabled;
      if enabled {
        match ie[iendx].state
        case ItefThen => enabled := !ie[iendx].ifcond;
        case ItefElse => enabled := ie[iendx].ifcond;
        case _ =>
      }
    }

    method CmdIsEnabled() returns (enabled: bool)
      requires Valid()
      ensures enabled == CmdEnabled(View())
    {
      enabled := LoopIsEnabled();
      if enabled {
        enabled := ItefIsEnabled();
      }
    }

    method Save(result: bool) returns (ok: bool)
      requires Valid()
      modifies this, ie, lp
      ensures Valid() && (View(), ok) == SaveResult(old(View()), result)
    {
      hide Keeps;
      if lp[lpndx].state == LoopWhile {
        fail := false;
        lp[lpndx] := lp[lpndx].(enable := !result);
        ok := true;
      } else if lp[lpndx].state == LoopUntil {
        fail := false;
        lp[lpndx] := lp[lpndx].(enable := result);
        ok := true;
      } else if ie[iendx].state == ItefIf {
        fail := false;
        ie[iendx] := ie[iendx].(ifcond := ie[iendx].inverted != result);
        ok := true;
      } else {
        fail := result;
        ok := !result;
      }
    }

    method ResetLoops(ghost toks: Argv, ghost e: Error)
      requires Valid()
      modifies this, lp
      ensures Valid() && Parsed(View(), toks, Some(e)) == LoopError(old(View()), toks, e)
    {
      said := said + 1;
      jump := None;
      lpndx := 0;
      lp[0] := lp[0].(state := LoopNormal, enable := true, topoffs := 0);
    }

    method ResetItefs(ghost toks: Argv, ghost e: Error)
      requires Valid()
      modifies this, ie
      ensures Valid() && Parsed(View(), toks, Some(e)) == ItefError(old(View()), toks, e)
    {
      said := said + 1;
      iendx := 0;
      ie[0] := Itef(false, false, false, ItefNormal);
    }

    method EnterLoop(state: LoopState, offset: nat)
      requires Valid() && lpndx + 1 < lp.Length && !AwaitsDo(View()) && state != LoopNormal
      modifies this, lp
      ensures Valid() && View() == PushLoop(old(View()), state, offset)
    {
      hide Keeps;
      var enable := CmdIsEnabled();
      jump := None;
      lpndx := lpndx + 1;
      lp[lpndx] := LoopEntry(state, enable, iendx, offset);
    }

    method LeaveLoop()
      requires Valid() && lpndx > 0 && lp[lpndx].state == LoopDo
      modifies this, lp
      ensures Valid() && View() == PopLoop(old(View()))
    {
      hide Keeps;
      if lp[lpndx].enable {
        jump := Some(lp[lpndx].topoffs);
      } else {
        lp[lpndx] := lp[lpndx].(enable := true);
      }
      lp[lpndx] := lp[lpndx].(state := LoopNormal);
      lpndx := lpndx - 1;
    }

    // nsh_loop
    method Loop(toks: Argv, offset: nat) returns (rest: Argv, err: Option<Error>)
      requires Valid()
      modifies this, lp
      ensures Valid() && Parsed(View(), rest, err) == ParseLoop(old(View()), toks, offset)
    {
      hide Keeps, LoopError, PushLoop, PopLoop, CmdEnabled, LoopEnabled, ItefEnabled;
      rest, err := toks, None;
      if toks == [] {
        return;
      }
      if toks[0] == While || toks[0] == Until {
        rest := toks[1..];
        if rest == [] || rest[0] == Word("") {
          err := Some(ArgInvalid);
        } else if ie[iendx].state == ItefIf || lp[lpndx].state == LoopWhile || lp[lpndx].state == LoopUntil || !stream {
          err := Some(BadContext);
        } else if lpndx >= lp.Length - 1 {
          err := Some(DeepNesting);
        } else {
          EnterLoop(if toks[0] == While then LoopWhile else LoopUntil, offset);
        }
      } else if toks[0] == Do {
        rest := toks[1..];
        if lp[lpndx].state != LoopWhile && lp[lpndx].state != LoopUntil {
          err := Some(BadContext);
        } else {
          lp[lpndx] := lp[lpndx].(state := LoopDo);
        }
      } else if toks[0] == Done {
        rest := toks[1..];
        if rest != [] {
          err := Some(ArgInvalid);
        } else if lp[lpndx].state != LoopDo {
          err := Some(BadContext);
        } else if lpndx < 1 {
          err := Some(Internal);
        } else {
          LeaveLoop();
        }
      } else if lp[lpndx].state == LoopWhile || lp[lpndx].state == LoopUntil {
        err := Some(BadContext);
      }
      if err != None {
        ResetLoops(rest, err.value);
      }
    }

    method EnterIf(inverted: bool)
      requires Valid() && iendx + 1 < ie.Length
      modifies this, ie
      ensures Valid() && View() == PushIf(old(View()), inverted)
    {
      hide Keeps;
      var enabled := CmdIsEnabled();
      iendx := iendx + 1;
      ie[iendx] := Itef(false, !enabled, inverted, ItefIf);
    }

    // nsh_itef
    method Itefs(toks: Argv) returns (rest: Argv, err: Option<Error>)
      requires Valid()
      modifies this, ie
      ensures Valid() && Parsed(View(), rest, err) == ParseItef(old(View()), toks)
    {
      hide Keeps, PushIf, ItefError, CmdEnabled, LoopEnabled, ItefEnabled;
      rest, err := toks, None;
      if toks == [] {
        return;
      }
      if toks[0] == If {
        var inverted := false;
        rest := toks[1..];
        if rest != [] && rest[0] == Bang {
          inverted := true;
          rest := toks[2..];
        }
        if rest == [] || rest[0] == Word("") {
          err := Some(ArgInvalid);
        } else if ie[iendx].state == ItefIf {
          err := Some(BadContext);
        } else if iendx >= ie.Length - 1 {
          err := Some(DeepNesting);
        } else {
          EnterIf(inverted);
        }
      } else if toks[0] == Then {
        rest := toks[1..];
        if ie[iendx].state != ItefIf {
          err := Some(BadContext);
        } else {
          ie[iendx] := ie[iendx].(state := ItefThen);
        }
      } else if toks[0] == Else {
        rest := toks[1..];
        if ie[iendx].state != ItefThen {
          err := Some(BadContext);
        } else {
          ie[iendx] := ie[iendx].(state := ItefElse);
        }
      } else if toks[0] == Fi {
        rest := toks[1..];
        if rest != [] {
          err := Some(ArgInvalid);
        } else if ie[iendx].state != ItefThen && ie[iendx].state != ItefElse {
          err := Some(BadContext);
        } else if iendx < 1 {
          err := Some(Internal);
        } else {
          iendx := iendx - 1;
        }
      } else if ie[iendx].state == ItefIf {
        err := Some(BadContext);
      }
      if err != None {
        ResetItefs(rest, err.value);
      }
    }

    // cmd_break
    method BreakLoop()
      requires Valid()
      modifies this, lp
      ensures Valid() && View() == CmdBreak(old(View()))
    {
      if lp[lpndx].state == LoopDo {
        iendx := lp[lpndx].iendx;
        lp[lpndx] := lp[lpndx].(enable := false);
      }
    }

    // nsh_execute
    method Run(argv: Argv, o: Oracle, trace: Trace) returns (trace': Trace, ok: bool)
      requires Valid() && argv != []
      modifies this, ie, lp
      ensures Valid() && (View(), trace', ok) == Execute(old(View()), argv, o, trace)
    {
      hide SaveResult, CmdBreak;
      trace' := trace;
      if argv == [Break] {
        BreakLoop();
        ok := Save(false);
      } else if argv[0] == Break {
        said := said + 1;
        ok := Save(true);
      } else {
        trace' := trace + [argv];
        ok := Save(o(trace', fail));
      }
    }

    // nsh_parse_command
    method Command(toks: Argv, offset: nat, o: Oracle, trace: Trace) returns (trace': Trace, ok: bool)
      requires Valid()
      modifies this, ie, lp
      ensures Valid() && (View(), trace', ok) == ParseCommand(old(View()), toks, offset, o, trace)
    {
      hide ParseLoop, ParseItef, SaveResult, Execute, CmdEnabled;
      trace' := trace;
      ghost var np0 := View();
      var rest, err := Loop(toks, offset);
      if err != None {
        ok := Save(true);
        return;
      }
      rest, err := Itefs(rest);
      if err != None {
        ok := Save(true);
        return;
      }
      var enabled := CmdIsEnabled();
      if rest == [] || !enabled {
        return trace, true;
      }
      trace', ok := Run(rest, o, trace);
    }

    /** nsh_script, watched for at most `budget` commands: the script itself may run for ever.
        The value returned is what nsh_script would return, once `halted`. */
    method Script(script: seq<Cmd>, o: Oracle, ignore: bool, budget: nat)
      returns (trace: Trace, err: bool, halted: bool, pc: nat)
      requires Valid()
      modifies this, ie, lp
      ensures Valid()
      ensures Reaches(Stepper(Env(script, o, ignore)), Running(old(View()), 0, [], true), budget,
                      if halted then Halted(View(), trace, err) else Running(View(), pc, trace, err))
    {
      hide ParseCommand, Step, Reaches;
      ghost var env := Env(script, o, ignore);
      ghost var start := Running(View(), 0, [], true);
      trace, err, halted, pc := [], true, false, 0;
      ReachNone(Stepper(env), start);
      for i := 0 to budget
        invariant Valid()
        invariant Reaches(Stepper(env), start, i,
                          if halted then Halted(View(), trace, err) else Running(View(), pc, trace, err))
      {
        ghost var c := if halted then Halted(View(), trace, err) else Running(View(), pc, trace, err);
        ReachMore(Stepper(env), start, i, c);
        StepIs(env, c);
        if !halted {
          if pc >= |script| {
            halted := true;
          } else {
            jump := None;
            var ok;
            trace, ok := Command(script[pc].toks, pc, o, trace);
            err := !ok;
            if !ok && !ignore {
              halted := true;
            } else if jump.Some? {
              pc := jump.value;
            } else if !ok {
              pc := NextLine(script, pc);
            } else {
              pc := pc + 1;
            }
          }
        }
      }
    }
  }

  // Step, with its definition put in words the loop of Script uses.
  lemma StepIs(env: Env, c: Config)
    ensures c.Halted? ==> Step(env, c) == c
    ensures c.Running? && c.pc >= |env.script| ==> Step(env, c) == Halted(c.np, c.trace, c.err)
    ensures c.Running? && c.pc < |env.script| ==>
              Step(env, c) ==
              Advance(env, c.pc, ParseCommand(c.np.(jump := None), env.script[c.pc].toks, c.pc, env.o, c.trace))
  {
    hide ParseCommand;
  }
}
