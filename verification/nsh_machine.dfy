/** The NSH control machine: `nsh_loop`, `nsh_itef`, `nsh_saveresult`, `cmd_break` and
    `nsh_parse_command` as functions on the parser state, and the line loop of `nsh_script`
    as a step function.  Nothing here builds a tree: the two bounded stacks, the enable bits
    and the saved loop offset are all the machine has. */
module NshMachine {
  import opened Basics

  // Tokens of one command.  Reserved words are told apart from other words; `break` is a
  // built-in command that changes the parser state, so it has its own token.
  datatype Token =
    | While | Until | Do | Done
    | If | Bang | Then | Else | Fi
    | Break
    | Word(text: string)

  type Argv = seq<Token>
  type Trace = seq<Argv>

  // The outside world: given every command run so far (the current one last) and the status
  // of the previous command, does the current command fail?
  type Oracle = (Trace, bool) -> bool

  datatype ItefState = ItefNormal | ItefIf | ItefThen | ItefElse
  datatype Itef = Itef(ifcond: bool, disabled: bool, inverted: bool, state: ItefState)

  datatype LoopState = LoopNormal | LoopWhile | LoopUntil | LoopDo
  datatype LoopEntry = LoopEntry(state: LoopState, enable: bool, iendx: nat, topoffs: nat)

  // `struct nsh_parser_s`.  `jump` is np_jump together with the position given to fseek;
  // `stream` says that a script is being read and its position is known.  `said` is the number of
  // messages printed about words that were rejected.
  datatype RawNp = Np(ie: seq<Itef>, iendx: nat, lp: seq<LoopEntry>, lpndx: nat,
                   fail: bool, jump: Option<nat>, stream: bool, said: nat)

  // Both stacks have CONFIG_NSH_NESTDEPTH entries and every index points into them.
  predicate InRange(np: RawNp) {
    && |np.ie| == |np.lp|
    && np.iendx < |np.ie|
    && np.lpndx < |np.lp|
    && forall k | 0 <= k < |np.lp| :: np.lp[k].iendx < |np.ie|
  }

  type Np = np: RawNp | InRange(np)
    witness Np([Itef(false, false, false, ItefNormal)], 0, [LoopEntry(LoopNormal, false, 0, 0)], 0,
               false, None, false, 0)

  datatype Error = ArgInvalid | BadContext | DeepNesting | Internal

  // What nsh_loop and nsh_itef hand back: the state, the tokens from the current command on,
  // and the error they reported, if any.
  datatype Parsed = Parsed(np: Np, toks: Argv, err: Option<Error>)

  function TopIe(np: Np): Itef
  {
    np.ie[np.iendx]
  }

  function TopLp(np: Np): LoopEntry
  {
    np.lp[np.lpndx]
  }

  predicate AwaitsDo(np: Np)
  {
    TopLp(np).state == LoopWhile || TopLp(np).state == LoopUntil
  }

  predicate LoopEnabled(np: Np)
  {
    TopLp(np).state == LoopDo ==> TopLp(np).enable
  }

  predicate ItefEnabled(np: Np)
  {
    && !TopIe(np).disabled
    && (TopIe(np).state == ItefThen ==> !TopIe(np).ifcond)
    && (TopIe(np).state == ItefElse ==> TopIe(np).ifcond)
  }

  predicate CmdEnabled(np: Np)
  {
    LoopEnabled(np) && ItefEnabled(np)
  }

  // What holds between any two commands, however badly the script is formed.
  ghost predicate Inv(np: Np) {
    && np.ie[0].state == ItefNormal
    && np.lp[0].state == LoopNormal
    && (forall k | 0 < k < np.lpndx :: np.lp[k].state == LoopDo)
    && (np.lpndx > 0 ==> TopLp(np).state != LoopNormal)
  }

  // A step of the machine keeps the depth of the stacks and what Inv says.
  ghost predicate Keeps(np: Np, np': Np) {
    |np'.ie| == |np.ie| && (Inv(np) ==> Inv(np'))
  }

  function SetIe(np: Np, k: nat, e: Itef): Np
    requires k < |np.ie|
  {
    np.(ie := np.ie[k := e])
  }

  function SetLp(np: Np, k: nat, e: LoopEntry): Np
    requires k < |np.lp| && e.iendx < |np.ie|
  {
    np.(lp := np.lp[k := e])
  }

  /** nsh_saveresult: a result is the loop condition, the if condition or the status of the
      last command, whichever the stacks are waiting for. */
  function SaveResult(np: Np, result: bool): (r: (Np, bool))
    ensures Keeps(np, r.0)
  {
    if TopLp(np).state == LoopWhile then
      (SetLp(np, np.lpndx, TopLp(np).(enable := !result)).(fail := false), true)
    else if TopLp(np).state == LoopUntil then
      (SetLp(np, np.lpndx, TopLp(np).(enable := result)).(fail := false), true)
    else if TopIe(np).state == ItefIf then
      (SetIe(np, np.iendx, TopIe(np).(ifcond := TopIe(np).inverted != result)).(fail := false), true)
    else
      (np.(fail := result), !result)
  }

  // A missing or empty argument after while, until, if or '!'.
  predicate NoArgument(toks: Argv) {
    toks == [] || toks[0] == Word("")
  }

  function LoopError(np: Np, toks: Argv, e: Error): (r: Parsed)
    ensures Keeps(np, r.np) && r.err == Some(e)
  {
    Parsed(SetLp(np, 0, np.lp[0].(state := LoopNormal, enable := true, topoffs := 0))
           .(jump := None, lpndx := 0, said := np.said + 1), toks, Some(e))
  }

  // A new loop waits for its condition; `offset` is where `done` will jump back to.
  function PushLoop(np: Np, state: LoopState, offset: nat): (r: Np)
    requires np.lpndx + 1 < |np.lp| && !AwaitsDo(np) && state != LoopNormal
    ensures Keeps(np, r)
  {
    SetLp(np, np.lpndx + 1, LoopEntry(state, CmdEnabled(np), np.iendx, offset))
    .(jump := None, lpndx := np.lpndx + 1)
  }

  // `done`: ask for the jump if the body was enabled, and drop the loop in any case.
  function PopLoop(np: Np): (r: Np)
    requires np.lpndx > 0 && TopLp(np).state == LoopDo
    ensures Keeps(np, r)
  {
    SetLp(np, np.lpndx, TopLp(np).(state := LoopNormal, enable := true))
    .(jump := if TopLp(np).enable then Some(TopLp(np).topoffs) else np.jump, lpndx := np.lpndx - 1)
  }

  /** nsh_loop: `offset` is the position of the command being parsed. */
  function ParseLoop(np: Np, toks: Argv, offset: nat): (r: Parsed)
    ensures Keeps(np, r.np) && (Inv(np) ==> r.err != Some(Internal))
  {
    if toks == [] then
      Parsed(np, toks, None)
    else if toks[0] == While || toks[0] == Until then
      var rest := toks[1..];
      if NoArgument(rest) then
        LoopError(np, rest, ArgInvalid)
      else if TopIe(np).state == ItefIf || AwaitsDo(np) || !np.stream then
        LoopError(np, rest, BadContext)
      else if np.lpndx >= |np.lp| - 1 then
        LoopError(np, rest, DeepNesting)
      else
        Parsed(PushLoop(np, if toks[0] == While then LoopWhile else LoopUntil, offset), rest, None)
    else if toks[0] == Do then
      if !AwaitsDo(np) then
        LoopError(np, toks[1..], BadContext)
      else
        Parsed(SetLp(np, np.lpndx, TopLp(np).(state := LoopDo)), toks[1..], None)
    else if toks[0] == Done then
      if toks[1..] != [] then
        LoopError(np, toks[1..], ArgInvalid)
      else if TopLp(np).state != LoopDo then
        LoopError(np, [], BadContext)
      else if np.lpndx < 1 then
        LoopError(np, [], Internal)
      else
        Parsed(PopLoop(np), [], None)
    else if AwaitsDo(np) then
      LoopError(np, toks, BadContext)
    else
      Parsed(np, toks, None)
  }

  /** A loop is opened if and only if a script is being read, nothing else awaits its condition, there
      is room on the stack and a condition follows. */
  lemma LoopOpensIff(np: Np, toks: Argv, offset: nat)
    requires toks != [] && toks[0] in {While, Until}
    ensures ParseLoop(np, toks, offset).np.lpndx == np.lpndx + 1 <==>
            && np.stream && !NoArgument(toks[1..]) && np.lpndx + 1 < |np.lp|
            && TopIe(np).state != ItefIf && !AwaitsDo(np)
  {
    hide Keeps, NoArgument, CmdEnabled;
  }

  function ItefError(np: Np, toks: Argv, e: Error): (r: Parsed)
    ensures Keeps(np, r.np) && r.err == Some(e)
  {
    Parsed(SetIe(np, 0, Itef(false, false, false, ItefNormal)).(iendx := 0, said := np.said + 1), toks, Some(e))
  }

  // A new `if` waits for its condition.
  function PushIf(np: Np, inverted: bool): (r: Np)
    requires np.iendx + 1 < |np.ie|
    ensures Keeps(np, r)
  {
    SetIe(np, np.iendx + 1, Itef(false, !CmdEnabled(np), inverted, ItefIf)).(iendx := np.iendx + 1)
  }

  /** nsh_itef. */
  function ParseItef(np: Np, toks: Argv): (r: Parsed)
    ensures Keeps(np, r.np) && (Inv(np) ==> r.err != Some(Internal))
  {
    if toks == [] then
      Parsed(np, toks, None)
    else if toks[0] == If then
      var inverted := |toks| > 1 && toks[1] == Bang;
      var rest := if inverted then toks[2..] else toks[1..];
      if NoArgument(rest) then
        ItefError(np, rest, ArgInvalid)
      else if TopIe(np).state == ItefIf then
        ItefError(np, rest, BadContext)
      else if np.iendx >= |np.ie| - 1 then
        ItefError(np, rest, DeepNesting)
      else
        Parsed(PushIf(np, inverted), rest, None)
    else if toks[0] == Then then
      if TopIe(np).state != ItefIf then
        ItefError(np, toks[1..], BadContext)
      else
        Parsed(SetIe(np, np.iendx, TopIe(np).(state := ItefThen)), toks[1..], None)
    else if toks[0] == Else then
      if TopIe(np).state != ItefThen then
        ItefError(np, toks[1..], BadContext)
      else
        Parsed(SetIe(np, np.iendx, TopIe(np).(state := ItefElse)), toks[1..], None)
    else if toks[0] == Fi then
      if toks[1..] != [] then
        ItefError(np, toks[1..], ArgInvalid)
      else if TopIe(np).state != ItefThen && TopIe(np).state != ItefElse then
        ItefError(np, [], BadContext)
      else if np.iendx < 1 then
        ItefError(np, [], Internal)
      else
        Parsed(np.(iendx := np.iendx - 1), [], None)
    else if TopIe(np).state == ItefIf then
      ItefError(np, toks, BadContext)
    else
      Parsed(np, toks, None)
  }

  /** cmd_break: pops the if stack to where the loop began and disables the loop body. */
  function CmdBreak(np: Np): (r: Np)
    ensures Keeps(np, r)
  {
    if TopLp(np).state == LoopDo then
      SetLp(np, np.lpndx, TopLp(np).(enable := false)).(iendx := TopLp(np).iendx)
    else
      np
  }

  // nsh_execute: `break` acts on the parser, and the command table allows it no arguments; everything
  // else is a command of the world.
  function Execute(np: Np, argv: Argv, o: Oracle, trace: Trace): (r: (Np, Trace, bool))
    ensures Keeps(np, r.0)
    requires argv != []
  {
    if argv == [Break] then
      var s := SaveResult(CmdBreak(np), false);
      (s.0, trace, s.1)
    else if argv[0] == Break then
      var s := SaveResult(np.(said := np.said + 1), true);
      (s.0, trace, s.1)
    else
      var trace' := trace + [argv];
      var s := SaveResult(np, o(trace', np.fail));
      (s.0, trace', s.1)
  }

  // nsh_parse_command from the point where nsh_itef has returned.
  function AfterItef(itef: Parsed, o: Oracle, trace: Trace): (r: (Np, Trace, bool))
    ensures Keeps(itef.np, r.0)
  {
    if itef.err != None then
      var s := SaveResult(itef.np, true);
      (s.0, trace, s.1)
    else if itef.toks == [] || !CmdEnabled(itef.np) then
      (itef.np, trace, true)
    else
      Execute(itef.np, itef.toks, o, trace)
  }

  // nsh_parse_command from the point where nsh_loop has returned.
  function AfterLoop(loop: Parsed, o: Oracle, trace: Trace): (r: (Np, Trace, bool))
    ensures Keeps(loop.np, r.0)
  {
    if loop.err != None then
      var s := SaveResult(loop.np, true);
      (s.0, trace, s.1)
    else
      AfterItef(ParseItef(loop.np, loop.toks), o, trace)
  }

  /** nsh_parse_command: the last component is true for OK and false for ERROR. */
  function ParseCommand(np: Np, toks: Argv, offset: nat, o: Oracle, trace: Trace): (r: (Np, Trace, bool))
    ensures Keeps(np, r.0)
  {
    AfterLoop(ParseLoop(np, toks, offset), o, trace)
  }

  // ----- Words that are rejected -----

  // The innermost loop has its condition but no `do` yet.
  ghost predicate LoopWaits(np: Np) {
    np.lp[np.lpndx].state in {LoopWhile, LoopUntil}
  }

  // nsh_loop has something against the command.
  ghost predicate BadLoopWord(np: Np, toks: Argv) {
    if toks == [] then false
    else if toks[0] in {While, Until} then
      || |toks| == 1 || toks[1] == Word("")
      || !np.stream || LoopWaits(np) || np.ie[np.iendx].state == ItefIf || np.lpndx + 1 == |np.lp|
    else if toks[0] == Do then !LoopWaits(np)
    else if toks[0] == Done then |toks| > 1 || np.lp[np.lpndx].state != LoopDo || np.lpndx == 0
    else LoopWaits(np)
  }

  /** nsh_loop rejects a command exactly if it is a loop word out of place, without its condition or
      too deep, or stands where `do` should.  After that no loop is open and no jump is asked for, one
      message is printed and the if stack is as it was. */
  lemma LoopRejectsIff(np: Np, toks: Argv, offset: nat)
    ensures var r := ParseLoop(np, toks, offset);
            && (r.err != None <==> BadLoopWord(np, toks))
            && (r.err != None ==>
                  && r.np.lpndx == 0 && r.np.jump == None && r.np.said == np.said + 1
                  && r.np.lp == np.lp[0 := LoopEntry(LoopNormal, true, np.lp[0].iendx, 0)]
                  && r.np.ie == np.ie && r.np.iendx == np.iendx)
            && (r.err == None ==> r.np.said == np.said && r.np.ie == np.ie && r.np.iendx == np.iendx)
  {
    hide Keeps, Inv, CmdEnabled;
  }

  // nsh_itef has something against the command.
  ghost predicate BadIfWord(np: Np, toks: Argv) {
    var state := np.ie[np.iendx].state;
    if toks == [] then false
    else if toks[0] == If then
      var at := if |toks| > 1 && toks[1] == Bang then 2 else 1;
      |toks| == at || toks[at] == Word("") || state == ItefIf || np.iendx + 1 == |np.ie|
    else if toks[0] == Then then state != ItefIf
    else if toks[0] == Else then state != ItefThen
    else if toks[0] == Fi then |toks| > 1 || state !in {ItefThen, ItefElse} || np.iendx == 0
    else state == ItefIf
  }

  /** The same for nsh_itef: after a rejected word no `if` is open, and the loops are as they were. */
  lemma IfRejectsIff(np: Np, toks: Argv)
    ensures var r := ParseItef(np, toks);
            && (r.err != None <==> BadIfWord(np, toks))
            && (r.err != None ==>
                  r.np == np.(ie := np.ie[0 := Itef(false, false, false, ItefNormal)], iendx := 0, said := np.said + 1))
            && (r.err == None ==> r.np == np.(ie := r.np.ie, iendx := r.np.iendx))
  {
    hide Keeps, Inv, CmdEnabled, InRange;
    if toks != [] && toks[0] == If {
      NewIfRejectedIff(np, toks);
    }
  }

  lemma NewIfRejectedIff(np: Np, toks: Argv)
    requires toks != [] && toks[0] == If
    ensures var r := ParseItef(np, toks);
            && (r.err != None <==> BadIfWord(np, toks))
            && (r.err != None ==>
                  r.np == np.(ie := np.ie[0 := Itef(false, false, false, ItefNormal)], iendx := 0, said := np.said + 1))
            && (r.err == None ==> r.np == np.(ie := r.np.ie, iendx := r.np.iendx))
  {
    hide Keeps, Inv, CmdEnabled;
  }

  /** A command that begins with a rejected loop word runs nothing and fails, and leaves no loop open
      and no jump asked for.  Where the condition of an `if` is due it does not fail, but is taken for
      a condition that does. */
  lemma RejectedLoopWord(np: Np, toks: Argv, offset: nat, o: Oracle, trace: Trace)
    requires BadLoopWord(np, toks)
    ensures var (np', trace', ok) := ParseCommand(np, toks, offset, o, trace);
            && trace' == trace && np'.lpndx == 0 && np'.jump == None
            && (ok <==> np.ie[np.iendx].state == ItefIf)
            && np'.fail == !ok && np'.iendx == np.iendx
            && np'.ie == if ok then np.ie[np.iendx := np.ie[np.iendx].(ifcond := !np.ie[np.iendx].inverted)] else np.ie
  {
    hide Keeps, Inv, BadLoopWord, ParseLoop;
    LoopRejectsIff(np, toks, offset);
  }

  // ----- The script loop -----

  // One command of a script; `eol` marks the last command of its line.
  datatype Cmd = Cmd(toks: Argv, eol: bool)

  // What does not change while a script runs; `ignore` is the flag NSH_PFLAG_IGNORE.
  datatype Env = Env(script: seq<Cmd>, o: Oracle, ignore: bool)

  // `err` is the value nsh_script returns if the file ends here.
  datatype Config =
    | Running(np: Np, pc: nat, trace: Trace, err: bool)
    | Halted(np: Np, trace: Trace, err: bool)

  // The first command of the line after the one holding command `pc`.
  function NextLine(script: seq<Cmd>, pc: nat): (next: nat)
    ensures pc < next
    decreases |script| - pc
  {
    if pc >= |script| || script[pc].eol then pc + 1 else NextLine(script, pc + 1)
  }

  // What nsh_parse and nsh_script do with the outcome of command `pc`.
  function Advance(env: Env, pc: nat, out: (Np, Trace, bool)): Config {
    var (np, trace, ok) := out;
    if !ok && !env.ignore then
      Halted(np, trace, true)
    else if np.jump.Some? then
      Running(np, np.jump.value, trace, !ok)
    else if !ok then
      Running(np, NextLine(env.script, pc), trace, true)
    else
      Running(np, pc + 1, trace, false)
  }

  /** One command of the script: parse it, then go to the loop top if `done` asked for it,
      give up the line (and the script, unless errors are ignored) on ERROR, or go on. */
  function Step(env: Env, c: Config): Config {
    match c
    case Halted(_, _, _) => c
    case Running(np, pc, trace, err) =>
      if pc >= |env.script| then
        Halted(np, trace, err)
      else
        Advance(env, pc, ParseCommand(np.(jump := None), env.script[pc].toks, pc, env.o, trace))
  }

  function Iterate<T>(f: T -> T, x: T, n: nat): T
    decreases n
  {
    if n == 0 then x else Iterate(f, f(x), n - 1)
  }

  lemma {:induction false} IterateCompose<T>(f: T -> T, x: T, m: nat, n: nat)
    ensures Iterate(f, x, m + n) == Iterate(f, Iterate(f, x, m), n)
    decreases m
  {
    if m > 0 {
      IterateCompose(f, f(x), m - 1, n);
    }
  }

  lemma {:induction false} IterateFixed<T>(f: T -> T, x: T, n: nat)
    requires f(x) == x
    ensures Iterate(f, x, n) == x
    decreases n
  {
    if n > 0 {
      IterateFixed(f, x, n - 1);
    }
  }

  function Stepper(env: Env): Config -> Config {
    c => Step(env, c)
  }

  // After n steps of f the machine is in configuration d.
  ghost predicate Reaches(f: Config -> Config, c: Config, n: nat, d: Config) {
    Iterate(f, c, n) == d
  }

  lemma ReachNone(f: Config -> Config, c: Config)
    ensures Reaches(f, c, 0, c)
  {
  }

  lemma ReachStep(f: Config -> Config, c: Config)
    ensures Reaches(f, c, 1, f(c))
  {
    assert Iterate(f, f(c), 0) == f(c);
  }

  lemma ReachTrans(f: Config -> Config, b: Config, m: nat, c: Config, n: nat, d: Config)
    requires Reaches(f, b, m, c) && Reaches(f, c, n, d)
    ensures Reaches(f, b, m + n, d)
  {
    hide Iterate;
    IterateCompose(f, b, m, n);
  }

  lemma ReachMore(f: Config -> Config, b: Config, m: nat, c: Config)
    requires Reaches(f, b, m, c)
    ensures Reaches(f, b, m + 1, f(c))
  {
    hide Reaches;
    ReachStep(f, c);
    ReachTrans(f, b, m, c, 1, f(c));
  }

  // A run that has come to rest after n steps and is still going after m has m < n, and comes to
  // rest n - m steps later.
  lemma HaltsLater(f: Config -> Config, b: Config, m: nat, c: Config, n: nat, h: Config)
    requires Reaches(f, b, m, c) && Reaches(f, b, n, h) && c.Running? && h.Halted? && f(h) == h
    ensures m < n && Reaches(f, c, n - m, h)
  {
    hide Iterate;
    if m >= n {
      IterateCompose(f, b, n, m - n);
      IterateFixed(f, h, m - n);
    } else {
      IterateCompose(f, b, m, n - m);
    }
  }

  lemma HaltsOnce(f: Config -> Config, b: Config, m: nat, g: Config, n: nat, h: Config)
    requires Reaches(f, b, m, g) && Reaches(f, b, n, h) && f(g) == g && f(h) == h
    ensures g == h
  {
    hide Iterate;
    if m <= n {
      IterateCompose(f, b, m, n - m);
      IterateFixed(f, g, n - m);
    } else {
      IterateCompose(f, b, n, m - n);
      IterateFixed(f, h, m - n);
    }
  }

  // ----- Safety over every command sequence -----

  // The parser state as allocated: all zero.
  function Initial(depth: nat, stream: bool): (np: Np)
    requires depth > 0
    ensures Inv(np)
  {
    Np(seq(depth, _ => Itef(false, false, false, ItefNormal)), 0,
       seq(depth, _ => LoopEntry(LoopNormal, false, 0, 0)), 0, false, None, stream, 0)
  }

  // Any sequence of commands, with whatever offsets, fed to nsh_parse_command.
  function Feed(np: Np, cmds: seq<(nat, Argv)>, o: Oracle, trace: Trace): (Np, Trace)
    decreases |cmds|
  {
    if cmds == [] then
      (np, trace)
    else
      var (np', trace', _) := ParseCommand(np.(jump := None), cmds[0].1, cmds[0].0, o, trace);
      Feed(np', cmds[1..], o, trace')
  }

  /** Over every sequence of commands, ill-formed or not and with `break` anywhere, the stacks
      stay within bounds and well formed, and the next command reaches neither of the branches
      marked "Shouldn't happen". */
  lemma {:induction false} StacksStayWellFormed(np: Np, cmds: seq<(nat, Argv)>, o: Oracle, trace: Trace)
    requires Inv(np)
    ensures var np' := Feed(np, cmds, o, trace).0;
            && Inv(np') && |np'.ie| == |np.ie|
            && forall toks, offset ::
              var loop := ParseLoop(np', toks, offset);
              loop.err != Some(Internal) && ParseItef(loop.np, loop.toks).err != Some(Internal)
    decreases |cmds|
  {
    if cmds != [] {
      var (np', trace', _) := ParseCommand(np.(jump := None), cmds[0].1, cmds[0].0, o, trace);
      StacksStayWellFormed(np', cmds[1..], o, trace');
    }
  }

  // ----- A suppressed `if` silences everything up to its `fi` -----

  // Level k of the if stack and every level above it are disabled.
  ghost predicate SilentFrom(np: Np, k: nat) {
    0 < k <= np.iendx && forall j | k <= j <= np.iendx :: np.ie[j].disabled
  }

  // Neither nsh_loop nor nsh_itef reports an error on this command.
  ghost predicate ErrorFree(np: Np, toks: Argv, offset: nat) {
    var loop := ParseLoop(np, toks, offset);
    loop.err == None && ParseItef(loop.np, loop.toks).err == None
  }

  // `cmds` are error-free and the `if` at level k is never closed.
  ghost predicate StaysOpen(np: Np, cmds: seq<(nat, Argv)>, o: Oracle, trace: Trace, k: nat)
    decreases |cmds|
  {
    cmds == [] ||
    (ErrorFree(np.(jump := None), cmds[0].1, cmds[0].0) &&
     var (np', trace', _) := ParseCommand(np.(jump := None), cmds[0].1, cmds[0].0, o, trace);
     k <= np'.iendx && StaysOpen(np', cmds[1..], o, trace', k))
  }

  lemma LoopLeavesIfStack(np: Np, toks: Argv, offset: nat)
    ensures var r := ParseLoop(np, toks, offset).np;
            r.ie == np.ie && r.iendx == np.iendx && r.fail == np.fail
  {
    hide Keeps, Inv, CmdEnabled, NoArgument, AwaitsDo;
  }

  lemma SilentItef(np: Np, toks: Argv, k: nat)
    requires SilentFrom(np, k)
    requires ParseItef(np, toks).err == None
    ensures var r := ParseItef(np, toks).np;
            r.fail == np.fail && (if k <= r.iendx then SilentFrom(r, k) else ParseItef(np, toks).toks == [])
  {
    hide Keeps;
  }

  lemma SilentAfterItef(itef: Parsed, o: Oracle, trace: Trace, k: nat)
    requires itef.err == None && (itef.toks == [] || SilentFrom(itef.np, k))
    ensures AfterItef(itef, o, trace) == (itef.np, trace, true)
  {
    hide Keeps;
  }

  lemma SilentCommand(np: Np, toks: Argv, offset: nat, o: Oracle, trace: Trace, k: nat)
    requires SilentFrom(np, k) && ErrorFree(np, toks, offset)
    ensures var (np', trace', ok) := ParseCommand(np, toks, offset, o, trace);
            trace' == trace && np'.fail == np.fail && ok && (k <= np'.iendx ==> SilentFrom(np', k))
  {
    hide Keeps;
    var loop := ParseLoop(np, toks, offset);
    LoopLeavesIfStack(np, toks, offset);
    SilentItef(loop.np, loop.toks, k);
    SilentAfterItef(ParseItef(loop.np, loop.toks), o, trace, k);
  }

  /** Once an `if` is entered with commands suppressed (level k), no simple command and no loop
      or if condition runs, and the last status does not change, whatever commands follow, up to
      and including the `fi` that closes it. */
  lemma {:induction false} SuppressedIfIsSilent(np: Np, cmds: seq<(nat, Argv)>, last: (nat, Argv),
                                                o: Oracle, trace: Trace, k: nat)
    requires SilentFrom(np, k) && StaysOpen(np, cmds, o, trace, k)
    requires ErrorFree(Feed(np, cmds, o, trace).0.(jump := None), last.1, last.0)
    ensures var (np', trace') := Feed(np, cmds + [last], o, trace);
            trace' == trace && np'.fail == np.fail
    decreases |cmds|
  {
    hide Keeps;
    var np0 := np.(jump := None);
    if cmds == [] {
      SilentCommand(np0, last.1, last.0, o, trace, k);
      assert (cmds + [last])[1..] == [];
    } else {
      SilentCommand(np0, cmds[0].1, cmds[0].0, o, trace, k);
      var (np', trace', _) := ParseCommand(np0, cmds[0].1, cmds[0].0, o, trace);
      SuppressedIfIsSilent(np', cmds[1..], last, o, trace', k);
      assert (cmds + [last])[1..] == cmds[1..] + [last];
    }
  }

  /** An `if` met while commands are disabled is such an `if`: it opens a silent level. */
  lemma DisabledIfOpensSilence(np: Np, toks: Argv, offset: nat, o: Oracle, trace: Trace)
    requires !CmdEnabled(np) && toks != [] && toks[0] == If && ErrorFree(np, toks, offset)
    ensures var (np', trace', ok) := ParseCommand(np, toks, offset, o, trace);
            && np'.iendx == np.iendx + 1 && SilentFrom(np', np.iendx + 1)
            && trace' == trace && np'.fail == np.fail && ok
  {
    hide Keeps, SaveResult, Execute;
    assert ParseLoop(np, toks, offset) == Parsed(np, toks, None);
    assert ParseItef(np, toks).np == PushIf(np, |toks| > 1 && toks[1] == Bang);
    SilentAfterItef(ParseItef(np, toks), o, trace, np.iendx + 1);
  }
}
