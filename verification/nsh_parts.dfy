/** Commands such as `do x` and `then x` hold two things.  Here a script is cut into parts, `do` and
    `x`, and a machine that takes one part at a time is proved to run every script as the machine of
    NshMachine does.  The theorems about structured scripts are proved of the parts. */
module NshParts {
  import opened Basics
  import opened NshMachine

  predicate IsLoopWord(t: Token) {
    t == While || t == Until || t == Do || t == Done
  }

  predicate IsItefWord(t: Token) {
    t == If || t == Then || t == Else || t == Fi
  }

  // What follows `do` is not looked at by nsh_loop again, and what follows `then` and `else` by
  // neither function.  A reserved word that would have to be looked at cannot be cut off.
  predicate Lost(word: Token, next: Token) {
    IsLoopWord(next) || (word != Do && IsItefWord(next))
  }

  predicate Opens(word: Token) {
    word == Do || word == Then || word == Else
  }

  predicate Splits(toks: Argv) {
    |toks| > 1 && Opens(toks[0]) && !Lost(toks[0], toks[1])
  }

  // A part of command `at`; `more` says that the command has another part.
  datatype Part = Part(toks: Argv, at: nat, more: bool)

  function CommandParts(toks: Argv, at: nat): (parts: seq<Part>)
    ensures |parts| > 0
  {
    if Splits(toks) then [Part(toks[..1], at, true), Part(toks[1..], at, false)] else [Part(toks, at, false)]
  }

  // The parts of the first k commands.
  function PartsTo(script: seq<Cmd>, k: nat): seq<Part>
    requires k <= |script|
  {
    if k == 0 then [] else PartsTo(script, k - 1) + CommandParts(script[k - 1].toks, k - 1)
  }

  function Parts(script: seq<Cmd>): seq<Part> {
    PartsTo(script, |script|)
  }

  // The number of the first part of command k.
  function Where(script: seq<Cmd>, k: nat): nat {
    |PartsTo(script, Min(k, |script|))|
  }

  lemma {:induction false} PartsGrow(script: seq<Cmd>, j: nat, k: nat)
    requires j <= k <= |script|
    ensures PartsTo(script, j) <= PartsTo(script, k)
    decreases k
  {
    if j < k {
      PartsGrow(script, j, k - 1);
    }
  }

  // Where the parts of command k stand.
  lemma PartsOfCommand(script: seq<Cmd>, k: nat)
    requires k < |script|
    ensures var parts := CommandParts(script[k].toks, k);
            && Where(script, k + 1) == Where(script, k) + |parts| <= |Parts(script)|
            && forall i | 0 <= i < |parts| :: Parts(script)[Where(script, k) + i] == parts[i]
  {
    PartsGrow(script, k + 1, |script|);
  }

  // What a part stands for.
  lemma PartInPlace(script: seq<Cmd>, i: nat)
    requires i < |Parts(script)|
    ensures var part := Parts(script)[i];
            && part.at < |script|
            && (part.more ==>
                  Splits(script[part.at].toks) && part.toks == script[part.at].toks[..1] && i == Where(script, part.at))
            && (!part.more ==> Where(script, part.at + 1) == i + 1)
            && (!part.more && i != Where(script, part.at) ==>
                  Splits(script[part.at].toks) && part.toks == script[part.at].toks[1..])
  {
    PartInPrefix(script, |script|, i);
  }

  lemma {:induction false} PartInPrefix(script: seq<Cmd>, k: nat, i: nat)
    requires k <= |script| && i < |PartsTo(script, k)|
    ensures var part := PartsTo(script, k)[i];
            && part.at < k
            && (part.more ==>
                  Splits(script[part.at].toks) && part.toks == script[part.at].toks[..1] && i == Where(script, part.at))
            && (!part.more ==> Where(script, part.at + 1) == i + 1)
            && (!part.more && i != Where(script, part.at) ==>
                  Splits(script[part.at].toks) && part.toks == script[part.at].toks[1..])
    decreases k
  {
    var before := PartsTo(script, k - 1);
    if i < |before| {
      PartInPrefix(script, k - 1, i);
    } else {
      assert PartsTo(script, k)[i] == CommandParts(script[k - 1].toks, k - 1)[i - |before|];
    }
  }

  // A part that begins with `while` or `until` is the first of its command.
  lemma LoopHeadIsFirst(script: seq<Cmd>, i: nat)
    requires i < |Parts(script)| && Parts(script)[i].toks != []
    requires Parts(script)[i].toks[0] == While || Parts(script)[i].toks[0] == Until
    ensures Where(script, Parts(script)[i].at) == i
  {
    hide Where, Parts;
    PartInPlace(script, i);
  }

  // ----- The machine on parts -----

  // What becomes of the outcome of part pc.  If the word of a first part is rejected without
  // ending the line, the rest of the command is not looked at.
  function PartAdvance(env: Env, pc: nat, part: Part, rejected: bool, out: (Np, Trace, bool)): Config {
    var (np, trace, ok) := out;
    if !ok && !env.ignore then
      Halted(np, trace, true)
    else if np.jump.Some? then
      Running(np, Where(env.script, np.jump.value), trace, !ok)
    else if !ok then
      Running(np, Where(env.script, NextLine(env.script, part.at)), trace, true)
    else if part.more && rejected then
      Running(np, Where(env.script, part.at + 1), trace, false)
    else
      Running(np, pc + 1, trace, false)
  }

  ghost function PartStep(env: Env, c: Config): Config {
    match c
    case Halted(_, _, _) => c
    case Running(np, pc, trace, err) =>
      var parts := Parts(env.script);
      if pc >= |parts| then
        Halted(np, trace, err)
      else
        var part, np0 := parts[pc], np.(jump := None);
        PartAdvance(env, pc, part, !ErrorFree(np0, part.toks, part.at),
                    ParseCommand(np0, part.toks, part.at, env.o, trace))
  }

  ghost function PartStepper(env: Env): Config -> Config {
    c => PartStep(env, c)
  }

  // A command of the script seen as parts.
  function Lift(env: Env, c: Config): Config {
    match c
    case Halted(_, _, _) => c
    case Running(np, pc, trace, err) => Running(np, Where(env.script, pc), trace, err)
  }

  // ----- Both machines run a script alike -----

  // `do x` is `do` and then `x`, if `do` is accepted, and likewise for `then` and `else`.
  lemma SplitAccepted(np: Np, toks: Argv, at: nat, o: Oracle, trace: Trace)
    requires Splits(toks) && np.jump == None && ErrorFree(np, toks[..1], at)
    ensures var (np1, trace1, ok1) := ParseCommand(np, toks[..1], at, o, trace);
            && ok1 && trace1 == trace && np1.jump == None
            && ParseCommand(np, toks, at, o, trace) == ParseCommand(np1, toks[1..], at, o, trace)
  {
    if toks[0] == Do {
      DoAccepted(np, toks, at, o, trace);
    } else {
      ThenAccepted(np, toks, at, o, trace);
    }
  }

  lemma DoAccepted(np: Np, toks: Argv, at: nat, o: Oracle, trace: Trace)
    requires Splits(toks) && toks[0] == Do && np.jump == None && ErrorFree(np, toks[..1], at)
    ensures var (np1, trace1, ok1) := ParseCommand(np, toks[..1], at, o, trace);
            && ok1 && trace1 == trace && np1.jump == None
            && ParseCommand(np, toks, at, o, trace) == ParseCommand(np1, toks[1..], at, o, trace)
  {
    hide Keeps, SaveResult, Execute, CmdEnabled, ParseItef;
    var word, rest := toks[..1], toks[1..];
    var np1 := ParseLoop(np, word, at).np;
    NoItef(np1);
    assert word[1..] == [];
    assert ParseLoop(np, toks, at) == Parsed(np1, rest, None);
    assert ParseLoop(np1, rest, at) == Parsed(np1, rest, None);
  }

  lemma NoItef(np: Np)
    ensures ParseItef(np, []) == Parsed(np, [], None)
  {
  }

  lemma ThenAccepted(np: Np, toks: Argv, at: nat, o: Oracle, trace: Trace)
    requires Splits(toks) && toks[0] != Do && np.jump == None && ErrorFree(np, toks[..1], at)
    ensures var (np1, trace1, ok1) := ParseCommand(np, toks[..1], at, o, trace);
            && ok1 && trace1 == trace && np1.jump == None
            && ParseCommand(np, toks, at, o, trace) == ParseCommand(np1, toks[1..], at, o, trace)
  {
    hide Keeps, SaveResult, Execute, CmdEnabled;
    var word, rest := toks[..1], toks[1..];
    assert word[1..] == [];
    assert ParseLoop(np, word, at) == Parsed(np, word, None);
    assert ParseLoop(np, toks, at) == Parsed(np, toks, None);
    var np1 := ParseItef(np, word).np;
    assert ParseItef(np, toks) == Parsed(np1, rest, None);
    assert ParseLoop(np1, rest, at) == Parsed(np1, rest, None);
    assert ParseItef(np1, rest) == Parsed(np1, rest, None);
  }

  // If the word is rejected, the rest of the command makes no difference.
  lemma SplitRejected(np: Np, toks: Argv, at: nat, o: Oracle, trace: Trace)
    requires Splits(toks) && !ErrorFree(np, toks[..1], at)
    ensures ParseCommand(np, toks, at, o, trace) == ParseCommand(np, toks[..1], at, o, trace)
  {
    hide Keeps, SaveResult, CmdEnabled;
    var word := toks[..1];
    assert word[1..] == [];
  }

  // A command that is one part.
  lemma WholeByParts(env: Env, c: Config)
    requires c.Running? && c.pc < |env.script| && !Splits(env.script[c.pc].toks)
    ensures PartStep(env, Lift(env, c)) == Lift(env, Step(env, c))
  {
    hide Where, Parts, ParseCommand, ErrorFree;
    var toks := env.script[c.pc].toks;
    PartsOfCommand(env.script, c.pc);
    assert Parts(env.script)[Where(env.script, c.pc) + 0] == CommandParts(toks, c.pc)[0];
  }

  // A command whose first word is rejected.
  lemma RejectedByParts(env: Env, c: Config)
    requires c.Running? && c.pc < |env.script| && Splits(env.script[c.pc].toks)
    requires !ErrorFree(c.np.(jump := None), env.script[c.pc].toks[..1], c.pc)
    ensures PartStep(env, Lift(env, c)) == Lift(env, Step(env, c))
  {
    hide Where, Parts, ParseCommand, ErrorFree;
    var toks := env.script[c.pc].toks;
    PartsOfCommand(env.script, c.pc);
    assert Parts(env.script)[Where(env.script, c.pc) + 0] == CommandParts(toks, c.pc)[0];
    SplitRejected(c.np.(jump := None), toks, c.pc, env.o, c.trace);
  }

  // A command whose first word is accepted.
  lemma AcceptedByParts(env: Env, c: Config)
    requires c.Running? && c.pc < |env.script| && Splits(env.script[c.pc].toks)
    requires ErrorFree(c.np.(jump := None), env.script[c.pc].toks[..1], c.pc)
    ensures PartStep(env, PartStep(env, Lift(env, c))) == Lift(env, Step(env, c))
  {
    hide Where, Parts, ParseCommand, ErrorFree;
    var toks, i := env.script[c.pc].toks, Where(env.script, c.pc);
    var np0 := c.np.(jump := None);
    SplitAccepted(np0, toks, c.pc, env.o, c.trace);
    PartsOfCommand(env.script, c.pc);
    var parts := CommandParts(toks, c.pc);
    assert Parts(env.script)[i + 0] == parts[0] && Parts(env.script)[i + 1] == parts[1];
    var np1 := ParseCommand(np0, toks[..1], c.pc, env.o, c.trace).0;
    assert PartStep(env, Lift(env, c)) == Running(np1, i + 1, c.trace, false);
    assert np1.(jump := None) == np1;
  }

  lemma EndByParts(env: Env, c: Config)
    requires c.Running? && c.pc >= |env.script|
    ensures PartStep(env, Lift(env, c)) == Lift(env, Step(env, c))
  {
  }

  /** One command of the machine is one or two parts of the machine on parts. */
  lemma CommandByParts(env: Env, c: Config) returns (n: nat)
    requires c.Running?
    ensures 1 <= n <= 2 && Reaches(PartStepper(env), Lift(env, c), n, Lift(env, Step(env, c)))
  {
    hide Reaches, PartStep, Step, Lift;
    var f, b := PartStepper(env), Lift(env, c);
    ReachStep(f, b);
    n := 1;
    if c.pc >= |env.script| {
      EndByParts(env, c);
    } else if !Splits(env.script[c.pc].toks) {
      WholeByParts(env, c);
    } else if !ErrorFree(c.np.(jump := None), env.script[c.pc].toks[..1], c.pc) {
      RejectedByParts(env, c);
    } else {
      AcceptedByParts(env, c);
      ReachMore(f, b, 1, PartStep(env, b));
      n := 2;
    }
  }

  lemma HaltedIsHalted(env: Env, h: Config)
    requires h.Halted?
    ensures Step(env, h) == h == PartStep(env, h) && Lift(env, h) == h
  {
  }

  lemma {:induction false} PartsHalt(env: Env, c: Config, n: nat, h: Config) returns (m: nat)
    requires Reaches(Stepper(env), c, n, h) && h.Halted?
    ensures Reaches(PartStepper(env), Lift(env, c), m, h)
    decreases n
  {
    hide Reaches, Step, PartStep, Lift;
    HaltedIsHalted(env, h);
    if c.Halted? {
      HaltedIsHalted(env, c);
      ReachNone(Stepper(env), c);
      HaltsOnce(Stepper(env), c, 0, c, n, h);
      ReachNone(PartStepper(env), c);
      m := 0;
    } else {
      var c' := Step(env, c);
      ReachStep(Stepper(env), c);
      ReachNone(Stepper(env), c);
      HaltsLater(Stepper(env), c, 0, c, n, h);
      ReachTail(Stepper(env), c, n, h);
      var k := CommandByParts(env, c);
      var m' := PartsHalt(env, c', n - 1, h);
      ReachTrans(PartStepper(env), Lift(env, c), k, Lift(env, c'), m', h);
      m := k + m';
    }
  }

  lemma ReachTail(f: Config -> Config, c: Config, n: nat, d: Config)
    requires Reaches(f, c, n, d) && n > 0
    ensures Reaches(f, f(c), n - 1, d)
  {
  }

  lemma {:induction false} CommandsHalt(env: Env, c: Config, m: nat, h: Config) returns (n: nat)
    requires Reaches(PartStepper(env), Lift(env, c), m, h) && h.Halted?
    ensures Reaches(Stepper(env), c, n, h)
    decreases m
  {
    hide Reaches, Step, PartStep;
    HaltedIsHalted(env, h);
    if c.Halted? {
      HaltedIsHalted(env, c);
      ReachNone(PartStepper(env), c);
      HaltsOnce(PartStepper(env), c, 0, c, m, h);
      ReachNone(Stepper(env), c);
      n := 0;
    } else {
      var c' := Step(env, c);
      var k := CommandByParts(env, c);
      ReachStep(Stepper(env), c);
      if c'.Halted? {
        HaltedIsHalted(env, c');
        HaltsOnce(PartStepper(env), Lift(env, c), k, c', m, h);
        n := 1;
      } else {
        HaltsLater(PartStepper(env), Lift(env, c), k, Lift(env, c'), m, h);
        var n' := CommandsHalt(env, c', m - k, h);
        ReachTrans(Stepper(env), c, 1, c', n', h);
        n := 1 + n';
      }
    }
  }

  /** Over every script, from every state: the machine halts in h if and only if the machine on parts
      does. */
  lemma PartsMachineIsMachine(env: Env, c: Config, h: Config)
    requires h.Halted?
    ensures (exists n :: Reaches(Stepper(env), c, n, h)) <==>
            (exists m :: Reaches(PartStepper(env), Lift(env, c), m, h))
  {
    hide Reaches, Lift;
    if n :| Reaches(Stepper(env), c, n, h) {
      var m := PartsHalt(env, c, n, h);
    }
    if m :| Reaches(PartStepper(env), Lift(env, c), m, h) {
      var n := CommandsHalt(env, c, m, h);
    }
  }

  // ----- What cannot be cut off -----

  // The command has the effect of its first word and then the rest, in every state that accepts the
  // word.
  ghost predicate IsTwo(toks: Argv)
    requires |toks| > 1
  {
    forall np: Np, at: nat, o: Oracle, trace: Trace | np.jump == None && ErrorFree(np, toks[..1], at) ::
      ParseCommand(np, toks, at, o, trace) ==
      ParseCommand(ParseCommand(np, toks[..1], at, o, trace).0, toks[1..], at, o, trace)
  }

  // A state in which `word` is accepted and enables what follows.
  function Accepting(word: Token): Np {
    var normal, none := Itef(false, false, false, ItefNormal), LoopEntry(LoopNormal, false, 0, 0);
    if word == Do then
      Np([normal, normal], 0, [none, LoopEntry(LoopWhile, true, 0, 0)], 1, false, None, true, 0)
    else
      Np([normal, if word == Then then Itef(false, false, false, ItefIf) else Itef(true, false, false, ItefThen)], 1,
         [none, none], 0, false, None, true, 0)
  }

  // In every state that accepts the word and then enables commands, no `if` awaiting its condition,
  // the whole rest is run as an ordinary command, reserved word and all.
  lemma LostIsRun(np: Np, toks: Argv, at: nat, o: Oracle, trace: Trace)
    requires |toks| > 1 && Opens(toks[0]) && Lost(toks[0], toks[1]) && ErrorFree(np, toks[..1], at)
    requires var np1 := ParseCommand(np, toks[..1], at, o, trace).0; CmdEnabled(np1) && TopIe(np1).state != ItefIf
    ensures ParseCommand(np, toks, at, o, trace).1 == trace + [toks[1..]]
  {
    hide Keeps, SaveResult, CmdEnabled;
    var word, rest := toks[..1], toks[1..];
    assert word[1..] == [];
    var loop := ParseLoop(np, word, at);
    if toks[0] == Do {
      assert ParseLoop(np, toks, at) == Parsed(loop.np, rest, None) && loop.toks == [];
      assert ParseItef(loop.np, rest) == Parsed(loop.np, rest, None);
    } else {
      assert ParseLoop(np, toks, at) == Parsed(np, toks, None) && loop == Parsed(np, word, None);
      var np1 := ParseItef(np, word).np;
      assert ParseItef(np, toks) == Parsed(np1, rest, None) && ParseItef(np, word) == Parsed(np1, [], None);
    }
  }

  // Parsed on its own, a command that begins with a reserved word is never run as it stands.
  lemma WordIsNotRun(np: Np, toks: Argv, at: nat, o: Oracle, trace: Trace)
    requires toks != [] && (IsLoopWord(toks[0]) || (IsItefWord(toks[0]) && !AwaitsDo(np)))
    ensures ParseCommand(np, toks, at, o, trace).1 != trace + [toks]
  {
    hide Keeps, SaveResult, CmdEnabled, ItefError, LoopError;
    var loop := ParseLoop(np, toks, at);
    var itef := ParseItef(loop.np, loop.toks);
    assert loop.err == None && itef.err == None ==> |itef.toks| < |toks| by {
      WordsAreTaken(np, toks, at);
    }
    hide ParseLoop, ParseItef;
    var t := ParseCommand(np, toks, at, o, trace).1;
    assert t == trace || (loop.err == None && itef.err == None && t == trace + [itef.toks]);
    assert t == trace + [itef.toks] ==> t[|trace|] == itef.toks;
    assert (trace + [toks])[|trace|] == toks;
  }

  lemma WordsAreTaken(np: Np, toks: Argv, at: nat)
    requires toks != [] && (IsLoopWord(toks[0]) || (IsItefWord(toks[0]) && !AwaitsDo(np)))
    ensures var loop := ParseLoop(np, toks, at);
            loop.err == None && ParseItef(loop.np, loop.toks).err == None ==>
              |ParseItef(loop.np, loop.toks).toks| < |toks|
  {
    hide Keeps, CmdEnabled;
    var loop := ParseLoop(np, toks, at);
    assert IsLoopWord(toks[0]) ==> loop.err != None || |loop.toks| < |toks|;
    assert !IsLoopWord(toks[0]) ==> loop == Parsed(np, toks, None);
    hide ParseLoop;
    var itef := ParseItef(loop.np, loop.toks);
    assert |itef.toks| <= |loop.toks|;
    assert loop.toks != [] && IsItefWord(loop.toks[0]) ==> itef.err != None || |itef.toks| < |loop.toks|;
  }

  /** `do`, `then` or `else` with more behind it on the same command is that word and then the rest if
      and only if the rest does not begin with a word that was lost: after `do` a loop word, after
      `then` and `else` a loop word or an if word.  A lost word is run as an ordinary command. */
  lemma SplitsIff(toks: Argv)
    requires |toks| > 1 && Opens(toks[0])
    ensures IsTwo(toks) <==> !Lost(toks[0], toks[1])
  {
    hide ParseCommand, ErrorFree;
    if !Lost(toks[0], toks[1]) {
      forall np: Np, at: nat, o: Oracle, trace: Trace | np.jump == None && ErrorFree(np, toks[..1], at)
        ensures ParseCommand(np, toks, at, o, trace) ==
                ParseCommand(ParseCommand(np, toks[..1], at, o, trace).0, toks[1..], at, o, trace)
      {
        SplitAccepted(np, toks, at, o, trace);
      }
    } else {
      var np, o: Oracle := Accepting(toks[0]), (_, _) => false;
      assert toks[..1] == [toks[0]];
      AcceptingAccepts(toks[0], o, []);
      LostIsRun(np, toks, 0, o, []);
      WordIsNotRun(ParseCommand(np, toks[..1], 0, o, []).0, toks[1..], 0, o, []);
    }
  }

  lemma AcceptingAccepts(word: Token, o: Oracle, trace: Trace)
    requires Opens(word)
    ensures ErrorFree(Accepting(word), [word], 0)
    ensures var np := ParseCommand(Accepting(word), [word], 0, o, trace).0;
            CmdEnabled(np) && !AwaitsDo(np) && TopIe(np).state != ItefIf
  {
    hide Keeps;
    assert [word][1..] == [];
  }
}
