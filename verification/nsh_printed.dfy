/** From a tree to the text of a file and back to what the tree means. */
module NshPrinted {
  import opened Basics
  import opened NshMachine
  import opened NshText
  import opened NshStructured
  import opened NshTheorem
  import opened NshPaths
  import opened NshFile
  import opened NshPrint

  // ----- The text of a tree -----

  // The script as it is written, one command in a line.
  function Text(p: Prog): string {
    match p
    case Empty => ""
    case Seq(a, b) => Text(a) + Text(b)
    case Simple(argv) => Spelled(argv) + "\n"
    case BreakCmd => "break\n"
    case IfElse(inverted, cond, thn, els) =>
      "if " + (if inverted then "! " else "") + Spelled(cond) + "\n"
      + "then\n" + Text(thn) + ElseText(els)
      + "fi\n"
    case Loop(until, cond, body) =>
      (if until then "until " else "while ") + Spelled(cond) + "\n"
      + "do\n" + Text(body)
      + "done\n"
  }

  function ElseText(els: Option<Prog>): string {
    match els
    case None => ""
    case Some(p) => "else\n" + Text(p)
  }

  // A name and its arguments in plain words.
  predicate PlainWords(argv: Argv) {
    argv != [] && argv[0].Word? && PlainName(argv[0].text) && PlainArguments(argv[1..])
  }

  predicate PlainTree(p: Prog) {
    match p
    case Empty => true
    case Seq(a, b) => PlainTree(a) && PlainTree(b)
    case Simple(argv) => argv == [] || PlainWords(argv)
    case BreakCmd => true
    case IfElse(_, cond, thn, els) => PlainWords(cond) && PlainTree(thn) && (els.Some? ==> PlainTree(els.value))
    case Loop(_, cond, body) => PlainWords(cond) && PlainTree(body)
  }

  // Every line fits the buffer.
  ghost predicate FitsLines(p: Prog, most: nat) {
    forall i | 0 <= i < |Flatten(p)| :: |Spelled(Flatten(p)[i])| + 1 <= most
  }

  // ----- One command in a line -----

  function Singles(code: seq<Argv>): (lines: seq<seq<Argv>>)
    ensures |lines| == |code| && forall i | 0 <= i < |code| :: lines[i] == [code[i]]
  {
    seq(|code|, i requires 0 <= i < |code| => [code[i]])
  }

  // The text of a list of commands.
  function Lines(code: seq<Argv>): string {
    if code == [] then "" else Spelled(code[0]) + "\n" + Lines(code[1..])
  }

  lemma {:induction false} LinesOfSingles(code: seq<Argv>)
    ensures PrintLines(Singles(code)) == Lines(code) && LaidOut(Singles(code)) == Plain(code)
  {
    hide Spelled;
    if code != [] {
      assert Singles(code)[1..] == Singles(code[1..]);
      LinesOfSingles(code[1..]);
      assert Plain(code) == [Cmd(code[0], true)] + Plain(code[1..]);
      assert Laid([code[0]]) == [Cmd(code[0], true)];
    }
  }

  lemma {:induction false} LinesAppend(a: seq<Argv>, b: seq<Argv>)
    ensures Lines(a + b) == Lines(a) + Lines(b)
    decreases |a|
  {
    hide Spelled;
    if a == [] {
      assert a + b == b;
    } else {
      assert (a + b)[1..] == a[1..] + b;
      LinesAppend(a[1..], b);
    }
  }

  lemma {:induction false} OneLine(argv: Argv)
    ensures Lines([argv]) == Spelled(argv) + "\n"
  {
    hide Spelled;
    assert [argv][1..] == [];
    assert Lines([]) == "";
  }

  lemma SpelledAlone(t: Token)
    ensures Spelled([t]) == Spelling(t)
  {
  }

  lemma SpelledCons(t: Token, argv: Argv)
    requires argv != []
    ensures Spelled([t] + argv) == Spelling(t) + " " + Spelled(argv)
  {
    assert Spellings([t] + argv)[1..] == Spellings(argv);
  }

  lemma SpelledHeads(inverted: bool, until: bool, cond: Argv)
    requires cond != []
    ensures Spelled(IfHead(inverted, cond)) == "if " + (if inverted then "! " else "") + Spelled(cond)
    ensures Spelled(LoopHead(until, cond)) == (if until then "until " else "while ") + Spelled(cond)
  {
    hide Spelled;
    SpelledCons(if until then Until else While, cond);
    assert "until" + " " == "until " && "while" + " " == "while ";
    if inverted {
      assert [If, Bang] + cond == [If] + ([Bang] + cond);
      SpelledCons(Bang, cond);
      SpelledCons(If, [Bang] + cond);
      assert "if" + " " + ("!" + " " + Spelled(cond)) == "if " + "! " + Spelled(cond);
    } else {
      SpelledCons(If, cond);
      assert "if" + " " + Spelled(cond) == "if " + "" + Spelled(cond);
    }
  }

  lemma ReservedLines()
    ensures Lines([[Break]]) == "break\n" && Lines([[Then]]) == "then\n" && Lines([[Else]]) == "else\n"
    ensures Lines([[Fi]]) == "fi\n" && Lines([[Do]]) == "do\n" && Lines([[Done]]) == "done\n"
  {
    hide Spelled, Lines;
    ReservedLine(Break);
    ReservedLine(Then);
    ReservedLine(Else);
    ReservedLine(Fi);
    ReservedLine(Do);
    ReservedLine(Done);
    assert "break" + "\n" == "break\n" && "then" + "\n" == "then\n" && "else" + "\n" == "else\n";
    assert "fi" + "\n" == "fi\n" && "do" + "\n" == "do\n" && "done" + "\n" == "done\n";
  }

  lemma ReservedLine(t: Token)
    ensures Lines([[t]]) == Spelling(t) + "\n"
  {
    hide Lines;
    OneLine([t]);
    SpelledAlone(t);
  }

  // The text of a tree is the text of its commands.
  lemma {:induction false} TextIsLines(p: Prog)
    requires PlainTree(p)
    ensures Text(p) == Lines(Flatten(p))
    decreases p, 1
  {
    hide Lines, Spelled, PlainWords;
    match p {
      case Empty =>
        NoLines();
      case Seq(a, b) =>
        TextIsLines(a);
        TextIsLines(b);
        LinesAppend(Flatten(a), Flatten(b));
      case Simple(argv) =>
        OneLine(argv);
      case BreakCmd =>
        ReservedLines();
      case IfElse(inverted, cond, thn, els) =>
        TextOfIf(p);
      case Loop(until, cond, body) =>
        TextOfLoop(p);
    }
  }

  lemma {:induction false} NoLines()
    ensures Lines([]) == ""
  {
  }

  lemma {:induction false} TextOfIf(p: Prog)
    requires p.IfElse? && PlainTree(p)
    ensures Text(p) == Lines(Flatten(p))
    decreases p, 0
  {
    hide Lines, Spelled, IfHead;
    var head := IfHead(p.inverted, p.cond);
    assert p.cond != [];
    SpelledHeads(p.inverted, false, p.cond);
    ReservedLines();
    TextIsLines(p.thn);
    TextOfElse(p.els);
    OneLine(head);
    LinesOfIf(head, Flatten(p.thn), FlattenElse(p.els));
  }

  lemma {:induction false} LinesOfIf(head: Argv, a: seq<Argv>, b: seq<Argv>)
    ensures Lines([head, [Then]] + a + b + [[Fi]])
         == Lines([head]) + Lines([[Then]]) + Lines(a) + Lines(b) + Lines([[Fi]])
  {
    hide Lines;
    assert [head, [Then]] == [head] + [[Then]];
    LinesAppend([head], [[Then]]);
    LinesAppend([head, [Then]], a);
    LinesAppend([head, [Then]] + a, b);
    LinesAppend([head, [Then]] + a + b, [[Fi]]);
  }

  lemma {:induction false} TextOfElse(els: Option<Prog>)
    requires els.Some? ==> PlainTree(els.value)
    ensures ElseText(els) == Lines(FlattenElse(els))
    decreases els, 0
  {
    hide Lines, Spelled;
    if els.None? {
      NoLines();
    } else {
      ReservedLines();
      TextIsLines(els.value);
      LinesAppend([[Else]], Flatten(els.value));
    }
  }

  lemma {:induction false} TextOfLoop(p: Prog)
    requires p.Loop? && PlainTree(p)
    ensures Text(p) == Lines(Flatten(p))
    decreases p, 0
  {
    hide Lines, Spelled, LoopHead;
    var head := LoopHead(p.until, p.cond);
    assert p.cond != [];
    SpelledHeads(false, p.until, p.cond);
    ReservedLines();
    TextIsLines(p.body);
    OneLine(head);
    LinesOfLoop(head, Flatten(p.body));
  }

  lemma {:induction false} LinesOfLoop(head: Argv, a: seq<Argv>)
    ensures Lines([head, [Do]] + a + [[Done]]) == Lines([head]) + Lines([[Do]]) + Lines(a) + Lines([[Done]])
  {
    hide Lines;
    assert [head, [Do]] == [head] + [[Do]];
    LinesAppend([head], [[Do]]);
    LinesAppend([head, [Do]], a);
    LinesAppend([head, [Do]] + a, [[Done]]);
  }

  // ----- Plain trees give plain commands -----

  ghost predicate AllPlain(code: seq<Argv>) {
    forall i | 0 <= i < |code| :: PlainCommand(code[i])
  }

  lemma AllPlainAppend(a: seq<Argv>, b: seq<Argv>)
    requires AllPlain(a) && AllPlain(b)
    ensures AllPlain(a + b)
  {
  }

  lemma PlainHeads(inverted: bool, until: bool, cond: Argv)
    requires PlainWords(cond)
    ensures PlainCommand(cond) && PlainCommand(IfHead(inverted, cond)) && PlainCommand(LoopHead(until, cond))
    ensures AllPlain([IfHead(inverted, cond), [Then]]) && AllPlain([LoopHead(until, cond), [Do]])
  {
    assert IfHead(true, cond)[1..][1..] == cond && IfHead(false, cond)[1..] == cond;
    assert LoopHead(until, cond)[1..] == cond;
    assert [Then][1..] == [] && [Do][1..] == [];
  }

  lemma PlainWordsAlone()
    ensures AllPlain([[Break]]) && AllPlain([[Else]]) && AllPlain([[Fi]]) && AllPlain([[Done]])
  {
    assert [Break][1..] == [] && [Else][1..] == [] && [Fi][1..] == [] && [Done][1..] == [];
  }

  lemma {:induction false} FlattenIsPlain(p: Prog)
    requires PlainTree(p)
    ensures AllPlain(Flatten(p)) && WellFormed(p)
  {
    hide PlainCommand, AllPlain, IfHead, LoopHead, PlainName, PlainArguments;
    PlainWordsAlone();
    match p {
      case Empty =>
        NonePlain();
      case Seq(a, b) =>
        FlattenIsPlain(a);
        FlattenIsPlain(b);
        AllPlainAppend(Flatten(a), Flatten(b));
      case Simple(argv) =>
        SimpleIsPlain(argv);
      case BreakCmd =>
      case IfElse(inverted, cond, thn, els) =>
        PlainHeads(inverted, false, cond);
        ConditionIsPlain(cond);
        FlattenIsPlain(thn);
        AllPlainAppend([IfHead(inverted, cond), [Then]], Flatten(thn));
        var a := [IfHead(inverted, cond), [Then]] + Flatten(thn);
        if els.Some? {
          FlattenIsPlain(els.value);
          AllPlainAppend([[Else]], Flatten(els.value));
        } else {
          NonePlain();
        }
        AllPlainAppend(a, FlattenElse(els));
        AllPlainAppend(a + FlattenElse(els), [[Fi]]);
      case Loop(until, cond, body) =>
        PlainHeads(false, until, cond);
        ConditionIsPlain(cond);
        FlattenIsPlain(body);
        AllPlainAppend([LoopHead(until, cond), [Do]], Flatten(body));
        AllPlainAppend([LoopHead(until, cond), [Do]] + Flatten(body), [[Done]]);
    }
  }

  lemma NonePlain()
    ensures AllPlain([])
  {
  }

  lemma ConditionIsPlain(cond: Argv)
    requires PlainWords(cond)
    ensures IsCondition(cond)
  {
  }

  lemma SimpleIsPlain(argv: Argv)
    requires argv == [] || PlainWords(argv)
    ensures AllPlain([argv])
  {
    if argv != [] {
      PlainHeads(false, false, argv);
    }
  }

  // ----- The file -----

  /** A tree in plain words, written to a file, is read back: the file is regular, and its commands
      are those of the tree. */
  lemma {:induction false} TextIsRead(p: Prog, most: nat)
    requires PlainTree(p) && FitsLines(p, most)
    ensures Regular(Text(p), 0, most) && Script(Text(p), 0) == Plain(Flatten(p))
  {
    hide Text, Flatten, PlainTree, Lines, PrintLines, LaidOut, Spelled, Regular, Script, PlainCommand, Plain;
    var code := Flatten(p);
    FlattenIsPlain(p);
    TextIsLines(p);
    LinesOfSingles(code);
    assert PlainText(Singles(code), most) by {
      assert forall i | 0 <= i < |code| :: PrintLine([code[i]]) == Spelled(code[i]) + "\n";
    }
    assert Text(p)[0..] == Text(p);
    FileIsRead(Text(p), 0, Singles(code), most);
  }

  /** From a tree to bytes and to what happens: nsh_script on the text of a tree in plain words does
      what NSH makes of the tree, and that is what the tree means if it is faithful. */
  lemma {:induction false} TextMeansItsTree(env: TextEnv, p: Prog, np: Np, s: Obs, res: Obs)
    requires PlainTree(p) && FitsLines(p, env.most) && env.file == Text(p)
    requires AtPeace(p, np, s) && np.lpndx == 0
    ensures var e := Env(Plain(Flatten(p)), env.o, env.ignore);
            && (FileGives(env, np, s, res) <==> EvalGives(e, p, np, s, res))
            && (Faithful(p, false, false) ==> (FileGives(env, np, s, res) <==> Means(e, p, s, res)))
  {
    hide FileGives, MachineGives, EvalGives, Means, Regular, Script, Plain, Flatten, Text, FitsLines, AtPeace, Loaded;
    TextIsRead(p, env.most);
    PlainIsLoaded(p, np, s, env.o, env.ignore);
    FileIsMachine(env, np, s, res);
    MachineIsEval(Compiled(env), p, np, s, res);
    if Faithful(p, false, false) {
      FileMeansItsTree(env, p, np, s, res);
    }
  }

  /** The same in any layout: commands in plain words, put into lines with semicolons between them,
      that are a faithful script and a layout in which it can be run. */
  lemma {:induction false} LinesMeanTheirTree(env: TextEnv, p: Prog, lines: seq<seq<Argv>>, np: Np, s: Obs, res: Obs)
    requires PlainText(lines, env.most) && env.file == PrintLines(lines) && np.lpndx == 0
    requires Loaded(Env(LaidOut(lines), env.o, env.ignore), p, np, s) && Faithful(p, false, false)
    ensures FileGives(env, np, s, res) <==> Means(Env(LaidOut(lines), env.o, env.ignore), p, s, res)
  {
    hide FileGives, Means, Regular, Script, Loaded, Faithful, PrintLines, LaidOut, PlainLine;
    assert env.file[0..] == env.file;
    FileIsRead(env.file, 0, lines, env.most);
    FileMeansItsTree(env, p, np, s, res);
  }
}
