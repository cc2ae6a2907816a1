/** `nsh_script` on the text of a file: `fgets`, `nsh_parse` on each line, and `fseek` to the byte
    where a loop began; and what is read there. */
module NshText {
  import opened Basics
  import opened NshLexer
  import opened NshLexerLaws
  import opened NshMachine

  // What does not change while the file is read.  `shells` gives the variables and the output of
  // back-quoted commands, `most` is CONFIG_NSH_LINELEN - 1.
  datatype TextEnv = TextEnv(file: string, o: Oracle, ignore: bool, shells: Trace -> Shell, most: nat)

  // ----- Lines -----

  function LineLength(file: string, pos: nat): (n: nat)
    requires pos <= |file|
    ensures pos + n <= |file| && (pos < |file| ==> n > 0)
    decreases |file| - pos
  {
    if pos == |file| then 0 else if file[pos] == '\n' then 1 else 1 + LineLength(file, pos + 1)
  }

  // The text from pos to the end of its line.
  function LineAt(file: string, pos: nat): string
    requires pos <= |file|
  {
    file[pos..pos + LineLength(file, pos)]
  }

  // fgets
  function ReadLine(file: string, pos: nat, most: nat): string
    requires pos <= |file|
  {
    file[pos..pos + Min(LineLength(file, pos), most)]
  }

  lemma {:induction false} LineIsUpToNewline(file: string, pos: nat)
    requires pos <= |file|
    ensures var end := pos + LineLength(file, pos);
            && (forall j | pos <= j < end - 1 :: file[j] != '\n')
            && (end < |file| ==> end > pos && file[end - 1] == '\n')
    decreases |file| - pos
  {
    if pos < |file| && file[pos] != '\n' {
      LineIsUpToNewline(file, pos + 1);
    }
  }

  /** fgets reads what comes next, up to and including the first newline, up to the end of the file or
      until its buffer is full, whichever is first. */
  lemma ReadsOneLine(file: string, pos: nat, most: nat)
    requires pos <= |file|
    ensures var r := ReadLine(file, pos, most);
            && r <= file[pos..] && |r| <= most
            && (forall j | 0 <= j < |r| - 1 :: r[j] != '\n')
            && (|r| < most ==> pos + |r| == |file| || (r != "" && r[|r| - 1] == '\n'))
  {
    LineIsUpToNewline(file, pos);
  }

  // ----- Words -----

  const NoShell := Shell(map[], false, (_: string) => "")

  function Classify(s: string): NshMachine.Token {
    if s == "while" then While
    else if s == "until" then Until
    else if s == "do" then Do
    else if s == "done" then Done
    else if s == "if" then If
    else if s == "!" then Bang
    else if s == "then" then Then
    else if s == "else" then Else
    else if s == "fi" then Fi
    else if s == "break" then Break
    else Word(s)
  }

  // nsh_argument without the expansion.
  function RawToken(s: string): (r: Option<NshLexer.Token>)
    ensures r.Some? ==> |r.value.rest| < |s|
  {
    if s == [] then None
    else if s[0] in TokenSeparators then RawToken(s[1..])
    else if s[0] == '>' then
      if |s| > 1 && s[1] == '>' then Some(NshLexer.Token(">>", s[2..])) else Some(NshLexer.Token(">", s[1..]))
    else if s[0] == '#' then None
    else if s[0] == '"' then
      var n := TokenEnd(s[1..], "\"", false, false);
      Some(NshLexer.Token(s[1..][..n], After(s[1..], n)))
    else
      var n := TokenEnd(s, TokenSeparators, false, false);
      Some(NshLexer.Token(s[..n], After(s, n)))
  }

  function RawTokens(s: string): seq<string>
    decreases |s|
  {
    match RawToken(s)
    case None => []
    case Some(t) => [t.arg] + RawTokens(t.rest)
  }

  // The words of a command as nsh_loop and nsh_itef look at them, up to the name of the command, and
  // behind it the arguments as they stand: what they expand to is up to the world, which knows
  // everything run so far and the last status.
  function Words(sh: Shell, raw: seq<string>): Argv {
    if raw == [] then []
    else
      var t := Classify(Expand(sh, raw[0]));
      [t] + if t.Word? || t.Break? then Arguments(raw[1..]) else Words(sh, raw[1..])
  }

  function Arguments(raw: seq<string>): Argv {
    seq(|raw|, i requires 0 <= i < |raw| => Word(raw[i]))
  }

  // The words of a command that are looked at hold no references.
  predicate Steady(raw: seq<string>) {
    raw == [] ||
    ('$' !in raw[0] && '`' !in raw[0] &&
     var t := Classify(Expand(NoShell, raw[0])); t.Word? || t.Break? || Steady(raw[1..]))
  }

  predicate IsHead(toks: Argv) {
    toks != [] && (toks[0] == While || toks[0] == Until)
  }

  // ----- The machine on text -----

  // nsh_parse on the commands of a line that begins at byte `foffs`; `ok` is false if they end at an
  // unmatched quotation mark.
  function RunLine(env: TextEnv, cmds: seq<Command>, ok: bool, foffs: nat, np: Np, trace: Trace): (Np, Trace, bool)
    decreases |cmds|
  {
    if cmds == [] then
      (np, trace, ok)
    else
      var toks := Words(env.shells(trace).(fail := np.fail), RawTokens(cmds[0].text));
      var out := ParseCommand(np, toks, foffs + cmds[0].loffs, env.o, trace);
      if !out.2 || out.0.jump.Some? then out
      else RunLine(env, cmds[1..], ok, foffs, out.0, out.1)
  }

  /** One line of nsh_script.  The configuration is that of NshMachine, but positions are bytes. */
  function TextStep(env: TextEnv, c: Config): Config {
    match c
    case Halted(_, _, _) => c
    case Running(np, pos, trace, err) =>
      if pos >= |env.file| then
        Halted(np, trace, err)
      else
        var line := ReadLine(env.file, pos, env.most);
        var s := Split(line);
        var (np', trace', ok) := RunLine(env, s.cmds, s.ok, pos, np.(jump := None), trace);
        if !ok && !env.ignore then
          Halted(np', trace', true)
        else
          Running(np', if np'.jump.Some? then np'.jump.value else pos + |line|, trace', !ok)
  }

  function TextStepper(env: TextEnv): Config -> Config {
    c => TextStep(env, c)
  }

  // ----- The commands of a file -----

  function LineScript(line: string): seq<Cmd> {
    var cmds := Split(line).cmds;
    seq(|cmds|, i requires 0 <= i < |cmds| => Cmd(Words(NoShell, RawTokens(cmds[i].text)), i == |cmds| - 1))
  }

  // The commands from the line at pos on.
  function Script(file: string, pos: nat): seq<Cmd>
    requires pos <= |file|
    decreases |file| - pos
  {
    if pos == |file| then []
    else LineScript(LineAt(file, pos)) + Script(file, pos + LineLength(file, pos))
  }

  // The byte where command k of these begins.
  function Position(file: string, pos: nat, k: nat): nat
    requires pos <= |file|
    decreases |file| - pos
  {
    if pos == |file| then |file|
    else
      var cmds := Split(LineAt(file, pos)).cmds;
      if k < |cmds| then pos + cmds[k].start
      else Position(file, pos + LineLength(file, pos), k - |cmds|)
  }

  // A command without references up to its name, and without quotation marks if it begins a loop.
  predicate RegularCommand(line: string, c: Command)
    requires c.start <= c.end <= |line|
  {
    && Steady(RawTokens(c.text))
    && (IsHead(Words(NoShell, RawTokens(c.text))) ==> '"' !in line[c.start..c.end])
  }

  predicate RegularLine(line: string) {
    var s := Split(line);
    s.ok && '\0' !in line && forall i | 0 <= i < |s.cmds| :: RegularCommand(line, s.cmds[i])
  }

  // Every line fits the buffer, is one C string, closes its quotation marks and holds only regular
  // commands.
  predicate Regular(file: string, pos: nat, most: nat)
    requires pos <= |file|
    decreases |file| - pos
  {
    pos == |file| ||
    (LineLength(file, pos) <= most && RegularLine(LineAt(file, pos)) &&
     Regular(file, pos + LineLength(file, pos), most))
  }

  // ----- Words that do not depend on the shell -----

  lemma {:induction false} NothingToExpand(s: string, q: bool)
    requires '$' !in s && '`' !in s
    ensures FirstSpecial(s, q) == |s|
  {
    if s != [] {
      NothingToExpand(s[1..], s[0] == '\\' && !q);
    }
  }

  lemma SameExpansion(sh: Shell, sh': Shell, s: string)
    requires '$' !in s && '`' !in s
    ensures Expand(sh, s) == Expand(sh', s)
  {
    NothingToExpand(s, false);
  }

  lemma NoReference(sh: Shell, s: string)
    requires s == ">" || s == ">>"
    ensures Expand(sh, s) == s
  {
    NothingToExpand(s, false);
    assert Expand(sh, s) == Dequote(s) by {
      assert "" + s == s;
    }
    assert ">"[1..] == "" && Unquote(">", false) == ">";
    assert ">>"[1..] == ">" && Unquote(">>", false) == [">>"[0]] + ">";
  }

  lemma {:induction false} TokenIsExpansion(sh: Shell, s: string)
    ensures NextToken(sh, s) ==
            match RawToken(s)
            case None => None
            case Some(t) => Some(NshLexer.Token(Expand(sh, t.arg), t.rest))
  {
    hide Expand, TokenEnd;
    if s != [] && s[0] in TokenSeparators {
      TokenIsExpansion(sh, s[1..]);
    }
    NoReference(sh, ">");
    NoReference(sh, ">>");
  }

  /** Where the tokens of a command begin and end does not depend on the shell: whatever the variables,
      the last status and the outputs of commands are, its arguments are the expansions of the same
      pieces of text. */
  lemma {:induction false} TokensAreExpansions(sh: Shell, s: string)
    ensures |Tokens(sh, s)| == |RawTokens(s)|
    ensures forall i | 0 <= i < |RawTokens(s)| :: Tokens(sh, s)[i] == Expand(sh, RawTokens(s)[i])
    decreases |s|
  {
    hide NextToken, RawToken, Expand;
    TokenIsExpansion(sh, s);
    if RawToken(s).Some? {
      TokensAreExpansions(sh, RawToken(s).value.rest);
    }
  }

  /** The words that nsh_loop and nsh_itef look at are the same in every shell, if they hold no
      references. */
  lemma {:induction false} SameWords(sh: Shell, raw: seq<string>)
    requires Steady(raw)
    ensures Words(sh, raw) == Words(NoShell, raw)
  {
    hide Expand;
    if raw != [] {
      SameExpansion(sh, NoShell, raw[0]);
      var t := Classify(Expand(sh, raw[0]));
      if !t.Word? && !t.Break? {
        SameWords(sh, raw[1..]);
      }
    }
  }

  // ----- Reading from the top of a loop -----

  // Command k is read by fgets and nsh_parse from its first byte on: it is the first of its line, or
  // begins a loop.
  predicate Entry(script: seq<Cmd>, k: nat) {
    k >= |script| || k == 0 || script[k - 1].eol || IsHead(script[k].toks)
  }

  lemma {:induction false} LineTail(file: string, pos: nat, d: nat)
    requires pos <= |file| && d < LineLength(file, pos)
    ensures LineLength(file, pos + d) == LineLength(file, pos) - d
    ensures LineAt(file, pos + d) == LineAt(file, pos)[d..]
    decreases d
  {
    LineLengthTail(file, pos, d);
  }

  lemma {:induction false} LineLengthTail(file: string, pos: nat, d: nat)
    requires pos <= |file| && d < LineLength(file, pos)
    ensures LineLength(file, pos + d) == LineLength(file, pos) - d
    decreases d
  {
    if d > 0 {
      LineLengthTail(file, pos + 1, d - 1);
    }
  }

  // Command i of a line of which the first k commands are left out: it is command j of the script,
  // and `offset` is what nsh_loop records if it begins a loop.
  ghost predicate ReadsCommand(file: string, pos: nat, j: nat, c: Command, offset: nat, last: bool)
    requires pos <= |file|
  {
    && j < |Script(file, pos)| && Script(file, pos)[j] == Cmd(Words(NoShell, RawTokens(c.text)), last)
    && Steady(RawTokens(c.text))
    && (IsHead(Script(file, pos)[j].toks) ==> offset == Position(file, pos, j))
  }

  // A line read at the first byte of command k gives that command and the rest of its line.
  ghost predicate Reads(file: string, pos: nat, most: nat, k: nat)
    requires pos <= |file|
  {
    var b := Position(file, pos, k);
    && b < |file| && LineLength(file, b) <= most
    && var s := Split(LineAt(file, b));
    && s.ok && s.cmds != []
    && (forall i | 0 <= i < |s.cmds| ::
          ReadsCommand(file, pos, k + i, s.cmds[i], b + s.cmds[i].loffs, i == |s.cmds| - 1))
    && Position(file, pos, k + |s.cmds|) == b + LineLength(file, b)
  }

  lemma {:induction false} ClosedHasCommands(line: string, start: nat, working: nat)
    requires start <= working <= |line| && SplitFrom(line, start, working).ok
    ensures SplitFrom(line, start, working).cmds != []
    decreases |line| - working
  {
    hide Look;
    if Look(line, working).Quoted? {
      ClosedHasCommands(line, start, Look(line, working).next);
    }
  }

  // The script begins at its first byte.
  lemma {:induction false} FirstPosition(file: string, pos: nat, most: nat)
    requires pos <= |file| && Regular(file, pos, most)
    ensures Position(file, pos, 0) == pos
  {
    hide SplitFrom;
    if pos < |file| {
      ClosedHasCommands(LineAt(file, pos), 0, 0);
      FirstStart(LineAt(file, pos), 0, 0);
    }
  }

  lemma {:induction false} LastPosition(file: string, pos: nat, k: nat)
    requires pos <= |file| && k >= |Script(file, pos)|
    ensures Position(file, pos, k) == |file|
    decreases |file| - pos
  {
    hide SplitFrom;
    if pos < |file| {
      LastPosition(file, pos + LineLength(file, pos), k - |LineScript(LineAt(file, pos))|);
    }
  }

  lemma {:induction false} ShiftAt(cs: seq<Command>, d: nat)
    ensures |ShiftAll(cs, d)| == |cs| && forall i | 0 <= i < |cs| :: ShiftAll(cs, d)[i] == Shift(cs[i], d)
  {
    if cs != [] {
      ShiftAt(cs[1..], d);
    }
  }

  // The text from the first byte of command k on splits into the commands from k on.
  lemma SplitRest(line: string, k: nat)
    requires k < |Split(line).cmds|
    ensures var all, d := Split(line), Split(line).cmds[k].start;
            var s := Split(line[d..]);
            && s.ok == all.ok && |s.cmds| == |all.cmds| - k
            && forall i | 0 <= i < |s.cmds| :: all.cmds[k + i] == Shift(s.cmds[i], d)
  {
    hide SplitFrom, ShiftAll;
    var all, d := Split(line), Split(line).cmds[k].start;
    SplitTail(line, 0, 0, k);
    SplitShift(line, d, d, d);
    ShiftAt(Split(line[d..]).cmds, d);
    assert forall i | 0 <= i < |all.cmds| - k :: all.cmds[k + i] == all.cmds[k..][i];
  }

  // No loop begins at the end of a line.
  lemma NothingAtTheEnd(line: string, k: nat)
    requires k < |Split(line).cmds| && Split(line).cmds[k].start == |line|
    ensures Words(NoShell, RawTokens(Split(line).cmds[k].text)) == []
  {
    hide SplitFrom;
    SplitRest(line, k);
    assert line[|line|..] == "";
    assert Split(line).cmds[k + 0] == Shift(Split("").cmds[0], |line|);
    LastCommand("", 0, 0);
  }

  // Command j of the first line.
  lemma {:induction false} FirstLine(file: string, pos: nat, j: nat)
    requires pos < |file| && j < |Split(LineAt(file, pos)).cmds|
    ensures var cmds := Split(LineAt(file, pos)).cmds;
            && j < |Script(file, pos)|
            && Script(file, pos)[j] == Cmd(Words(NoShell, RawTokens(cmds[j].text)), j == |cmds| - 1)
            && Position(file, pos, j) == pos + cmds[j].start
  {
    hide SplitFrom, Words, RawTokens, Steady;
  }

  lemma ReadCommand(file: string, pos: nat, j: nat, c: Command, d: nat)
    requires pos < |file| && RegularLine(LineAt(file, pos)) && j < |Split(LineAt(file, pos)).cmds|
    requires Split(LineAt(file, pos)).cmds[j] == Shift(c, d)
    ensures ReadsCommand(file, pos, j, c, pos + d + c.loffs, j == |Split(LineAt(file, pos)).cmds| - 1)
  {
    hide SplitFrom, Words, RawTokens, Steady, Script, Position, LineLength;
    var line := LineAt(file, pos);
    FirstLine(file, pos, j);
    LoffsIsStartIffUnquoted(line, j);
    assert RegularCommand(line, Split(line).cmds[j]);
  }

  lemma {:induction false} StartsInLine(file: string, pos: nat, k: nat)
    requires pos < |file| && k < |Split(LineAt(file, pos)).cmds|
    requires k == 0 || IsHead(Script(file, pos)[k].toks)
    ensures Split(LineAt(file, pos)).cmds[k].start < LineLength(file, pos)
  {
    hide SplitFrom, Words, RawTokens, Steady, Script, Position, LineLength;
    var line := LineAt(file, pos);
    FirstLine(file, pos, k);
    if k == 0 {
      FirstStart(line, 0, 0);
    } else if Split(line).cmds[k].start == |line| {
      NothingAtTheEnd(line, k);
    }
  }

  lemma {:induction false} ReadInLine(file: string, pos: nat, most: nat, k: nat)
    requires pos < |file| && Regular(file, pos, most) && k < |Split(LineAt(file, pos)).cmds|
    requires k == 0 || IsHead(Script(file, pos)[k].toks)
    ensures Reads(file, pos, most, k)
  {
    hide SplitFrom, Words, RawTokens, Steady, Script, RegularCommand, ReadsCommand, LineLength;
    var line := LineAt(file, pos);
    var d := Split(line).cmds[k].start;
    StartsInLine(file, pos, k);
    LineTail(file, pos, d);
    SplitRest(line, k);
    FirstLine(file, pos, k);
    FirstPosition(file, pos + |line|, most);
    var s := Split(line[d..]);
    forall i | 0 <= i < |s.cmds|
      ensures ReadsCommand(file, pos, k + i, s.cmds[i], pos + d + s.cmds[i].loffs, i == |s.cmds| - 1)
    {
      ReadCommand(file, pos, k + i, s.cmds[i], d);
    }
  }

  // A line further down is read as part of what is left of the file.
  lemma {:induction false} ReadBelow(file: string, pos: nat, most: nat, k: nat)
    requires pos < |file| && |LineScript(LineAt(file, pos))| <= k
    requires Reads(file, pos + LineLength(file, pos), most, k - |LineScript(LineAt(file, pos))|)
    ensures Reads(file, pos, most, k)
  {
    hide SplitFrom, Words, RawTokens, Steady;
    var next, n := pos + LineLength(file, pos), |LineScript(LineAt(file, pos))|;
    var b := Position(file, pos, k);
    var s := Split(LineAt(file, b));
    forall i | 0 <= i < |s.cmds|
      ensures ReadsCommand(file, pos, k + i, s.cmds[i], b + s.cmds[i].loffs, i == |s.cmds| - 1)
    {
      assert ReadsCommand(file, next, k - n + i, s.cmds[i], b + s.cmds[i].loffs, i == |s.cmds| - 1);
    }
  }

  /** In a regular file, the line read at the first byte of a command that begins a line or a loop
      gives that command and the rest of its line, and no others. */
  lemma {:induction false} ReadAt(file: string, pos: nat, most: nat, k: nat)
    requires pos <= |file| && Regular(file, pos, most)
    requires k < |Script(file, pos)| && Entry(Script(file, pos), k)
    ensures Reads(file, pos, most, k)
    decreases |file| - pos
  {
    hide SplitFrom, Words, RawTokens, Steady, Reads;
    var line := LineAt(file, pos);
    var n := |LineScript(line)|;
    if k < n {
      ReadInLine(file, pos, most, k);
    } else {
      ReadAt(file, pos + LineLength(file, pos), most, k - n);
      ReadBelow(file, pos, most, k);
    }
  }
}
