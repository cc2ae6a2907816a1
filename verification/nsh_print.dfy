/** Scripts written out as text, in plain words, and read back. */
module NshPrint {
  import opened Basics
  import opened NshLexer
  import opened NshLexerLaws
  import opened NshLine
  import opened NshMachine
  import opened NshText

  // ----- Words and blanks -----

  predicate Blank(c: char) {
    c == ' ' || c == '\t' || c == '\n'
  }

  predicate Blanks(s: string) {
    forall i | 0 <= i < |s| :: Blank(s[i])
  }

  // A character that has no meaning of its own in a word.
  predicate PlainChar(c: char) {
    !Blank(c) && c != '"' && c != ';' && c != '#' && c != '\\' && c != '`' && c != '\0'
  }

  predicate PlainWord(w: string) {
    w != "" && w[0] != '>' && forall i | 0 <= i < |w| :: PlainChar(w[i])
  }

  function Spaced(words: seq<string>): string {
    if words == [] then "" else if |words| == 1 then words[0] else words[0] + " " + Spaced(words[1..])
  }

  lemma BlanksAreSeparators(c: char)
    ensures c in TokenSeparators <==> Blank(c)
  {
    assert TokenSeparators[0] == ' ' && TokenSeparators[1] == '\t' && TokenSeparators[2] == '\n';
  }

  // A word ends where a blank follows, or nothing.
  lemma {:induction false} WordEnds(w: string, x: string)
    requires (forall i | 0 <= i < |w| :: PlainChar(w[i])) && (x == "" || Blank(x[0]))
    ensures TokenEnd(w + x, TokenSeparators, false, false) == |w|
    decreases |w|
  {
    if w == "" {
      assert w + x == x;
      if x != "" {
        BlanksAreSeparators(x[0]);
      }
    } else {
      BlanksAreSeparators(w[0]);
      WordEnds(w[1..], x);
      assert (w + x)[1..] == w[1..] + x;
    }
  }

  lemma {:induction false} ReadWord(w: string, x: string)
    requires PlainWord(w) && (x == "" || Blank(x[0]))
    ensures RawToken(w + x) == Some(NshLexer.Token(w, if x == "" then "" else x[1..]))
  {
    hide TokenEnd;
    var s := w + x;
    BlanksAreSeparators(w[0]);
    WordEnds(w, x);
    assert s[0] == w[0] && s[..|w|] == w;
    assert x != "" ==> s[|w| + 1..] == x[1..];
  }

  lemma {:induction false} ReadBlank(x: string)
    requires x != "" && Blank(x[0])
    ensures RawTokens(x) == RawTokens(x[1..])
  {
    BlanksAreSeparators(x[0]);
  }

  lemma {:induction false} NoWords(x: string)
    requires Blanks(x)
    ensures RawTokens(x) == []
    decreases |x|
  {
    hide RawTokens;
    if x == "" {
      NothingToRead();
    } else {
      ReadBlank(x);
      NoWords(x[1..]);
    }
  }

  lemma {:induction false} NothingToRead()
    ensures RawTokens("") == []
  {
  }

  lemma {:induction false} TokensNext(s: string, t: NshLexer.Token)
    requires RawToken(s) == Some(t)
    ensures RawTokens(s) == [t.arg] + RawTokens(t.rest)
  {
    hide RawToken;
  }

  /** Plain words with blanks before, between and behind them are read as just these words. */
  lemma {:induction false} ReadWords(lead: string, words: seq<string>, trail: string)
    requires Blanks(lead) && Blanks(trail) && forall i | 0 <= i < |words| :: PlainWord(words[i])
    ensures RawTokens(lead + Spaced(words) + trail) == words
    decreases |words|, |lead|
  {
    hide RawTokens, RawToken, PlainWord;
    var s := lead + Spaced(words) + trail;
    if words == [] {
      NoWords(s);
    } else if lead != "" {
      ReadBlank(s);
      assert s[1..] == lead[1..] + Spaced(words) + trail;
      ReadWords(lead[1..], words, trail);
    } else if |words| == 1 {
      assert s == words[0] + trail;
      ReadLastWord(words[0], trail);
    } else {
      var x := Spaced(words[1..]) + trail;
      assert s == words[0] + (" " + x);
      ReadFirstWord(words[0], x);
      assert x == "" + Spaced(words[1..]) + trail;
      ReadWords("", words[1..], trail);
    }
  }

  lemma ReadLastWord(w: string, trail: string)
    requires PlainWord(w) && Blanks(trail)
    ensures RawTokens(w + trail) == [w]
  {
    hide RawTokens, RawToken, PlainWord;
    ReadWord(w, trail);
    TokensNext(w + trail, RawToken(w + trail).value);
    if trail == "" {
      NothingToRead();
    } else {
      NoWords(trail[1..]);
    }
  }

  lemma ReadFirstWord(w: string, x: string)
    requires PlainWord(w)
    ensures RawTokens(w + (" " + x)) == [w] + RawTokens(x)
  {
    hide RawTokens, RawToken, PlainWord;
    var s := w + (" " + x);
    ReadWord(w, " " + x);
    assert (" " + x)[1..] == x;
    TokensNext(s, RawToken(s).value);
  }

  // ----- Commands -----

  // The word for a token.
  function Spelling(t: NshMachine.Token): string {
    match t
    case While => "while"
    case Until => "until"
    case Do => "do"
    case Done => "done"
    case If => "if"
    case Bang => "!"
    case Then => "then"
    case Else => "else"
    case Fi => "fi"
    case Break => "break"
    case Word(text) => text
  }

  function Spellings(toks: Argv): (words: seq<string>)
    ensures |words| == |toks|
  {
    seq(|toks|, i requires 0 <= i < |toks| => Spelling(toks[i]))
  }

  // A name that needs no quotation and is no reserved word.
  predicate PlainName(s: string) {
    PlainWord(s) && '$' !in s
    && s !in ["while", "until", "do", "done", "if", "!", "then", "else", "fi", "break"]
  }

  predicate PlainArguments(toks: Argv) {
    forall i | 0 <= i < |toks| :: toks[i].Word? && PlainWord(toks[i].text)
  }

  // A command in plain words: reserved words, then possibly a name or `break` and its arguments.
  predicate PlainCommand(toks: Argv) {
    if toks == [] then true
    else if toks[0].Word? then PlainName(toks[0].text) && PlainArguments(toks[1..])
    else if toks[0].Break? then PlainArguments(toks[1..])
    else PlainCommand(toks[1..])
  }

  lemma PlainIsPlain(s: string)
    requires PlainWord(s) && '$' !in s
    ensures '`' !in s && Expand(NoShell, s) == s
  {
    hide Unquote;
    assert forall i | 0 <= i < |s| :: s[i] != '`' && s[i] != '\\';
    NothingToExpand(s, false);
    assert "" + s == s;
    PlainValue(s);
  }

  lemma ReservedIsPlain(t: NshMachine.Token)
    requires !t.Word?
    ensures PlainWord(Spelling(t)) && '$' !in Spelling(t)
  {
  }

  // A word is read as what it was written for.
  lemma ReadBack(t: NshMachine.Token)
    requires t.Word? ==> PlainName(t.text)
    ensures PlainWord(Spelling(t)) && '$' !in Spelling(t) && '`' !in Spelling(t)
    ensures Classify(Expand(NoShell, Spelling(t))) == t
  {
    hide Expand;
    if !t.Word? {
      ReservedIsPlain(t);
    }
    PlainIsPlain(Spelling(t));
  }

  lemma {:induction false} SpellingsArePlain(toks: Argv)
    requires PlainCommand(toks)
    ensures forall i | 0 <= i < |toks| :: PlainWord(Spellings(toks)[i])
  {
    if toks != [] {
      if !toks[0].Word? {
        ReservedIsPlain(toks[0]);
      }
      if !toks[0].Word? && !toks[0].Break? {
        SpellingsArePlain(toks[1..]);
        forall i | 1 <= i < |toks| ensures PlainWord(Spellings(toks)[i]) {
          assert Spellings(toks)[i] == Spellings(toks[1..])[i - 1];
        }
      } else {
        forall i | 1 <= i < |toks| ensures PlainWord(Spellings(toks)[i]) {
          assert toks[i] == toks[1..][i - 1];
        }
      }
    }
  }

  // The words of a command stand for its tokens.
  lemma {:induction false} WordsOfSpellings(toks: Argv)
    requires PlainCommand(toks)
    ensures Words(NoShell, Spellings(toks)) == toks && Steady(Spellings(toks))
  {
    hide Expand, Classify, Spelling, PlainWord;
    if toks != [] {
      ReadBack(toks[0]);
      var rest := Spellings(toks)[1..];
      assert rest == Spellings(toks[1..]);
      if toks[0].Word? || toks[0].Break? {
        ArgumentsOfSpellings(toks[1..]);
      } else {
        WordsOfSpellings(toks[1..]);
      }
      assert toks == [toks[0]] + toks[1..];
    }
  }

  lemma ArgumentsOfSpellings(toks: Argv)
    requires PlainArguments(toks)
    ensures Arguments(Spellings(toks)) == toks
  {
  }

  // ----- Lines -----

  function Spelled(toks: Argv): string {
    Spaced(Spellings(toks))
  }

  function PrintLine(cmds: seq<Argv>): string
    requires cmds != []
  {
    Spelled(cmds[0]) + if |cmds| == 1 then "\n" else "; " + PrintLine(cmds[1..])
  }

  ghost predicate PlainLine(cmds: seq<Argv>) {
    cmds != [] && forall i | 0 <= i < |cmds| :: PlainCommand(cmds[i])
  }

  // The texts between the semicolons, when `lead` stands before the first.
  function Texts(lead: string, cmds: seq<Argv>): (texts: seq<string>)
    ensures |texts| == |cmds|
  {
    seq(|cmds|, i requires 0 <= i < |cmds| => (if i == 0 then lead else " ") + Spelled(cmds[i]))
  }

  lemma {:induction false} LineIsJoined(lead: string, cmds: seq<Argv>)
    requires cmds != []
    ensures lead + PrintLine(cmds) == Joined(Texts(lead, cmds), "\n")
    decreases |cmds|
  {
    hide Spelled;
    if |cmds| > 1 {
      LineIsJoined(" ", cmds[1..]);
      assert Texts(lead, cmds)[1..] == Texts(" ", cmds[1..]);
      assert lead + PrintLine(cmds) == (lead + Spelled(cmds[0])) + (";" + (" " + PrintLine(cmds[1..])));
    }
  }

  // What stands in a printed command, and in a printed line.
  predicate Tame(c: char) {
    c != '"' && c != ';' && c != '#' && c != '\n' && c != '\0'
  }

  lemma {:induction false} SpacedIsTame(words: seq<string>)
    requires forall i | 0 <= i < |words| :: PlainWord(words[i])
    ensures forall j | 0 <= j < |Spaced(words)| :: Tame(Spaced(words)[j])
  {
    if |words| > 1 {
      SpacedIsTame(words[1..]);
    }
  }

  lemma SpelledIsTame(toks: Argv)
    requires PlainCommand(toks)
    ensures forall j | 0 <= j < |Spelled(toks)| :: Tame(Spelled(toks)[j])
  {
    hide Spaced;
    SpellingsArePlain(toks);
    SpacedIsTame(Spellings(toks));
  }

  // A line has one newline, at its end, and no quotation mark.
  lemma {:induction false} LineIsTame(cmds: seq<Argv>)
    requires PlainLine(cmds)
    ensures var s := PrintLine(cmds);
            s != "" && s[|s| - 1] == '\n' && forall j | 0 <= j < |s| - 1 :: Tame(s[j]) || s[j] == ';'
    decreases |cmds|
  {
    hide Spelled;
    assert PlainCommand(cmds[0]);
    SpelledIsTame(cmds[0]);
    if |cmds| > 1 {
      LineIsTame(cmds[1..]);
    }
  }

  lemma TextIsWhole(lead: string, toks: Argv)
    requires PlainCommand(toks) && (lead == "" || lead == " ")
    ensures Whole(lead + Spelled(toks))
  {
    hide Spelled, Whole;
    SpelledIsTame(toks);
    BareIsWhole(lead + Spelled(toks));
  }

  // Command i of a line is handed over with the words it was written in.
  lemma LineIsRead(cmds: seq<Argv>)
    requires PlainLine(cmds)
    ensures var s := Split(PrintLine(cmds));
            && s.ok && |s.cmds| == |cmds|
            && forall i | 0 <= i < |cmds| :: RawTokens(s.cmds[i].text) == Spellings(cmds[i])
  {
    hide Whole, Joined, PrintLine, SplitFrom, RawTokens, PlainCommand, Spaced;
    var texts := Texts("", cmds);
    LineIsJoined("", cmds);
    assert "" + PrintLine(cmds) == PrintLine(cmds);
    forall i | 0 <= i < |texts| ensures Whole(texts[i]) {
      TextIsWhole(if i == 0 then "" else " ", cmds[i]);
    }
    SplitOfJoined(texts, "\n");
    forall i | 0 <= i < |cmds| ensures RawTokens(Split(PrintLine(cmds)).cmds[i].text) == Spellings(cmds[i]) {
      SpellingsArePlain(cmds[i]);
      ReadWords(if i == 0 then "" else " ", Spellings(cmds[i]), if i == |cmds| - 1 then "\n" else "");
    }
  }

  // The commands of a line, of which the last ends it.
  function Laid(cmds: seq<Argv>): seq<Cmd> {
    seq(|cmds|, i requires 0 <= i < |cmds| => Cmd(cmds[i], i == |cmds| - 1))
  }

  lemma LineIsRegular(cmds: seq<Argv>)
    requires PlainLine(cmds)
    ensures RegularLine(PrintLine(cmds)) && LineScript(PrintLine(cmds)) == Laid(cmds)
  {
    hide PrintLine, SplitFrom, RawTokens, PlainCommand, Words, Steady, Spellings;
    var line := PrintLine(cmds);
    LineIsRead(cmds);
    LineIsTame(cmds);
    assert '"' !in line && '\0' !in line;
    forall i | 0 <= i < |cmds|
      ensures RegularCommand(line, Split(line).cmds[i]) && LineScript(line)[i] == Laid(cmds)[i]
    {
      WordsOfSpellings(cmds[i]);
    }
  }

  // ----- Files -----

  function PrintLines(lines: seq<seq<Argv>>): string
    requires forall i | 0 <= i < |lines| :: lines[i] != []
  {
    if lines == [] then "" else PrintLine(lines[0]) + PrintLines(lines[1..])
  }

  function LaidOut(lines: seq<seq<Argv>>): seq<Cmd> {
    if lines == [] then [] else Laid(lines[0]) + LaidOut(lines[1..])
  }

  // Plain words, in lines that fit the buffer.
  ghost predicate PlainText(lines: seq<seq<Argv>>, most: nat) {
    forall i | 0 <= i < |lines| :: PlainLine(lines[i]) && |PrintLine(lines[i])| <= most
  }

  lemma {:induction false} LineLengthIs(file: string, pos: nat, n: nat)
    requires 0 < n && pos + n <= |file| && file[pos + n - 1] == '\n'
    requires forall j | pos <= j < pos + n - 1 :: file[j] != '\n'
    ensures LineLength(file, pos) == n
    decreases n
  {
    if n > 1 {
      LineLengthIs(file, pos + 1, n - 1);
    }
  }

  lemma FirstLineIs(file: string, pos: nat, cmds: seq<Argv>)
    requires pos <= |file| && PlainLine(cmds) && PrintLine(cmds) <= file[pos..]
    ensures LineLength(file, pos) == |PrintLine(cmds)| && LineAt(file, pos) == PrintLine(cmds)
  {
    hide PrintLine, LineLength;
    var line := PrintLine(cmds);
    LineIsTame(cmds);
    assert forall j | pos <= j < pos + |line| :: file[j] == file[pos..][j - pos] == line[j - pos];
    LineLengthIs(file, pos, |line|);
    assert file[pos..pos + |line|] == file[pos..][..|line|];
  }

  /** Commands in plain words, laid out in any lines with semicolons between them, are read back from
      the text as they were, and the text is regular. */
  lemma {:induction false} FileIsRead(file: string, pos: nat, lines: seq<seq<Argv>>, most: nat)
    requires pos <= |file| && PlainText(lines, most) && file[pos..] == PrintLines(lines)
    ensures Script(file, pos) == LaidOut(lines) && Regular(file, pos, most)
    decreases |lines|
  {
    hide PrintLine, LineLength, RegularLine, LineScript, PlainCommand, Laid;
    if lines != [] {
      var line, rest := PrintLine(lines[0]), lines[1..];
      assert file[pos..] == line + PrintLines(rest);
      LinesArePlain(lines, most);
      FirstLineIs(file, pos, lines[0]);
      LineIsRegular(lines[0]);
      assert file[pos + |line|..] == file[pos..][|line|..] == PrintLines(rest);
      FileIsRead(file, pos + |line|, rest, most);
    }
  }

  lemma LinesArePlain(lines: seq<seq<Argv>>, most: nat)
    requires lines != [] && PlainText(lines, most)
    ensures PlainLine(lines[0]) && |PrintLine(lines[0])| <= most && PlainText(lines[1..], most)
    ensures PrintLine(lines[0]) != ""
  {
    hide PrintLine;
    LineIsTame(lines[0]);
  }
}
