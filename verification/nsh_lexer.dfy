/** The NSH lexer as functions on strings: splitting a line into commands, cutting a command into
    tokens, expanding a token and removing backslashes. */
module NshLexer {
  import opened Basics

  // ----- Escaped characters -----

  // Character i is escaped: an unescaped backslash stands before it.
  predicate Escaped(s: string, i: nat)
    requires i <= |s|
  {
    i > 0 && s[i - 1] == '\\' && !Escaped(s, i - 1)
  }

  // nsh_strchr: the value of `quoted` when the scan, begun with value q, reaches character i.
  predicate ForwardFlag(s: string, q: bool, i: nat)
    requires i <= |s|
  {
    if i == 0 then q else ForwardFlag(s[1..], s[0] == '\\' && !q, i - 1)
  }

  // nsh_argument: the value of `quoted` after the loop body for character i.
  predicate ScanFlag(s: string, i: nat)
    requires i < |s|
  {
    i > 0 && s[i - 1] == '\\' && !ScanFlag(s, i - 1)
  }

  // nsh_argexpand: the number of backslashes that end just before character i.
  function BackslashRun(s: string, i: nat): (n: nat)
    requires i <= |s|
    ensures n <= i
  {
    if i > 0 && s[i - 1] == '\\' then 1 + BackslashRun(s, i - 1) else 0
  }

  // nsh_dequote: the characters left of s[i..] when backslashes that are not escaped go.
  function Kept(s: string, i: nat): string
    requires i <= |s|
    decreases |s| - i
  {
    if i == |s| then []
    else (if s[i] == '\\' && !Escaped(s, i) then [] else [s[i]]) + Kept(s, i + 1)
  }

  // nsh_dequote as it runs: `quoted` says that the last step removed a backslash.
  function Unquote(s: string, quoted: bool): (r: string)
    ensures |r| <= |s|
  {
    if s == [] then []
    else if s[0] == '\\' && !quoted then Unquote(s[1..], true)
    else [s[0]] + Unquote(s[1..], false)
  }

  function Dequote(s: string): (r: string)
    ensures |r| <= |s|
  {
    Unquote(s, false)
  }

  lemma {:induction false} ForwardFlagStep(s: string, q: bool, i: nat)
    requires i < |s|
    ensures ForwardFlag(s, q, i + 1) == (s[i] == '\\' && !ForwardFlag(s, q, i))
    decreases i
  {
    if i > 0 {
      ForwardFlagStep(s[1..], s[0] == '\\' && !q, i - 1);
    }
  }

  /** The forward flag of nsh_strchr, the prev/quoted scan of nsh_argument and the backward parity
      of nsh_argexpand agree at every position of every string. */
  lemma {:induction false} EscapeNotionsAgree(s: string, i: nat)
    requires i <= |s|
    ensures ForwardFlag(s, false, i) == Escaped(s, i)
    ensures i < |s| ==> ScanFlag(s, i) == Escaped(s, i)
    ensures (BackslashRun(s, i) % 2 == 1) == Escaped(s, i)
    decreases i
  {
    if i > 0 {
      EscapeNotionsAgree(s, i - 1);
      ForwardFlagStep(s, false, i - 1);
    }
  }

  /** nsh_dequote removes the unescaped backslashes and nothing else. */
  lemma {:induction false} DequoteKeeps(s: string, i: nat)
    requires i <= |s|
    ensures Unquote(s[i..], Escaped(s, i)) == Kept(s, i)
    decreases |s| - i
  {
    if i < |s| {
      DequoteKeeps(s, i + 1);
      assert s[i..][1..] == s[i + 1..];
    }
  }

  lemma DequoteIsKept(s: string)
    ensures Dequote(s) == Kept(s, 0)
  {
    DequoteKeeps(s, 0);
    assert s[0..] == s;
  }

  // ----- Searching -----

  const TokenSeparators := " \t\n"
  const LineSeparators := "\"#;\n"
  const ArgSeparators := "`$"

  /** nsh_strchr: the first ch that is not escaped; q says whether the first character is. */
  function Find(s: string, ch: char, q: bool): (r: Option<nat>)
    ensures r.Some? ==> r.value < |s| && s[r.value] == ch
  {
    if s == [] then None
    else if s[0] == '\\' && !q then Bump(Find(s[1..], ch, true))
    else if s[0] == ch && !q then Some(0)
    else Bump(Find(s[1..], ch, false))
  }

  function Bump(r: Option<nat>): Option<nat> {
    match r
    case None => None
    case Some(k) => Some(k + 1)
  }

  // The first character, escaped or not, that is one of cs (strcspn).
  function Span(s: string, cs: string): (n: nat)
    ensures n <= |s|
    ensures n < |s| ==> s[n] in cs
    ensures forall i | 0 <= i < n :: s[i] !in cs
  {
    if s == [] || s[0] in cs then 0 else 1 + Span(s[1..], cs)
  }

  /** nsh_argument: where a token ends: at a character of `term` that is neither escaped nor in a
      back-quoted substring. */
  function TokenEnd(s: string, term: string, q: bool, backquote: bool): (n: nat)
    ensures n <= |s|
    ensures n < |s| ==> s[n] in term
  {
    if s == [] then 0
    else if q then 1 + TokenEnd(s[1..], term, false, backquote)
    else if s[0] == '\\' then 1 + TokenEnd(s[1..], term, true, backquote)
    else if s[0] == '`' then 1 + TokenEnd(s[1..], term, false, !backquote)
    else if !backquote && s[0] in term then 0
    else 1 + TokenEnd(s[1..], term, false, backquote)
  }

  // The first back-quote or dollar sign that is not escaped.
  function FirstSpecial(s: string, q: bool): (n: nat)
    ensures n <= |s|
    ensures n < |s| ==> s[n] in ArgSeparators
  {
    if s == [] then 0
    else if s[0] in ArgSeparators && !q then 0
    else 1 + FirstSpecial(s[1..], s[0] == '\\' && !q)
  }

  // The scanners, character by character.
  lemma {:induction false} SpecialCons(c: char, t: string, q: bool)
    ensures FirstSpecial([c] + t, q) == if c in ArgSeparators && !q then 0 else 1 + FirstSpecial(t, c == '\\' && !q)
  {
    assert ([c] + t)[1..] == t;
  }

  lemma {:induction false} FindCons(c: char, t: string, ch: char, q: bool)
    ensures Find([c] + t, ch, q) == if c == '\\' && !q then Bump(Find(t, ch, true))
                                    else if c == ch && !q then Some(0)
                                    else Bump(Find(t, ch, false))
  {
    assert ([c] + t)[1..] == t;
  }

  lemma {:induction false} FindNothing(s: string, ch: char, q: bool)
    requires s == ""
    ensures Find(s, ch, q) == None
  {
  }

  lemma {:induction false} FindIsFirstUnescaped(s: string, ch: char, i: nat)
    requires i <= |s| && ch != '\\'
    ensures var r := Find(s[i..], ch, Escaped(s, i));
            match r
            case None => forall j | i <= j < |s| && s[j] == ch :: Escaped(s, j)
            case Some(k) =>
              && s[i + k] == ch && !Escaped(s, i + k)
              && forall j | i <= j < i + k && s[j] == ch :: Escaped(s, j)
    decreases |s| - i
  {
    hide Find;
    if i == |s| {
      FindNothing(s[i..], ch, Escaped(s, i));
    } else {
      FindIsFirstUnescaped(s, ch, i + 1);
      FindCons(s[i], s[i + 1..], ch, Escaped(s, i));
      assert s[i..] == [s[i]] + s[i + 1..];
    }
  }

  lemma {:induction false} SpecialIsFirstUnescaped(s: string, i: nat)
    requires i <= |s|
    ensures var n := i + FirstSpecial(s[i..], Escaped(s, i));
            && (n < |s| ==> !Escaped(s, n))
            && forall j | i <= j < n && s[j] in ArgSeparators :: Escaped(s, j)
    decreases |s| - i
  {
    hide FirstSpecial;
    if i < |s| {
      SpecialIsFirstUnescaped(s, i + 1);
      SpecialCons(s[i], s[i + 1..], Escaped(s, i));
      assert s[i..] == [s[i]] + s[i + 1..];
    }
  }

  // Character i stands between back-quotes: the number of those before it that are not escaped is odd.
  predicate InBackquotes(s: string, i: nat)
    requires i <= |s|
  {
    i > 0 && InBackquotes(s, i - 1) != (s[i - 1] == '`' && !Escaped(s, i - 1))
  }

  lemma {:induction false} TokenEndNext(s: string, i: nat, term: string)
    requires i < |s| && '`' !in term && '\\' !in term
    ensures TokenEnd(s[i..], term, Escaped(s, i), InBackquotes(s, i)) ==
            if s[i] in term && !Escaped(s, i) && !InBackquotes(s, i) then 0
            else 1 + TokenEnd(s[i + 1..], term, Escaped(s, i + 1), InBackquotes(s, i + 1))
  {
    assert s[i..][1..] == s[i + 1..];
  }

  /** A token ends at the first of its terminators that is neither escaped nor between back-quotes. */
  lemma {:induction false} TokenEndIsFirst(s: string, term: string, i: nat)
    requires i <= |s| && '`' !in term && '\\' !in term
    ensures var n := i + TokenEnd(s[i..], term, Escaped(s, i), InBackquotes(s, i));
            && (n < |s| ==> s[n] in term && !Escaped(s, n) && !InBackquotes(s, n))
            && forall j | i <= j < n && s[j] in term :: Escaped(s, j) || InBackquotes(s, j)
    decreases |s| - i
  {
    hide TokenEnd;
    if i < |s| {
      TokenEndNext(s, i, term);
      TokenEndIsFirst(s, term, i + 1);
    }
  }

  // ----- Expansion -----

  // Where values come from: the environment, the last status, and commands in back-quotes.
  datatype Shell = Shell(vars: map<string, string>, fail: bool, command: string -> string)

  // nsh_envexpand
  function EnvValue(sh: Shell, name: string): string {
    if name == "?" then (if sh.fail then "1" else "0")
    else if name in sh.vars then sh.vars[name]
    else ""
  }

  // A reference that begins with `special`, a back-quote or a dollar sign, and goes on with `rest`:
  // its value and the text after it.  None if the closing back-quote or bracket is missing; a name
  // without brackets extends to the end.
  datatype Resolved = Resolved(value: string, rest: string)

  function Resolve(sh: Shell, special: char, rest: string): (r: Option<Resolved>)
    ensures r.Some? ==> |r.value.rest| <= |rest|
  {
    if special == '`' then
      match Find(rest, '`', false)
      case None => None
      case Some(k) => Some(Resolved(sh.command(rest[..k]), rest[k + 1..]))
    else if rest != "" && rest[0] == '{' then
      match Find(rest[1..], '}', false)
      case None => None
      case Some(k) => Some(Resolved(EnvValue(sh, rest[1..][..k]), rest[1..][k + 1..]))
    else
      Some(Resolved(EnvValue(sh, rest), ""))
  }

  /** nsh_argexpand from the point where `acc` has been put together and `w` is still unread.  An
      unfinished reference gives the empty string. */
  function ExpandFrom(sh: Shell, w: string, acc: string): string
    decreases |w|
  {
    var p := FirstSpecial(w, false);
    if p == |w| then
      Dequote(acc + w)
    else
      match Resolve(sh, w[p], w[p + 1..])
      case None => ""
      case Some(r) => ExpandFrom(sh, r.rest, acc + w[..p] + r.value)
  }

  function Expand(sh: Shell, raw: string): string {
    ExpandFrom(sh, raw, "")
  }

  // ----- Tokens -----

  datatype Token = Token(arg: string, rest: string)

  // The text after the delimiter at n, or nothing if n is the end.
  function After(s: string, n: nat): (r: string)
    requires n <= |s|
    ensures |r| <= |s| && (n > 0 || |s| > 0 ==> |r| < |s|)
  {
    if n < |s| then s[n + 1..] else []
  }

  /** nsh_argument: the next token of a command, if there is one. */
  function NextToken(sh: Shell, s: string): (r: Option<Token>)
    ensures r.Some? ==> |r.value.rest| < |s|
  {
    if s == [] then None
    else if s[0] in TokenSeparators then NextToken(sh, s[1..])
    else if s[0] == '>' then
      if |s| > 1 && s[1] == '>' then Some(Token(">>", s[2..])) else Some(Token(">", s[1..]))
    else if s[0] == '#' then None
    else if s[0] == '"' then
      var n := TokenEnd(s[1..], "\"", false, false);
      Some(Token(Expand(sh, s[1..][..n]), After(s[1..], n)))
    else
      var n := TokenEnd(s, TokenSeparators, false, false);
      Some(Token(Expand(sh, s[..n]), After(s, n)))
  }

  function Tokens(sh: Shell, s: string): seq<string>
    decreases |s|
  {
    match NextToken(sh, s)
    case None => []
    case Some(t) => [t.arg] + Tokens(sh, t.rest)
  }

  // ----- Commands of a line -----

  // A command begins at `start` and its delimiter stands at `end`; `loffs` is the offset that
  // nsh_parse records for it, and `text` is what nsh_parse_command is given.
  datatype Command = Command(start: nat, end: nat, loffs: nat, text: string)

  // `ok` is false if the line has an opening quotation mark and no closing one.
  datatype Commands = Commands(cmds: seq<Command>, ok: bool)

  // What nsh_parse finds from `working` on: the end of the last command, a semicolon, or a quoted
  // string to step over.
  datatype Found = Last(at: nat) | Semicolon(at: nat) | Quoted(at: nat, next: nat) | Unmatched

  function Look(line: string, working: nat): (f: Found)
    requires working <= |line|
    ensures f.Last? ==> working <= f.at <= |line|
    ensures f.Semicolon? ==> working <= f.at < |line| && line[f.at] == ';'
    ensures f.Quoted? ==> working <= f.at < f.next <= |line| && line[f.at] == line[f.next - 1] == '"'
    ensures !f.Unmatched? ==> '"' !in line[working..f.at]
  {
    var p := working + Span(line[working..], LineSeparators);
    assert forall i | working <= i < p :: line[i] == line[working..][i - working] != '"';
    if p == |line| || line[p] == '\n' || line[p] == '#' then
      Last(p)
    else if line[p] == ';' then
      Semicolon(p)
    else
      match Find(line[p + 1..], '"', false)
      case None => Unmatched
      case Some(k) => Quoted(p, p + k + 2)
  }

  /** nsh_parse from the point where the current command began at `start` and the text has been
      looked at up to `working`. */
  function SplitFrom(line: string, start: nat, working: nat): (r: Commands)
    requires start <= working <= |line|
    ensures forall i | 0 <= i < |r.cmds| ::
              start <= r.cmds[i].start <= r.cmds[i].end <= |line| && r.cmds[i].start <= r.cmds[i].loffs <= |line|
    decreases |line| - working
  {
    match Look(line, working)
    case Last(p) =>
      Commands([Command(start, p, working, line[start..])], true)
    case Semicolon(p) =>
      var rest := SplitFrom(line, p + 1, p + 1);
      Commands([Command(start, p, working, line[start..p])] + rest.cmds, rest.ok)
    case Quoted(_, next) => SplitFrom(line, start, next)
    case Unmatched => Commands([], false)
  }

  function Split(line: string): (r: Commands)
    ensures forall i | 0 <= i < |r.cmds| ::
              r.cmds[i].start <= r.cmds[i].end <= |line| && r.cmds[i].start <= r.cmds[i].loffs <= |line|
  {
    SplitFrom(line, 0, 0)
  }

  // SplitFrom, case by case.
  lemma {:induction false} LastCommand(line: string, start: nat, working: nat)
    requires start <= working <= |line| && Look(line, working).Last?
    ensures SplitFrom(line, start, working) ==
            Commands([Command(start, Look(line, working).at, working, line[start..])], true)
  {
  }

  lemma {:induction false} OtherCommand(line: string, start: nat, working: nat)
    requires start <= working <= |line|
    ensures Look(line, working).Quoted? ==>
              SplitFrom(line, start, working) == SplitFrom(line, start, Look(line, working).next)
    ensures Look(line, working).Unmatched? ==> SplitFrom(line, start, working) == Commands([], false)
  {
  }

  lemma {:induction false} FirstCommand(line: string, start: nat, working: nat)
    requires start <= working <= |line| && Look(line, working).Semicolon?
    ensures var p := Look(line, working).at;
            var rest := SplitFrom(line, p + 1, p + 1);
            SplitFrom(line, start, working) ==
                Commands([Command(start, p, working, line[start..p])] + rest.cmds, rest.ok)
  {
  }
}
