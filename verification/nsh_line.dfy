/** What the splitting of a line into commands comes to, character by character: commands are the
    stretches between semicolons outside quoted strings, up to a comment or the end of the line. */
module NshLine {
  import opened NshLexer

  // ----- Inside and outside quoted strings -----

  datatype Mode = Outside | Inside(escaped: bool)

  // A quotation mark opens a string; in it a backslash escapes what follows, and the next quotation
  // mark that is not escaped closes it.
  function Past(m: Mode, c: char): Mode {
    match m
    case Outside => if c == '"' then Inside(false) else Outside
    case Inside(true) => Inside(false)
    case Inside(false) => if c == '\\' then Inside(true) else if c == '"' then Outside else Inside(false)
  }

  function ModeAt(line: string, i: nat): Mode
    requires i <= |line|
  {
    if i == 0 then Outside else Past(ModeAt(line, i - 1), line[i - 1])
  }

  // A character that ends a command.
  predicate Delimiter(line: string, p: nat) {
    p < |line| && ModeAt(line, p) == Outside && (line[p] == ';' || line[p] == '#' || line[p] == '\n')
  }

  ghost predicate Clear(line: string, a: nat, b: nat) {
    forall p: nat | a <= p < b :: !Delimiter(line, p)
  }

  // The commands of a line from `start` on: each goes up to the next delimiter.  Behind a semicolon
  // comes another; a comment, a newline or the end of the line ends the last one, which is handed
  // over with all that follows it.  If the line ends within a quoted string, what comes behind the
  // last semicolon is no command and the line is not well-formed.
  ghost predicate CutsInto(line: string, start: nat, cmds: seq<Command>, ok: bool)
    requires start <= |line|
    decreases |cmds|
  {
    if cmds == [] then
      !ok && Clear(line, start, |line|) && ModeAt(line, |line|) != Outside
    else
      var c := cmds[0];
      && c.start == start <= c.end <= |line| && Clear(line, start, c.end)
      && if c.end < |line| && line[c.end] == ';' then
           Delimiter(line, c.end) && c.text == line[start..c.end] && CutsInto(line, c.end + 1, cmds[1..], ok)
         else
           && ok && |cmds| == 1 && c.text == line[start..]
           && if c.end < |line| then Delimiter(line, c.end) else ModeAt(line, |line|) == Outside
  }

  // Characters outside that open no string.
  lemma {:induction false} StaysOutside(line: string, a: nat, b: nat)
    requires a <= b <= |line| && ModeAt(line, a) == Outside && '"' !in line[a..b]
    ensures forall p | a <= p <= b :: ModeAt(line, p) == Outside
    decreases b
  {
    if a < b {
      assert line[a..b] == line[a..b - 1] + [line[b - 1]];
      StaysOutside(line, a, b - 1);
    }
  }

  // From within a string to its end, where Find puts it.
  lemma {:induction false} StaysInside(line: string, a: nat, q: bool)
    requires a <= |line| && ModeAt(line, a) == Inside(q)
    ensures match Find(line[a..], '"', q)
            case None => forall p | a <= p <= |line| :: ModeAt(line, p) != Outside
            case Some(k) =>
              && (forall p | a <= p <= a + k :: ModeAt(line, p) != Outside) && ModeAt(line, a + k + 1) == Outside
    decreases |line| - a
  {
    hide Find;
    if a == |line| {
      FindNothing(line[a..], '"', q);
    } else {
      FindCons(line[a], line[a + 1..], '"', q);
      assert line[a..] == [line[a]] + line[a + 1..];
      if ModeAt(line, a + 1) != Outside {
        StaysInside(line, a + 1, ModeAt(line, a + 1).escaped);
      }
    }
  }

  lemma LookIsClear(line: string, working: nat)
    requires working <= |line| && ModeAt(line, working) == Outside
    ensures var f := Look(line, working);
            && (f.Last? ==> Clear(line, working, f.at) && ModeAt(line, f.at) == Outside)
            && (f.Last? && f.at < |line| ==> line[f.at] == '#' || line[f.at] == '\n')
            && (f.Semicolon? ==> Clear(line, working, f.at) && ModeAt(line, f.at) == ModeAt(line, f.at + 1) == Outside)
            && (f.Quoted? ==> Clear(line, working, f.next) && ModeAt(line, f.next) == Outside)
            && (f.Unmatched? ==> Clear(line, working, |line|) && ModeAt(line, |line|) != Outside)
  {
    hide Span, Find;
    var p := working + Span(line[working..], LineSeparators);
    assert forall i | working <= i < p :: line[i] == line[working..][i - working];
    StaysOutside(line, working, p);
    if p < |line| && line[p] == '"' {
      StaysInside(line, p + 1, false);
    }
  }

  lemma {:induction false} SplitCuts(line: string, start: nat, working: nat)
    requires start <= working <= |line| && ModeAt(line, working) == Outside && Clear(line, start, working)
    ensures var s := SplitFrom(line, start, working);
            CutsInto(line, start, s.cmds, s.ok)
    decreases |line| - working
  {
    hide Look, SplitFrom;
    LookIsClear(line, working);
    match Look(line, working) {
      case Last(p) =>
        LastCommand(line, start, working);
      case Semicolon(p) =>
        FirstCommand(line, start, working);
        SplitCuts(line, p + 1, p + 1);
        assert SplitFrom(line, start, working).cmds[1..] == SplitFrom(line, p + 1, p + 1).cmds;
      case Quoted(_, next) =>
        OtherCommand(line, start, working);
        SplitCuts(line, start, next);
      case Unmatched =>
        OtherCommand(line, start, working);
    }
  }

  /** nsh_parse cuts every line at the semicolons that stand outside its quoted strings and before
      the first comment sign or newline outside them, and nowhere else. */
  lemma LineIsCut(line: string)
    ensures CutsInto(line, 0, Split(line).cmds, Split(line).ok)
  {
    hide SplitFrom;
    SplitCuts(line, 0, 0);
  }

  // ----- Lines put together -----

  // A text that opens and closes its quoted strings and has no delimiter outside them.
  ghost predicate Whole(t: string) {
    ModeAt(t, |t|) == Outside && Clear(t, 0, |t|)
  }

  // Texts with semicolons between them, and what follows the last.
  function Joined(texts: seq<string>, tail: string): string
    requires texts != []
  {
    texts[0] + if |texts| == 1 then tail else ";" + Joined(texts[1..], tail)
  }

  // Nothing, or a comment, or a newline and anything.
  predicate Tail(tail: string) {
    tail == "" || tail[0] == '#' || tail[0] == '\n'
  }

  // A text read within a line, from a place outside the quoted strings.
  lemma {:induction false} ModeWithin(line: string, d: nat, t: string, i: nat)
    requires d + |t| <= |line| && line[d..d + |t|] == t && ModeAt(line, d) == Outside && i <= |t|
    ensures ModeAt(line, d + i) == ModeAt(t, i)
    decreases i
  {
    if i > 0 {
      ModeWithin(line, d, t, i - 1);
      assert line[d + i - 1] == line[d..d + |t|][i - 1];
    }
  }

  // The first delimiter from `start` on stands at `end`, or there is none and that is the end.
  ghost predicate FirstDelimiter(line: string, start: nat, end: nat) {
    && start <= end <= |line| && Clear(line, start, end) && ModeAt(line, end) == Outside
    && (end < |line| ==> Delimiter(line, end))
  }

  lemma FirstTextEnds(line: string, start: nat, texts: seq<string>, tail: string)
    requires start <= |line| && ModeAt(line, start) == Outside
    requires texts != [] && Tail(tail) && Whole(texts[0]) && line[start..] == Joined(texts, tail)
    ensures FirstDelimiter(line, start, start + |texts[0]|)
    ensures |texts| > 1 <==> start + |texts[0]| < |line| && line[start + |texts[0]|] == ';'
    ensures line[start..start + |texts[0]|] == texts[0]
    ensures |texts| > 1 ==> line[start + |texts[0]| + 1..] == Joined(texts[1..], tail)
  {
    hide Joined;
    var t, e := texts[0], start + |texts[0]|;
    FirstJoined(texts, tail);
    var rest := line[start..][|t|..];
    assert line[start..e] == t && line[e..] == rest;
    forall p: nat | start <= p < e ensures !Delimiter(line, p) {
      ModeWithin(line, start, t, p - start);
      assert line[p] == t[p - start] && !Delimiter(t, p - start);
    }
    ModeWithin(line, start, t, |t|);
    if e < |line| {
      assert line[e] == rest[0];
      assert line[e + 1..] == rest[1..];
    }
  }

  lemma FirstJoined(texts: seq<string>, tail: string)
    requires texts != []
    ensures var s, n := Joined(texts, tail), |texts[0]|;
            |s| >= n && s[..n] == texts[0] && s[n..] == if |texts| == 1 then tail else ";" + Joined(texts[1..], tail)
  {
  }

  // The first command ends at the first delimiter.
  lemma FirstCut(line: string, start: nat, cmds: seq<Command>, ok: bool, e: nat)
    requires start <= |line| && CutsInto(line, start, cmds, ok) && FirstDelimiter(line, start, e)
    ensures cmds != [] && cmds[0].end == e
    ensures if e < |line| && line[e] == ';' then
              cmds[0].text == line[start..e] && CutsInto(line, e + 1, cmds[1..], ok)
            else
              ok && |cmds| == 1 && cmds[0].text == line[start..]
  {
  }

  lemma {:induction false} JoinedFrom(line: string, start: nat, texts: seq<string>, tail: string, cmds: seq<Command>,
                                      ok: bool)
    requires start <= |line| && CutsInto(line, start, cmds, ok) && ModeAt(line, start) == Outside
    requires texts != [] && Tail(tail) && line[start..] == Joined(texts, tail)
    requires forall i | 0 <= i < |texts| :: Whole(texts[i])
    ensures ok && |cmds| == |texts|
    ensures forall i | 0 <= i < |texts| :: cmds[i].text == texts[i] + if i == |texts| - 1 then tail else ""
    decreases |texts|
  {
    hide Joined, Whole, CutsInto, Clear;
    var e := start + |texts[0]|;
    FirstTextEnds(line, start, texts, tail);
    FirstCut(line, start, cmds, ok, e);
    if |texts| == 1 {
      FirstJoined(texts, tail);
    } else {
      assert ModeAt(line, e + 1) == Outside;
      JoinedFrom(line, e + 1, texts[1..], tail, cmds[1..], ok);
      assert texts[0] + "" == texts[0];
      forall i | 1 <= i < |texts| ensures cmds[i].text == texts[i] + if i == |texts| - 1 then tail else "" {
        assert cmds[i] == cmds[1..][i - 1] && texts[i] == texts[1..][i - 1];
      }
    }
  }

  /** Texts that close their quoted strings, put together with semicolons, are split into just these
      texts; a comment or a newline behind them goes with the last and is never split. */
  lemma SplitOfJoined(texts: seq<string>, tail: string)
    requires texts != [] && Tail(tail) && forall i | 0 <= i < |texts| :: Whole(texts[i])
    ensures var s := Split(Joined(texts, tail));
            && s.ok && |s.cmds| == |texts|
            && forall i | 0 <= i < |texts| :: s.cmds[i].text == texts[i] + if i == |texts| - 1 then tail else ""
  {
    hide Joined, Whole, CutsInto, SplitFrom;
    var line := Joined(texts, tail);
    LineIsCut(line);
    assert line[0..] == line;
    JoinedFrom(line, 0, texts, tail, Split(line).cmds, Split(line).ok);
  }

  // ----- Which texts are whole -----

  // Text without quotation marks, semicolons, comment signs and newlines.
  predicate Bare(t: string) {
    '"' !in t && ';' !in t && '#' !in t && '\n' !in t
  }

  lemma BareIsWhole(t: string)
    requires Bare(t)
    ensures Whole(t)
  {
    StaysOutside(t, 0, |t|);
  }

  lemma WholeAppend(a: string, b: string)
    requires Whole(a) && Whole(b)
    ensures Whole(a + b)
  {
    var t := a + b;
    assert t[0..|a|] == a && t[|a|..|a| + |b|] == b;
    ModeWithin(t, 0, a, |a|);
    ModeWithin(t, |a|, b, |b|);
    forall p: nat | p < |t| ensures !Delimiter(t, p) {
      if p < |a| {
        ModeWithin(t, 0, a, p);
        assert !Delimiter(a, p);
      } else {
        ModeWithin(t, |a|, b, p - |a|);
        assert !Delimiter(b, p - |a|);
      }
    }
  }

  // A string in quotation marks in which every quotation mark is escaped and the last backslash
  // is not left open.
  lemma QuotedIsWhole(q: string)
    requires !Escaped(q, |q|) && forall i | 0 <= i < |q| && q[i] == '"' :: Escaped(q, i)
    ensures Whole("\"" + q + "\"")
  {
    var t := "\"" + q + "\"";
    InsideQuoted(q, |q|);
    forall p: nat | p < |t| ensures !Delimiter(t, p) {
      if 0 < p {
        InsideQuoted(q, p - 1);
      }
    }
  }

  lemma {:induction false} InsideQuoted(q: string, i: nat)
    requires i <= |q| && forall i | 0 <= i < |q| && q[i] == '"' :: Escaped(q, i)
    ensures ModeAt("\"" + q + "\"", i + 1) == Inside(Escaped(q, i))
    decreases i
  {
    if i > 0 {
      InsideQuoted(q, i - 1);
    }
  }
}
