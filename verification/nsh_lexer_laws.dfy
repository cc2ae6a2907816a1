/** Laws of the NSH lexer: printing and reading back, expansion of references, and the offset that
    nsh_parse records for a command. */
module NshLexerLaws {
  import opened Basics
  import opened NshLexer

  // ----- Escaping -----

  const MustEscape := "\\\"`$"

  function Escape(s: string): string {
    if s == [] then []
    else (if s[0] in MustEscape then ['\\', s[0]] else [s[0]]) + Escape(s[1..])
  }

  lemma {:induction false} EscapeStep(s: string, t: string)
    requires s != []
    ensures Escape(s) + t == if s[0] in MustEscape then ['\\', s[0]] + (Escape(s[1..]) + t)
                             else [s[0]] + (Escape(s[1..]) + t)
  {
  }

  /** nsh_dequote is a left inverse of escaping. */
  lemma {:induction false} DequoteEscape(s: string)
    ensures Dequote(Escape(s)) == s
  {
    if s != [] {
      DequoteEscape(s[1..]);
      var e := Escape(s[1..]);
      assert s == [s[0]] + s[1..];
      if s[0] in MustEscape {
        assert Escape(s)[1..] == [s[0]] + e;
        assert ([s[0]] + e)[1..] == e;
        assert Unquote([s[0]] + e, true) == [s[0]] + Unquote(e, false);
      } else {
        assert Escape(s)[1..] == e;
      }
    }
  }

  lemma {:induction false} TokenEndCons(c: char, t: string, term: string, q: bool)
    requires '`' !in term && '\\' !in term
    ensures TokenEnd([c] + t, term, q, false) ==
            if !q && c in term then 0 else 1 + TokenEnd(t, term, c == '\\' && !q, c == '`' && !q)
  {
    assert ([c] + t)[1..] == t;
  }

  lemma {:induction false} EscapeIsPlain(s: string)
    ensures FirstSpecial(Escape(s), false) == |Escape(s)|
  {
    hide FirstSpecial;
    if s == [] {
      NothingSpecial();
    } else {
      EscapeIsPlain(s[1..]);
      var e := Escape(s[1..]);
      if s[0] in MustEscape {
        SpecialCons('\\', [s[0]] + e, false);
        SpecialCons(s[0], e, true);
        assert Escape(s) == ['\\'] + ([s[0]] + e);
      } else {
        SpecialCons(s[0], e, false);
      }
    }
  }

  lemma {:induction false} NothingSpecial()
    ensures FirstSpecial("", false) == 0
  {
  }

  // The quotation mark after an escaped string is the first one that nsh_strchr sees ...
  lemma {:induction false} QuoteAfterEscape(s: string, t: string)
    ensures Find(Escape(s) + "\"" + t, '"', false) == Some(|Escape(s)|)
  {
    hide Find;
    var rest := "\"" + t;
    assert Escape(s) + "\"" + t == Escape(s) + rest;
    if s == [] {
      FindCons('"', t, '"', false);
      assert Escape(s) + rest == ['"'] + t;
    } else {
      var e := Escape(s[1..]) + rest;
      assert e == Escape(s[1..]) + "\"" + t;
      QuoteAfterEscape(s[1..], t);
      EscapeStep(s, rest);
      if s[0] in MustEscape {
        FindCons('\\', [s[0]] + e, '"', false);
        FindCons(s[0], e, '"', true);
        assert ['\\', s[0]] + e == ['\\'] + ([s[0]] + e);
      } else {
        FindCons(s[0], e, '"', false);
      }
    }
  }

  // ... and where nsh_argument ends the token.
  lemma {:induction false} TokenEndsAfterEscape(s: string, t: string)
    ensures TokenEnd(Escape(s) + "\"" + t, "\"", false, false) == |Escape(s)|
  {
    hide TokenEnd;
    var rest := "\"" + t;
    assert Escape(s) + "\"" + t == Escape(s) + rest;
    if s == [] {
      TokenEndCons('"', t, "\"", false);
      assert Escape(s) + rest == ['"'] + t;
    } else {
      var e := Escape(s[1..]) + rest;
      assert e == Escape(s[1..]) + "\"" + t;
      TokenEndsAfterEscape(s[1..], t);
      EscapeStep(s, rest);
      if s[0] in MustEscape {
        TokenEndCons('\\', [s[0]] + e, "\"", false);
        TokenEndCons(s[0], e, "\"", true);
        assert ['\\', s[0]] + e == ['\\'] + ([s[0]] + e);
      } else {
        TokenEndCons(s[0], e, "\"", false);
      }
    }
  }

  // ----- Printing and reading back -----

  function QuotedToken(arg: string): string {
    "\"" + Escape(arg) + "\""
  }

  // The arguments as quoted tokens, each but the last followed by a space.
  function Print(args: seq<string>): string {
    if args == [] then ""
    else QuotedToken(args[0]) + (if |args| == 1 then "" else " " + Print(args[1..]))
  }

  lemma {:induction false} ReadQuotedToken(sh: Shell, arg: string, t: string)
    ensures NextToken(sh, QuotedToken(arg) + t) == Some(Token(arg, t))
  {
    var s := QuotedToken(arg) + t;
    var e := Escape(arg);
    assert s[0] == '"';
    assert s[1..] == e + "\"" + t;
    TokenEndsAfterEscape(arg, t);
    assert s[1..][..|e|] == e;
    assert After(s[1..], |e|) == t;
    EscapeIsPlain(arg);
    DequoteEscape(arg);
    assert "" + e == e;
  }

  lemma {:induction false} TokensStep(sh: Shell, s: string, t: Token)
    requires NextToken(sh, s) == Some(t)
    ensures Tokens(sh, s) == [t.arg] + Tokens(sh, t.rest)
  {
    hide NextToken;
  }

  lemma {:induction false} TokensAfterSpace(sh: Shell, s: string)
    ensures Tokens(sh, " " + s) == Tokens(sh, s)
  {
    hide Expand, TokenEnd;
    assert (" " + s)[1..] == s;
    assert NextToken(sh, " " + s) == NextToken(sh, s);
  }

  lemma {:induction false} NoTokens(sh: Shell)
    ensures Tokens(sh, "") == []
  {
  }

  /** A greater-than sign, single or double, is a token of its own, and nothing is read behind the sign
      of a comment. */
  lemma {:induction false} SignsAreTokens(sh: Shell, rest: string)
    ensures Tokens(sh, ">>" + rest) == [">>"] + Tokens(sh, rest)
    ensures rest == "" || rest[0] != '>' ==> Tokens(sh, ">" + rest) == [">"] + Tokens(sh, rest)
    ensures Tokens(sh, "#" + rest) == []
  {
    assert (">>" + rest)[2..] == rest && (">" + rest)[1..] == rest;
    TokensStep(sh, ">>" + rest, Token(">>", rest));
    if rest == "" || rest[0] != '>' {
      TokensStep(sh, ">" + rest, Token(">", rest));
    }
  }

  lemma {:induction false} TokensOfPrint(sh: Shell, args: seq<string>)
    ensures Tokens(sh, Print(args)) == args
    decreases |args|
  {
    hide Tokens, QuotedToken, NextToken;
    NoTokens(sh);
    if args != [] {
      var more := args[1..];
      TokensOfPrint(sh, more);
      TokensAfterSpace(sh, Print(more));
      var rest := if |args| == 1 then "" else " " + Print(more);
      ReadQuotedToken(sh, args[0], rest);
      TokensStep(sh, Print(args), Token(args[0], rest));
    }
  }

  // nsh_parse goes past a quoted token in one pass of its loop.
  lemma {:induction false} SplitPastToken(line: string, w: nat, arg: string, t: string)
    requires w <= |line| && line[w..] == QuotedToken(arg) + t
    ensures w + |QuotedToken(arg)| <= |line| && line[w + |QuotedToken(arg)|..] == t
    ensures SplitFrom(line, 0, w) == SplitFrom(line, 0, w + |QuotedToken(arg)|)
  {
    hide SplitFrom, Look, Escape;
    var e := Escape(arg);
    assert line[w + |e| + 2..] == line[w..][|e| + 2..] == t;
    LookAtToken(line, w, arg, t);
    OtherCommand(line, 0, w);
  }

  lemma LookAtToken(line: string, w: nat, arg: string, t: string)
    requires w <= |line| && line[w..] == QuotedToken(arg) + t
    ensures Look(line, w) == Quoted(w, w + |QuotedToken(arg)|)
  {
    hide Escape, Find;
    var e := Escape(arg);
    assert line[w..][0] == '"';
    assert Span(line[w..], LineSeparators) == 0;
    assert line[w + 1..] == line[w..][1..] == e + "\"" + t;
    QuoteAfterEscape(arg, t);
  }

  // Inside a printed line every separator but the spaces between tokens is within quotation marks.
  lemma {:induction false} SplitOfPrint(line: string, w: nat, args: seq<string>)
    requires w <= |line| && line[w..] == Print(args)
    ensures var r := SplitFrom(line, 0, w); r.ok && |r.cmds| == 1 && r.cmds[0].text == line
    decreases |args|, 0
  {
    hide SplitFrom, QuotedToken;
    if args == [] {
      SplitAtEnd(line);
    } else {
      var rest := if |args| == 1 then "" else " " + Print(args[1..]);
      SplitPastToken(line, w, args[0], rest);
      if |args| == 1 {
        SplitAtEnd(line);
      } else {
        SplitAfterSpace(line, w + |QuotedToken(args[0])|, args[1..]);
      }
    }
  }

  lemma {:induction false} SplitAtEnd(line: string)
    ensures var r := SplitFrom(line, 0, |line|); r.ok && |r.cmds| == 1 && r.cmds[0].text == line
  {
    assert line[|line|..] == "";
    assert Look(line, |line|) == Last(|line|);
    assert line[0..] == line;
  }

  lemma {:induction false} SplitAfterSpace(line: string, w: nat, args: seq<string>)
    requires w <= |line| && line[w..] == " " + Print(args) && args != []
    ensures var r := SplitFrom(line, 0, w); r.ok && |r.cmds| == 1 && r.cmds[0].text == line
    decreases |args|, 1
  {
    hide SplitFrom;
    assert line[w + 1..] == line[w..][1..] == Print(args);
    SplitOfPrint(line, w + 1, args);
    assert Print(args)[0] == '"';
    assert line[w] == line[w..][0] && line[w + 1] == line[w + 1..][0];
    SplitPastSpace(line, w);
  }

  lemma {:induction false} SplitPastSpace(line: string, w: nat)
    requires w + 1 < |line| && line[w] == ' ' && line[w + 1] == '"'
    ensures SplitFrom(line, 0, w) == SplitFrom(line, 0, w + 1)
  {
    assert line[w..][1..] == line[w + 1..];
    assert Span(line[w + 1..], LineSeparators) == 0;
    assert Span(line[w..], LineSeparators) == 1;
    assert Look(line, w) == Look(line, w + 1);
  }

  /** Any list of arguments, printed as quoted tokens and read back, gives one command with exactly
      those arguments, whatever characters they hold. */
  lemma {:induction false} PrintRoundTrip(sh: Shell, args: seq<string>)
    ensures var r := Split(Print(args));
            r.ok && |r.cmds| == 1 && Tokens(sh, r.cmds[0].text) == args
  {
    assert Print(args)[0..] == Print(args);
    SplitOfPrint(Print(args), 0, args);
    TokensOfPrint(sh, args);
  }

  // ----- Expansion of references -----

  lemma {:induction false} SpecialAppend(a: string, q: bool, b: string)
    requires FirstSpecial(a, q) == |a|
    ensures FirstSpecial(a + b, q) == |a| + FirstSpecial(b, ForwardFlag(a, q, |a|))
    decreases |a|
  {
    if a == [] {
      assert a + b == b;
    } else {
      SpecialAppend(a[1..], a[0] == '\\' && !q, b);
      assert (a + b)[1..] == a[1..] + b;
    }
  }

  lemma {:induction false} FindAppend(a: string, ch: char, q: bool, b: string)
    requires Find(a, ch, q) == None && !ForwardFlag(a, q, |a|) && ch != '\\'
    ensures Find(a + [ch] + b, ch, q) == Some(|a|)
    decreases |a|
  {
    var w := a + [ch] + b;
    if a != [] {
      FindAppend(a[1..], ch, a[0] == '\\' && !q, b);
      assert w[1..] == a[1..] + [ch] + b;
    }
  }

  lemma {:induction false} UnquoteAppend(a: string, q: bool, b: string)
    ensures Unquote(a + b, q) == Unquote(a, q) + Unquote(b, ForwardFlag(a, q, |a|))
    decreases |a|
  {
    hide Unquote;
    if a == [] {
      assert a + b == b;
      UnquoteNothing(q);
    } else {
      UnquoteAppend(a[1..], a[0] == '\\' && !q, b);
      UnquoteStep(a, q);
      UnquoteStep(a + b, q);
      assert (a + b)[1..] == a[1..] + b;
    }
  }

  lemma {:induction false} UnquoteNothing(q: bool)
    ensures Unquote("", q) == ""
  {
  }

  lemma {:induction false} UnquoteStep(s: string, q: bool)
    requires s != ""
    ensures var escape := s[0] == '\\' && !q;
            Unquote(s, q) == (if escape then "" else [s[0]]) + Unquote(s[1..], escape)
  {
    assert "" + Unquote(s[1..], true) == Unquote(s[1..], true);
  }

  lemma {:induction false} FlagAppend(a: string, q: bool, b: string)
    ensures ForwardFlag(a + b, q, |a + b|) == ForwardFlag(b, ForwardFlag(a, q, |a|), |b|)
    decreases |a|
  {
    if a == [] {
      assert a + b == b;
    } else {
      FlagAppend(a[1..], a[0] == '\\' && !q, b);
      assert (a + b)[1..] == a[1..] + b;
    }
  }

  // Text that holds no reference and does not end in an unescaped backslash.
  predicate Closed(s: string) {
    FirstSpecial(s, false) == |s| && !ForwardFlag(s, false, |s|)
  }

  // A variable name that can stand between brackets, and a command between back-quotes.
  predicate Bracketable(name: string) {
    Find(name, '}', false) == None && !ForwardFlag(name, false, |name|)
  }

  predicate Enclosable(command: string) {
    Find(command, '`', false) == None && !ForwardFlag(command, false, |command|)
  }

  // Text with references ${name} and commands in back-quotes, possibly ending in a bare $name.
  datatype Piece = Lit(text: string) | Ref(name: string) | Output(command: string)
  datatype Template = Template(pieces: seq<Piece>, bare: Option<string>)

  predicate PieceOk(p: Piece) {
    match p
    case Lit(text) => Closed(text)
    case Ref(name) => Bracketable(name)
    case Output(command) => Enclosable(command)
  }

  predicate TemplateOk(t: Template) {
    && (forall i | 0 <= i < |t.pieces| :: PieceOk(t.pieces[i]))
    && (t.bare.Some? ==> t.bare.value == "" || t.bare.value[0] != '{')
  }

  // The template as the user writes it.
  function Source(t: Template): string
    decreases |t.pieces|
  {
    if t.pieces == [] then
      if t.bare.Some? then "$" + t.bare.value else ""
    else
      PieceText(t.pieces[0]) + Source(t.(pieces := t.pieces[1..]))
  }

  function PieceText(p: Piece): string {
    match p
    case Lit(text) => text
    case Ref(name) => "${" + name + "}"
    case Output(command) => "`" + command + "`"
  }

  // The template with its references replaced; `lit` is applied to the text in between.
  function Substitute(sh: Shell, t: Template, lit: string -> string): string
    decreases |t.pieces|
  {
    if t.pieces == [] then
      if t.bare.Some? then EnvValue(sh, t.bare.value) else ""
    else
      PieceValue(sh, t.pieces[0], lit) + Substitute(sh, t.(pieces := t.pieces[1..]), lit)
  }

  function PieceValue(sh: Shell, p: Piece, lit: string -> string): string {
    match p
    case Lit(text) => lit(text)
    case Ref(name) => EnvValue(sh, name)
    case Output(command) => sh.command(command)
  }

  function Same(s: string): string {
    s
  }

  lemma ClosedAppend(a: string, b: string)
    requires Closed(a) && Closed(b)
    ensures Closed(a + b)
  {
    SpecialAppend(a, false, b);
    FlagAppend(a, false, b);
  }

  lemma {:induction false} ExpandClosed(sh: Shell, pre: string, acc: string)
    requires Closed(pre)
    ensures ExpandFrom(sh, pre, acc) == Dequote(acc + pre)
  {
  }

  lemma {:induction false} ExpandAtReference(sh: Shell, pre: string, special: char, rest: string, acc: string,
                                             r: Resolved)
    requires Closed(pre) && special in ArgSeparators && Resolve(sh, special, rest) == Some(r)
    ensures ExpandFrom(sh, pre + [special] + rest, acc) == ExpandFrom(sh, r.rest, acc + pre + r.value)
  {
    hide Resolve, Dequote;
    var w := pre + [special] + rest;
    assert w == pre + ([special] + rest);
    SpecialAppend(pre, false, [special] + rest);
    assert FirstSpecial([special] + rest, false) == 0;
    assert w[..|pre|] == pre && w[|pre|] == special && w[|pre| + 1..] == rest;
  }

  lemma {:induction false} ExpandBracketed(sh: Shell, pre: string, name: string, rest: string, acc: string)
    requires Closed(pre) && Bracketable(name)
    ensures ExpandFrom(sh, pre + "${" + name + "}" + rest, acc)
         == ExpandFrom(sh, rest, acc + pre + EnvValue(sh, name))
  {
    hide ExpandFrom, EnvValue;
    var inner := name + "}" + rest;
    FindAppend(name, '}', false, rest);
    assert inner[..|name|] == name && inner[|name| + 1..] == rest;
    var text := "{" + inner;
    assert text[1..] == inner;
    assert Resolve(sh, '$', text) == Some(Resolved(EnvValue(sh, name), rest));
    ExpandAtReference(sh, pre, '$', text, acc, Resolved(EnvValue(sh, name), rest));
    assert pre + "${" + name + "}" + rest == pre + ['$'] + text;
  }

  lemma {:induction false} ExpandOutput(sh: Shell, pre: string, command: string, rest: string, acc: string)
    requires Closed(pre) && Enclosable(command)
    ensures ExpandFrom(sh, pre + "`" + command + "`" + rest, acc)
         == ExpandFrom(sh, rest, acc + pre + sh.command(command))
  {
    hide ExpandFrom;
    var inner := command + "`" + rest;
    FindAppend(command, '`', false, rest);
    assert inner[..|command|] == command && inner[|command| + 1..] == rest;
    ExpandAtReference(sh, pre, '`', inner, acc, Resolved(sh.command(command), rest));
    assert pre + "`" + command + "`" + rest == pre + ['`'] + inner;
  }

  // A reference of either kind is replaced by its value.
  lemma {:induction false} ExpandPiece(sh: Shell, pre: string, p: Piece, rest: string, acc: string)
    requires Closed(pre) && PieceOk(p) && !p.Lit?
    ensures ExpandFrom(sh, pre + PieceText(p) + rest, acc)
         == ExpandFrom(sh, rest, acc + pre + PieceValue(sh, p, Same))
  {
    hide ExpandFrom, Closed, Bracketable, Enclosable, EnvValue;
    if p.Ref? {
      ExpandBracketed(sh, pre, p.name, rest, acc);
      assert pre + PieceText(p) + rest == pre + "${" + p.name + "}" + rest;
    } else {
      ExpandOutput(sh, pre, p.command, rest, acc);
      assert pre + PieceText(p) + rest == pre + "`" + p.command + "`" + rest;
    }
  }

  lemma {:induction false} ExpandBare(sh: Shell, pre: string, name: string, acc: string)
    requires Closed(pre) && (name == "" || name[0] != '{')
    ensures ExpandFrom(sh, pre + "$" + name, acc) == Dequote(acc + pre + EnvValue(sh, name))
  {
    hide ExpandFrom, EnvValue, Dequote;
    var acc' := acc + pre + EnvValue(sh, name);
    ExpandAtReference(sh, pre, '$', name, acc, Resolved(EnvValue(sh, name), ""));
    EmptyIsClosed();
    ExpandClosed(sh, "", acc');
    assert acc' + "" == acc';
  }

  lemma {:induction false} TemplateStep(sh: Shell, t: Template)
    requires t.pieces != []
    ensures var t1 := t.(pieces := t.pieces[1..]);
            && Source(t) == PieceText(t.pieces[0]) + Source(t1)
            && Substitute(sh, t, Same) == PieceValue(sh, t.pieces[0], Same) + Substitute(sh, t1, Same)
  {
    hide EnvValue, PieceText, PieceValue;
  }

  lemma {:induction false} ExpandTemplateFrom(sh: Shell, pre: string, t: Template, acc: string)
    requires Closed(pre) && TemplateOk(t)
    ensures ExpandFrom(sh, pre + Source(t), acc) == Dequote(acc + pre + Substitute(sh, t, Same))
    decreases |t.pieces|, 1
  {
    hide ExpandFrom, Closed, Dequote, Bracketable, EnvValue;
    if t.pieces != [] {
      ExpandTemplatePiece(sh, pre, t, acc);
    } else if t.bare.Some? {
      ExpandBare(sh, pre, t.bare.value, acc);
      assert pre + Source(t) == pre + "$" + t.bare.value;
    } else {
      ExpandClosed(sh, pre, acc);
      assert pre + Source(t) == pre && acc + pre + Substitute(sh, t, Same) == acc + pre;
    }
  }

  lemma {:induction false} ExpandTemplatePiece(sh: Shell, pre: string, t: Template, acc: string)
    requires Closed(pre) && TemplateOk(t) && t.pieces != []
    ensures ExpandFrom(sh, pre + Source(t), acc) == Dequote(acc + pre + Substitute(sh, t, Same))
    decreases |t.pieces|, 0
  {
    hide ExpandFrom, Closed, Dequote, Bracketable, Enclosable, EnvValue, Source, Substitute;
    var t1 := t.(pieces := t.pieces[1..]);
    var p := t.pieces[0];
    var text, v := PieceText(p), PieceValue(sh, p, Same);
    assert PieceOk(p);
    TemplateStep(sh, t);
    if p.Lit? {
      ClosedAppend(pre, text);
      ExpandTemplateFrom(sh, pre + text, t1, acc);
      assert pre + Source(t) == pre + text + Source(t1);
      assert acc + pre + Substitute(sh, t, Same) == acc + (pre + text) + Substitute(sh, t1, Same);
    } else {
      ExpandPiece(sh, pre, p, Source(t1), acc);
      EmptyIsClosed();
      ExpandTemplateFrom(sh, "", t1, acc + pre + v);
      assert pre + Source(t) == pre + text + Source(t1);
      assert "" + Source(t1) == Source(t1);
      assert acc + pre + Substitute(sh, t, Same) == acc + pre + v + "" + Substitute(sh, t1, Same);
    }
  }

  lemma EmptyIsClosed()
    ensures Closed("")
  {
  }

  /** Expansion replaces each reference by its value and then removes the backslashes of the
      result, those that came with the values included. */
  lemma {:induction false} ExpandTemplate(sh: Shell, t: Template)
    requires TemplateOk(t)
    ensures Expand(sh, Source(t)) == Dequote(Substitute(sh, t, Same))
  {
    EmptyIsClosed();
    ExpandTemplateFrom(sh, "", t, "");
    assert "" + Source(t) == Source(t);
    assert "" + "" + Substitute(sh, t, Same) == Substitute(sh, t, Same);
  }

  lemma {:induction false} PlainValue(v: string)
    ensures Dequote(v) == v <==> '\\' !in v
    ensures '\\' !in v ==> !ForwardFlag(v, false, |v|)
    decreases |v|
  {
    if v != [] {
      PlainValue(v[1..]);
      assert v == [v[0]] + v[1..];
    }
  }

  // The values the template refers to hold no backslash.
  predicate PlainValues(sh: Shell, t: Template) {
    && (forall i | 0 <= i < |t.pieces| && !t.pieces[i].Lit? :: '\\' !in PieceValue(sh, t.pieces[i], Same))
    && (t.bare.Some? ==> '\\' !in EnvValue(sh, t.bare.value))
  }

  lemma {:induction false} DequoteSubstitute(sh: Shell, t: Template)
    requires TemplateOk(t) && PlainValues(sh, t)
    ensures Dequote(Substitute(sh, t, Same)) == Substitute(sh, t, Dequote)
    decreases |t.pieces|
  {
    if t.pieces == [] {
      if t.bare.Some? {
        PlainValue(EnvValue(sh, t.bare.value));
      }
    } else {
      var t1 := t.(pieces := t.pieces[1..]);
      DequoteSubstitute(sh, t1);
      assert PieceOk(t.pieces[0]);
      var head := PieceValue(sh, t.pieces[0], Same);
      if !t.pieces[0].Lit? {
        PlainValue(head);
      }
      UnquoteAppend(head, false, Substitute(sh, t1, Same));
    }
  }

  /** With values free of backslashes, expansion is the dequoted text with each reference replaced
      by its value. */
  lemma {:induction false} ExpandPlainTemplate(sh: Shell, t: Template)
    requires TemplateOk(t) && PlainValues(sh, t)
    ensures Expand(sh, Source(t)) == Substitute(sh, t, Dequote)
  {
    ExpandTemplate(sh, t);
    DequoteSubstitute(sh, t);
  }

  // Expansion does what the template means.
  ghost predicate ExpandsAsMeant(sh: Shell, t: Template) {
    Expand(sh, Source(t)) == Substitute(sh, t, Dequote)
  }

  // One reference on its own, and its value.
  ghost predicate RefersTo(sh: Shell, t: Template, v: string) {
    || (t.pieces == [] && t.bare.Some? && v == EnvValue(sh, t.bare.value))
    || (|t.pieces| == 1 && t.bare.None? && !t.pieces[0].Lit? && v == PieceValue(sh, t.pieces[0], Same))
  }

  lemma OneReference(sh: Shell, t: Template, v: string)
    requires TemplateOk(t) && RefersTo(sh, t, v)
    ensures Expand(sh, Source(t)) == Dequote(v)
    ensures Expand(sh, Source(t)) == v <==> '\\' !in v
    ensures ExpandsAsMeant(sh, t) <==> '\\' !in v
  {
    hide EnvValue;
    var t1 := Template([], None);
    assert t.pieces != [] ==> t.(pieces := t.pieces[1..]) == t1;
    assert Substitute(sh, t1, Same) == "" == Substitute(sh, t1, Dequote);
    assert v + "" == v;
    assert Substitute(sh, t, Same) == v == Substitute(sh, t, Dequote);
    ExpandTemplate(sh, t);
    PlainValue(v);
  }

  lemma SourceOfOne(p: Piece)
    ensures Source(Template([p], None)) == PieceText(p)
  {
    var t := Template([p], None);
    assert t.(pieces := t.pieces[1..]) == Template([], None);
    assert Source(Template([], None)) == "";
  }

  /** A reference on its own gives the value of the variable if and only if the value holds no
      backslash, and so it is with the output of a command. */
  lemma ReferenceKeepsValueIff(sh: Shell, name: string)
    requires Bracketable(name)
    ensures Expand(sh, "${" + name + "}") == EnvValue(sh, name) <==> '\\' !in EnvValue(sh, name)
  {
    SourceOfOne(Ref(name));
    OneReference(sh, Template([Ref(name)], None), EnvValue(sh, name));
  }

  lemma OutputIsKeptIff(sh: Shell, command: string)
    requires Enclosable(command)
    ensures Expand(sh, "`" + command + "`") == sh.command(command) <==> '\\' !in sh.command(command)
  {
    SourceOfOne(Output(command));
    OneReference(sh, Template([Output(command)], None), sh.command(command));
  }

  /** A variable that is set to a value without backslashes gives this value, one that is not set
      nothing, and `$?` is "0" after a success and "1" after a failure, whatever variables are set. */
  lemma VariablesGiveTheirValues(sh: Shell, name: string)
    ensures Bracketable(name) && name != "?" && name in sh.vars && '\\' !in sh.vars[name] ==>
              Expand(sh, "${" + name + "}") == sh.vars[name]
    ensures (name == "" || name[0] != '{') && name != "?" && name in sh.vars && '\\' !in sh.vars[name] ==>
              Expand(sh, "$" + name) == sh.vars[name]
    ensures Bracketable(name) && name != "?" && name !in sh.vars ==> Expand(sh, "${" + name + "}") == ""
    ensures (name == "" || name[0] != '{') && name != "?" && name !in sh.vars ==> Expand(sh, "$" + name) == ""
    ensures Expand(sh, "$?") == Expand(sh, "${?}") == if sh.fail then "1" else "0"
  {
    if Bracketable(name) {
      ReferenceKeepsValueIff(sh, name);
    }
    if name == "" || name[0] != '{' {
      OneReference(sh, Template([], Some(name)), EnvValue(sh, name));
    }
    OneReference(sh, Template([], Some("?")), EnvValue(sh, "?"));
    assert Source(Template([], Some("?"))) == "$" + "?" == "$?";
    assert Bracketable("?") && "${" + "?" + "}" == "${?}";
    ReferenceKeepsValueIff(sh, "?");
  }

  // The template refers to variables of `names` and to outputs of `commands` only.
  predicate Over(t: Template, names: set<string>, commands: set<string>) {
    && (forall i | 0 <= i < |t.pieces| && t.pieces[i].Ref? :: t.pieces[i].name in names)
    && (forall i | 0 <= i < |t.pieces| && t.pieces[i].Output? :: t.pieces[i].command in commands)
    && (t.bare.Some? ==> t.bare.value in names)
  }

  // A name that can stand in a reference at all.
  predicate Referable(name: string) {
    Bracketable(name) || name == "" || name[0] != '{'
  }

  // No value that can be referred to holds a backslash.
  ghost predicate NoBackslashes(sh: Shell, names: set<string>, commands: set<string>) {
    && (forall name | name in names && Referable(name) :: '\\' !in EnvValue(sh, name))
    && (forall command | command in commands && Enclosable(command) :: '\\' !in sh.command(command))
  }

  /** Every text with references to the given variables and outputs of the given commands expands as
      it is meant, the text between the references dequoted and the values put in as they are, if and
      only if no value holds a backslash. */
  lemma {:induction false} TemplatesKeepValuesIff(sh: Shell, names: set<string>, commands: set<string>)
    ensures (forall t: Template | TemplateOk(t) && Over(t, names, commands) :: ExpandsAsMeant(sh, t)) <==>
            NoBackslashes(sh, names, commands)
  {
    hide ExpandsAsMeant, EnvValue, Bracketable, Enclosable;
    if NoBackslashes(sh, names, commands) {
      forall t: Template | TemplateOk(t) && Over(t, names, commands) ensures ExpandsAsMeant(sh, t) {
        ValuesArePlain(sh, t, names, commands);
        PlainExpandsAsMeant(sh, t);
      }
    }
    if forall t: Template | TemplateOk(t) && Over(t, names, commands) :: ExpandsAsMeant(sh, t) {
      forall name | name in names && Referable(name) ensures '\\' !in EnvValue(sh, name) {
        var t := if Bracketable(name) then Template([Ref(name)], None) else Template([], Some(name));
        assert TemplateOk(t) && Over(t, names, commands);
        OneReference(sh, t, EnvValue(sh, name));
      }
      forall command | command in commands && Enclosable(command) ensures '\\' !in sh.command(command) {
        var t := Template([Output(command)], None);
        assert TemplateOk(t) && Over(t, names, commands);
        OneReference(sh, t, sh.command(command));
      }
    }
  }

  lemma ValuesArePlain(sh: Shell, t: Template, names: set<string>, commands: set<string>)
    requires TemplateOk(t) && Over(t, names, commands) && NoBackslashes(sh, names, commands)
    ensures PlainValues(sh, t)
  {
    hide EnvValue, Bracketable, Enclosable;
    forall i | 0 <= i < |t.pieces| && !t.pieces[i].Lit? ensures '\\' !in PieceValue(sh, t.pieces[i], Same) {
      assert PieceOk(t.pieces[i]);
    }
  }

  lemma {:induction false} PlainExpandsAsMeant(sh: Shell, t: Template)
    requires TemplateOk(t) && PlainValues(sh, t)
    ensures ExpandsAsMeant(sh, t)
  {
    ExpandPlainTemplate(sh, t);
  }

  // ----- The offset recorded for a command -----

  // The command begins there, or its last quoted string ends there.
  ghost predicate LoffsRight(line: string, c: Command) {
    && c.start <= c.loffs <= c.end <= |line|
    && (c.loffs == c.start <==> '"' !in line[c.start..c.end])
    && '"' !in line[c.loffs..c.end] && (c.start < c.loffs ==> line[c.loffs - 1] == '"')
  }

  // The text has been looked at up to `working`: nothing, or up to the end of a quoted string.
  ghost predicate LookedAt(line: string, start: nat, working: nat) {
    && start <= working <= |line|
    && (working == start <==> '"' !in line[start..working]) && (start < working ==> line[working - 1] == '"')
  }

  lemma LoffsOfCommand(line: string, start: nat, working: nat, p: nat, text: string)
    requires LookedAt(line, start, working) && working <= p <= |line| && '"' !in line[working..p]
    ensures LoffsRight(line, Command(start, p, working, text))
  {
    assert line[start..p] == line[start..working] + line[working..p];
  }

  lemma LookedFurther(line: string, start: nat, working: nat)
    requires LookedAt(line, start, working)
    ensures var f := Look(line, working);
            && (f.Quoted? ==> LookedAt(line, start, f.next))
            && (f.Semicolon? ==> LookedAt(line, f.at + 1, f.at + 1))
  {
    hide Look;
    var f := Look(line, working);
    if f.Quoted? {
      assert line[start..f.next][f.at - start] == '"';
    }
  }

  lemma {:induction false} LoffsFrom(line: string, start: nat, working: nat)
    requires LookedAt(line, start, working)
    ensures forall i | 0 <= i < |SplitFrom(line, start, working).cmds| ::
              LoffsRight(line, SplitFrom(line, start, working).cmds[i])
    decreases |line| - working
  {
    hide Look, SplitFrom, LoffsRight;
    LookedFurther(line, start, working);
    match Look(line, working) {
      case Last(p) =>
        LastCommand(line, start, working);
        LoffsOfCommand(line, start, working, p, line[start..]);
      case Semicolon(p) =>
        FirstCommand(line, start, working);
        LoffsOfCommand(line, start, working, p, line[start..p]);
        LoffsFrom(line, p + 1, p + 1);
      case Quoted(q, next) =>
        OtherCommand(line, start, working);
        LoffsFrom(line, start, next);
      case Unmatched =>
        OtherCommand(line, start, working);
    }
  }

  /** The offset recorded for a command is where it begins if and only if it holds no quoted string,
      and otherwise where the last one ends. */
  lemma LoffsIsStartIffUnquoted(line: string, i: nat)
    requires i < |Split(line).cmds|
    ensures LoffsRight(line, Split(line).cmds[i])
  {
    LoffsFrom(line, 0, 0);
  }

  function Shift(c: Command, d: nat): Command {
    c.(start := c.start + d, end := c.end + d, loffs := c.loffs + d)
  }

  // Offsets counted from d places earlier.
  function ShiftAll(cs: seq<Command>, d: nat): seq<Command> {
    if cs == [] then [] else [Shift(cs[0], d)] + ShiftAll(cs[1..], d)
  }

  lemma LookShift(line: string, d: nat, working: nat)
    requires d <= working <= |line|
    ensures Look(line, working) ==
            match Look(line[d..], working - d)
            case Last(p) => Last(p + d)
            case Semicolon(p) => Semicolon(p + d)
            case Quoted(p, next) => Quoted(p + d, next + d)
            case Unmatched => Unmatched
  {
    hide Find, Span;
    var tail := line[d..];
    assert tail[working - d..] == line[working..];
    var p := working + Span(line[working..], LineSeparators);
    if p < |line| {
      assert tail[p - d] == line[p];
      assert tail[p - d + 1..] == line[p + 1..];
    }
  }

  lemma {:induction false} SplitShift(line: string, d: nat, start: nat, working: nat)
    requires d <= start <= working <= |line|
    ensures var r := SplitFrom(line[d..], start - d, working - d);
            SplitFrom(line, start, working) == Commands(ShiftAll(r.cmds, d), r.ok)
    decreases |line| - working
  {
    hide Look, SplitFrom, ShiftAll;
    LookShift(line, d, working);
    match Look(line, working) {
      case Last(p) =>
        ShiftLast(line, d, start, working);
      case Semicolon(p) =>
        SplitShift(line, d, p + 1, p + 1);
        ShiftSemicolon(line, d, start, working);
      case Quoted(_, next) =>
        SplitShift(line, d, start, next);
        OtherCommand(line, start, working);
        OtherCommand(line[d..], start - d, working - d);
      case Unmatched =>
        OtherCommand(line, start, working);
        OtherCommand(line[d..], start - d, working - d);
        ShiftNone(d);
    }
  }

  lemma {:induction false} ShiftLast(line: string, d: nat, start: nat, working: nat)
    requires d <= start <= working <= |line|
    requires Look(line, working).Last? && Look(line[d..], working - d) == Last(Look(line, working).at - d)
    ensures var r := SplitFrom(line[d..], start - d, working - d);
            SplitFrom(line, start, working) == Commands(ShiftAll(r.cmds, d), r.ok)
  {
    hide Look, SplitFrom, ShiftAll;
    var tail := line[d..];
    assert tail[start - d..] == line[start..];
    LastCommand(line, start, working);
    LastCommand(tail, start - d, working - d);
    ShiftOne(Command(start - d, Look(tail, working - d).at, working - d, line[start..]), d);
  }

  lemma {:induction false} ShiftSemicolon(line: string, d: nat, start: nat, working: nat)
    requires d <= start <= working <= |line|
    requires Look(line, working).Semicolon? && Look(line[d..], working - d) == Semicolon(Look(line, working).at - d)
    requires var p := Look(line, working).at;
             var r := SplitFrom(line[d..], p + 1 - d, p + 1 - d);
             SplitFrom(line, p + 1, p + 1) == Commands(ShiftAll(r.cmds, d), r.ok)
    ensures var r := SplitFrom(line[d..], start - d, working - d);
            SplitFrom(line, start, working) == Commands(ShiftAll(r.cmds, d), r.ok)
  {
    hide Look, SplitFrom, ShiftAll;
    var tail, p := line[d..], Look(line, working).at;
    assert tail[start - d..p - d] == line[start..p];
    FirstCommand(line, start, working);
    FirstCommand(tail, start - d, working - d);
    ShiftCons(Command(start - d, p - d, working - d, line[start..p]), SplitFrom(tail, p + 1 - d, p + 1 - d).cmds, d);
  }

  lemma {:induction false} ShiftNone(d: nat)
    ensures ShiftAll([], d) == []
  {
  }

  lemma {:induction false} ShiftOne(c: Command, d: nat)
    ensures ShiftAll([c], d) == [Shift(c, d)]
  {
  }

  lemma {:induction false} ShiftCons(c: Command, cs: seq<Command>, d: nat)
    ensures ShiftAll([c] + cs, d) == [Shift(c, d)] + ShiftAll(cs, d)
  {
    assert ([c] + cs)[1..] == cs;
  }

  // The commands from number i on are those found by starting anew where command i begins.
  lemma {:induction false} SplitTail(line: string, start: nat, working: nat, i: nat)
    requires start <= working <= |line| && i < |SplitFrom(line, start, working).cmds|
    requires i > 0 || working == start
    ensures var r := SplitFrom(line, start, working);
            var at := r.cmds[i].start;
            SplitFrom(line, at, at) == Commands(r.cmds[i..], r.ok)
    decreases |line| - working
  {
    hide Look, SplitFrom;
    var r := SplitFrom(line, start, working);
    if i == 0 {
      FirstStart(line, start, working);
      assert r.cmds[0..] == r.cmds;
    } else {
      match Look(line, working) {
        case Last(_) =>
          LastCommand(line, start, working);
        case Semicolon(p) =>
          FirstCommand(line, start, working);
          TailBehind(r, Command(start, p, working, line[start..p]), SplitFrom(line, p + 1, p + 1), i);
          SplitTail(line, p + 1, p + 1, i - 1);
        case Quoted(_, next) =>
          OtherCommand(line, start, working);
          SplitTail(line, start, next, i);
        case Unmatched =>
          OtherCommand(line, start, working);
      }
    }
  }

  // Command i of r and those after it, when r is one command and then the rest.
  lemma TailBehind(r: Commands, c: Command, rest: Commands, i: nat)
    requires r == Commands([c] + rest.cmds, rest.ok) && 0 < i < |r.cmds|
    ensures i - 1 < |rest.cmds| && r.cmds[i..] == rest.cmds[i - 1..] && r.cmds[i] == rest.cmds[i - 1]
  {
  }

  lemma {:induction false} FirstStart(line: string, start: nat, working: nat)
    requires start <= working <= |line| && SplitFrom(line, start, working).cmds != []
    ensures SplitFrom(line, start, working).cmds[0].start == start
    decreases |line| - working
  {
    hide Look;
    if Look(line, working).Quoted? {
      FirstStart(line, start, Look(line, working).next);
    }
  }

  /** Jumping back: the rest of the line read from the offset recorded for a command splits into that
      command and the ones after it if and only if the command holds no quotation mark. */
  lemma {:induction false} ResumeAtLoopTopIff(line: string, i: nat)
    requires i < |Split(line).cmds|
    ensures var c := Split(line).cmds[i];
            var r := Split(line[c.loffs..]);
            (Split(line).cmds[i..] == ShiftAll(r.cmds, c.loffs) && r.ok == Split(line).ok)
            <==> '"' !in line[c.start..c.end]
  {
    hide SplitFrom, ShiftAll;
    LoffsIsStartIffUnquoted(line, i);
    var c := Split(line).cmds[i];
    if c.loffs == c.start {
      SplitTail(line, 0, 0, i);
      SplitShift(line, c.start, c.start, c.start);
    } else {
      var r := Split(line[c.loffs..]);
      if r.cmds == [] {
        ShiftNone(c.loffs);
      } else {
        FirstStart(line[c.loffs..], 0, 0);
        assert r.cmds == [r.cmds[0]] + r.cmds[1..];
        ShiftCons(r.cmds[0], r.cmds[1..], c.loffs);
      }
      assert Split(line).cmds[i..][0] == c;
    }
  }
}
