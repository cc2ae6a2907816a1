/** The lexer as nsh_parse.c runs it: on NUL-terminated strings in one line buffer, which it cuts
    and shifts in place.  Each method is proved against the function of NshLexer it implements. */
module NshLineBuffer {
  import opened Basics
  import opened CStrings
  import opened NshLexer

  function Offset(i: nat, r: Option<nat>): Option<nat> {
    match r
    case None => None
    case Some(k) => Some(i + k)
  }

  // One step of each scan, at character i.
  lemma {:induction false} FindAt(s: string, ch: char, i: nat)
    requires i < |s|
    ensures var q := Escaped(s, i);
            Find(s[i..], ch, q) == if s[i] == ch && !q && ch != '\\' then Some(0)
                                   else Bump(Find(s[i + 1..], ch, Escaped(s, i + 1)))
    ensures Escaped(s, i + 1) == (s[i] == '\\' && !Escaped(s, i))
  {
    assert s[i..][1..] == s[i + 1..];
  }

  lemma {:induction false} FindStart(s: string, ch: char)
    ensures Find(s, ch, false) == Offset(0, Find(s[0..], ch, false)) && !Escaped(s, 0)
  {
    assert s[0..] == s;
  }

  // How much further the token goes from character i on.
  ghost function TokenRest(s: string, term: string, i: nat, backquote: bool): nat
    requires i <= |s|
  {
    TokenEnd(s[i..], term, Escaped(s, i), backquote)
  }

  lemma {:induction false} TokenEndAt(s: string, term: string, i: nat, backquote: bool)
    requires i < |s|
    ensures TokenRest(s, term, i, backquote) ==
            if Escaped(s, i) || s[i] == '\\' then 1 + TokenRest(s, term, i + 1, backquote)
            else if s[i] == '`' then 1 + TokenRest(s, term, i + 1, !backquote)
            else if !backquote && s[i] in term then 0
            else 1 + TokenRest(s, term, i + 1, backquote)
    ensures Escaped(s, i + 1) == (s[i] == '\\' && !Escaped(s, i))
  {
    assert s[i..][1..] == s[i + 1..];
  }

  lemma {:induction false} TokenStart(s: string, term: string)
    ensures TokenEnd(s, term, false, false) == TokenRest(s, term, 0, false) && !Escaped(s, 0)
    ensures TokenRest(s, term, |s|, false) == 0 == TokenRest(s, term, |s|, true)
  {
    assert s[0..] == s;
  }

  // nsh_strchr
  method StrChr(buf: array<char>, at: nat, ghost s: string, ch: char) returns (r: Option<nat>)
    requires CStr(buf[..], at, s) && ch != '\\' && ch != '\0'
    ensures r == Offset(at, Find(s, ch, false))
  {
    hide Find, Escaped, CStr;
    var ptr := at;
    var quoted := false;
    FindStart(s, ch);
    while true
      invariant at <= ptr <= at + |s|
      invariant quoted == Escaped(s, ptr - at)
      invariant Find(s, ch, false) == Offset(ptr - at, Find(s[ptr - at..], ch, quoted))
      decreases at + |s| - ptr
    {
      CStrAt(buf[..], at, s, ptr - at);
      if ptr < at + |s| {
        FindAt(s, ch, ptr - at);
      } else {
        FindNothing(s[ptr - at..], ch, quoted);
      }
      if buf[ptr] == '\\' && !quoted {
        quoted := true;
      } else if buf[ptr] == ch && !quoted {
        return Some(ptr);
      } else if buf[ptr] == '\0' {
        return None;
      } else {
        quoted := false;
      }
      ptr := ptr + 1;
    }
  }

  // strcspn
  method StrCSpn(buf: array<char>, at: nat, ghost s: string, cs: string) returns (n: nat)
    requires CStr(buf[..], at, s)
    ensures n == Span(s, cs)
  {
    n := 0;
    assert s[0..] == s;
    CStrAt(buf[..], at, s, 0);
    while buf[at + n] != '\0' && buf[at + n] !in cs
      invariant n <= |s|
      invariant Span(s, cs) == n + Span(s[n..], cs)
      decreases |s| - n
    {
      CStrAt(buf[..], at, s, n);
      assert s[n..][1..] == s[n + 1..];
      n := n + 1;
    }
    CStrAt(buf[..], at, s, n);
  }

  // The loop of nsh_argument that looks for the end of a token.
  method ScanToken(buf: array<char>, at: nat, ghost s: string, term: string) returns (pend: nat)
    requires CStr(buf[..], at, s)
    ensures pend == at + TokenEnd(s, term, false, false)
  {
    hide TokenRest, Escaped, TokenEnd, CStr;
    var quoted, backquote := false, false;
    pend := at;
    TokenStart(s, term);
    CStrAt(buf[..], at, s, 0);
    while buf[pend] != '\0'
      invariant at <= pend <= at + |s| && pend < buf.Length
      invariant buf[pend] == '\0' <==> pend == at + |s|
      invariant if pend == at then !quoted else quoted == Escaped(s, pend - at - 1) && buf[pend - 1] == s[pend - at - 1]
      invariant pend > at ==> Escaped(s, pend - at) == (s[pend - at - 1] == '\\' && !Escaped(s, pend - at - 1))
      invariant TokenEnd(s, term, false, false) == pend - at + TokenRest(s, term, pend - at, backquote)
      decreases at + |s| - pend
    {
      CStrAt(buf[..], at, s, pend - at);
      CStrAt(buf[..], at, s, pend - at + 1);
      TokenEndAt(s, term, pend - at, backquote);
      if pend > at && buf[pend - 1] == '\\' && !quoted {
        quoted := true;
      } else {
        quoted := false;
        if buf[pend] == '\\' {
          // nothing special about the backslash itself
        } else if buf[pend] == '`' {
          backquote := !backquote;
        } else if !backquote && buf[pend] in term {
          return;
        }
      }
      pend := pend + 1;
    }
  }

  // The inner loop of nsh_dequote: move the string one place down over its first character.
  method ShiftDown(buf: array<char>, at: nat, ghost s: string)
    requires CStr(buf[..], at, s) && s != ""
    modifies buf
    ensures CStr(buf[..], at, s[1..])
    ensures Untouched(buf, at, |s|)
  {
    var dest, src := at, at + 1;
    ghost var b := buf[..];
    while true
      invariant at <= dest < at + |s| && src == dest + 1
      invariant forall i | at <= i < dest :: buf[i] == b[i + 1]
      invariant forall i | 0 <= i < buf.Length && !(at <= i < dest) :: buf[i] == b[i]
      decreases at + |s| - dest
    {
      var ch := buf[src];
      buf[dest] := ch;
      CStrAt(b, at, s, src - at);
      src, dest := src + 1, dest + 1;
      if ch == '\0' {
        break;
      }
    }
    assert dest == at + |s|;
    assert buf[at..at + |s| - 1] == s[1..];
    assert '\0' !in s[1..];
  }

  // nsh_dequote at work on s: `done` is finished and `rest` is still to be looked at.
  ghost predicate Dequoting(b: seq<char>, at: nat, s: string, done: string, rest: string, quoted: bool) {
    && CStr(b, at, done + rest) && |done| + |rest| <= |s|
    && Dequote(s) == done + Unquote(rest, quoted)
  }

  lemma DequoteBegins(b: seq<char>, at: nat, s: string)
    requires CStr(b, at, s)
    ensures Dequoting(b, at, s, "", s, false)
  {
    assert "" + s == s;
  }

  lemma DequoteLooks(b: seq<char>, at: nat, s: string, done: string, rest: string, quoted: bool)
    requires Dequoting(b, at, s, done, rest, quoted)
    ensures at + |done| < |b| && |done| + |rest| <= |s|
    ensures if rest == "" then b[at + |done|] == '\0' else b[at + |done|] == rest[0] != '\0'
    ensures CStr(b, at + |done|, rest)
    ensures rest == "" ==> CStr(b, at, Dequote(s))
  {
    CStrAt(b, at, done + rest, |done|);
    assert (done + rest)[|done|..] == rest;
    assert rest == "" ==> done + rest == done;
  }

  lemma DequoteDrops(b: seq<char>, b': seq<char>, at: nat, s: string, done: string, rest: string)
    requires Dequoting(b, at, s, done, rest, false) && rest != "" && rest[0] == '\\'
    requires |b'| == |b| && CStr(b', at + |done|, rest[1..])
    requires forall i | 0 <= i < |b| && !(at + |done| <= i < at + |done| + |rest|) :: b'[i] == b[i]
    ensures Dequoting(b', at, s, done, rest[1..], true)
  {
    CStrNewTail(b, b', at, done, rest, rest[1..]);
  }

  lemma DequoteKeepsOne(b: seq<char>, at: nat, s: string, done: string, rest: string, quoted: bool)
    requires Dequoting(b, at, s, done, rest, quoted) && rest != "" && !(rest[0] == '\\' && !quoted)
    ensures Dequoting(b, at, s, done + [rest[0]], rest[1..], false)
  {
    assert done + rest == (done + [rest[0]]) + rest[1..];
    UnquoteStep(rest, quoted);
    assert done + ([rest[0]] + Unquote(rest[1..], false)) == (done + [rest[0]]) + Unquote(rest[1..], false);
  }

  // nsh_dequote
  method DequoteAt(buf: array<char>, at: nat, ghost s: string)
    requires CStr(buf[..], at, s)
    modifies buf
    ensures CStr(buf[..], at, Dequote(s))
    ensures Untouched(buf, at, |s|)
  {
    hide CStr, Dequoting, Dequote;
    var ptr, quoted := at, false;
    ghost var done, rest := "", s;
    DequoteBegins(buf[..], at, s);
    DequoteLooks(buf[..], at, s, done, rest, quoted);
    while buf[ptr] != '\0'
      invariant ptr == at + |done| < buf.Length && |done| + |rest| <= |s|
      invariant if rest == "" then buf[ptr] == '\0' else buf[ptr] == rest[0] != '\0'
      invariant Dequoting(buf[..], at, s, done, rest, quoted)
      invariant Untouched(buf, at, |s|)
      decreases |rest|
    {
      ghost var b := buf[..];
      DequoteLooks(b, at, s, done, rest, quoted);
      if buf[ptr] == '\\' && !quoted {
        ShiftDown(buf, ptr, rest);
        DequoteDrops(b, buf[..], at, s, done, rest);
        rest := rest[1..];
        quoted := true;
      } else {
        DequoteKeepsOne(b, at, s, done, rest, quoted);
        done, rest := done + [rest[0]], rest[1..];
        quoted := false;
        ptr := ptr + 1;
      }
      DequoteLooks(buf[..], at, s, done, rest, quoted);
    }
    DequoteLooks(buf[..], at, s, done, rest, quoted);
  }

  lemma {:induction false} UnquoteStep(s: string, quoted: bool)
    ensures Unquote(s, quoted) ==
            if s == "" then ""
            else if s[0] == '\\' && !quoted then Unquote(s[1..], true)
            else [s[0]] + Unquote(s[1..], false)
  {
  }

  // ----- nsh_argexpand -----

  // The backward loop: is the character at `len` escaped by the backslashes before it?
  method QuotedBefore(buf: array<char>, working: nat, len: nat, ghost w: string) returns (quoted: bool)
    requires CStr(buf[..], working, w) && len <= |w|
    ensures quoted == Escaped(w, len)
  {
    hide CStr, Escaped;
    CStrAt(buf[..], working, w, len);
    var bcount := 0;
    quoted := false;
    while bcount < len && buf[working + len - 1 - bcount] == '\\'
      invariant bcount <= len
      invariant BackslashRun(w, len) == bcount + BackslashRun(w, len - bcount)
      invariant quoted == (bcount % 2 == 1)
    {
      CStrAt(buf[..], working, w, len - 1 - bcount);
      quoted := !quoted;
      bcount := bcount + 1;
    }
    if bcount < len {
      CStrAt(buf[..], working, w, len - 1 - bcount);
    }
    EscapeNotionsAgree(w, len);
  }

  // How far the next reference is from character i.
  ghost function SpecialRest(w: string, i: nat): nat
    requires i <= |w|
  {
    FirstSpecial(w[i..], Escaped(w, i))
  }

  lemma {:induction false} SpecialAt(w: string, i: nat)
    requires i <= |w|
    ensures SpecialRest(w, i) == if i == |w| || (w[i] in ArgSeparators && !Escaped(w, i)) then 0
                                 else 1 + SpecialRest(w, i + 1)
  {
    if i < |w| {
      assert w[i..][1..] == w[i + 1..];
    }
  }

  lemma {:induction false} SkipPlain(w: string, i: nat, j: nat)
    requires i <= j <= |w| && forall k | i <= k < j :: w[k] !in ArgSeparators
    ensures SpecialRest(w, i) == j - i + SpecialRest(w, j)
    decreases j - i
  {
    if i < j {
      SpecialAt(w, i);
      SkipPlain(w, i + 1, j);
    }
  }

  // The scan of nsh_argexpand has come to `len`: a back-quote or dollar sign, or the end.
  ghost predicate Seeking(w: string, len: nat) {
    && len <= |w| && (len < |w| ==> w[len] in ArgSeparators)
    && FirstSpecial(w, false) == len + SpecialRest(w, len)
  }

  lemma {:induction false} SeekBegins(w: string)
    ensures Seeking(w, Span(w, ArgSeparators))
  {
    SpecialStart(w);
    SkipPlain(w, 0, Span(w, ArgSeparators));
  }

  lemma {:induction false} SeekGoesOn(w: string, len: nat)
    requires Seeking(w, len) && len < |w| && Escaped(w, len)
    ensures Seeking(w, len + 1 + Span(w[len + 1..], ArgSeparators))
  {
    var n := Span(w[len + 1..], ArgSeparators);
    SpecialAt(w, len);
    forall k | len + 1 <= k < len + 1 + n ensures w[k] !in ArgSeparators {
      assert w[len + 1..][k - len - 1] == w[k];
    }
    SkipPlain(w, len + 1, len + 1 + n);
  }

  lemma {:induction false} SeekEnds(w: string, len: nat)
    requires Seeking(w, len) && (len == |w| || !Escaped(w, len))
    ensures FirstSpecial(w, false) == len
  {
    SpecialAt(w, len);
  }

  // The next back-quote or dollar sign that is not escaped, or the end of the string.
  method NextSpecial(buf: array<char>, working: nat, ghost w: string) returns (len: nat)
    requires CStr(buf[..], working, w)
    ensures len == FirstSpecial(w, false)
  {
    hide CStr, Seeking, FirstSpecial, Escaped, Span;
    len := StrCSpn(buf, working, w, ArgSeparators);
    SeekBegins(w);
    CStrAt(buf[..], working, w, len);
    while len > 0 && buf[working + len] != '\0'
      invariant len <= |w| && working + len < buf.Length
      invariant buf[working + len] == '\0' <==> len == |w|
      invariant Seeking(w, len)
      decreases |w| - len
    {
      var quoted := QuotedBefore(buf, working, len, w);
      if quoted {
        SeekGoesOn(w, len);
        CStrAt(buf[..], working, w, len + 1);
        var n := StrCSpn(buf, working + len + 1, w[len + 1..], ArgSeparators);
        len := len + n + 1;
        CStrAt(buf[..], working, w, len);
      } else {
        break;
      }
    }
    SpecialStart(w);
    SeekEnds(w, len);
  }

  lemma {:induction false} SpecialStart(w: string)
    ensures FirstSpecial(w, false) == SpecialRest(w, 0) && !Escaped(w, 0)
  {
    assert w[0..] == w;
  }

  // nsh_dequote on an allocated string.
  method DequoteString(s: string) returns (r: string)
    requires '\0' !in s
    ensures r == Dequote(s)
  {
    var buf := new char[|s| + 1](i requires 0 <= i <= |s| => if i < |s| then s[i] else '\0');
    assert buf[0..|s|] == s;
    CStrMade(buf[..], 0, |s|, s);
    DequoteAt(buf, 0, s);
    r := ReadStr(buf, 0, Dequote(s));
  }

  // The strings of the environment and the output of commands are C strings.
  ghost predicate CShell(sh: Shell) {
    && (forall name | name in sh.vars :: '\0' !in sh.vars[name])
    && (forall cmd :: '\0' !in sh.command(cmd))
  }

  lemma EnvValueIsCStr(sh: Shell, name: string)
    requires CShell(sh)
    ensures '\0' !in EnvValue(sh, name)
  {
  }

  // The two ways nsh_argexpand goes on.
  lemma {:induction false} ExpandEnds(sh: Shell, w: string, acc: string)
    requires FirstSpecial(w, false) == |w|
    ensures ExpandFrom(sh, w, acc) == Dequote(acc + w)
  {
  }

  lemma {:induction false} ExpandGoesOn(sh: Shell, w: string, p: nat, acc: string)
    requires p == FirstSpecial(w, false) < |w|
    ensures ExpandFrom(sh, w, acc) ==
            match Resolve(sh, w[p], w[p + 1..])
            case None => ""
            case Some(r) => ExpandFrom(sh, r.rest, acc + w[..p] + r.value)
  {
  }

  // Read up to the closing character and cut the string there.
  method Delimited(buf: array<char>, ptr: nat, ghost rest: string, close: char)
    returns (inner: Option<string>, next: nat)
    requires CStr(buf[..], ptr, rest) && close != '\\' && close != '\0'
    modifies buf
    ensures match Find(rest, close, false)
            case None => inner == None
            case Some(k) => inner == Some(rest[..k]) && next == ptr + k + 1 && CStr(buf[..], next, rest[k + 1..])
    ensures Untouched(buf, ptr, |rest|)
  {
    hide CStr, Find;
    var close := StrChr(buf, ptr, rest, close);
    if close == None {
      return None, ptr;
    }
    Cut(buf, ptr, rest, close.value - ptr);
    var text := ReadStr(buf, ptr, rest[..close.value - ptr]);
    return Some(text), close.value + 1;
  }

  // ${name}
  method Bracketed(buf: array<char>, ptr: nat, ghost rest: string, special: char, sh: Shell)
    returns (value: Option<string>, next: nat)
    requires CStr(buf[..], ptr, rest) && CShell(sh) && special != '`' && rest != "" && rest[0] == '{'
    modifies buf
    ensures match Resolve(sh, special, rest)
            case None => value == None
            case Some(r) =>
              && value == Some(r.value) && '\0' !in r.value
              && next + |r.rest| == ptr + |rest| && CStr(buf[..], next, r.rest)
    ensures Untouched(buf, ptr, |rest|)
  {
    hide CStr, CShell, Find, EnvValue;
    CStrAt(buf[..], ptr, rest, 1);
    var inner;
    inner, next := Delimited(buf, ptr + 1, rest[1..], '}');
    if inner == None {
      return None, ptr;
    }
    EnvValueIsCStr(sh, inner.value);
    value := Some(EnvValue(sh, inner.value));
  }

  // The value of the reference whose first character stood just before ptr, and where the text
  // after it begins.
  method Value(buf: array<char>, ptr: nat, ghost rest: string, special: char, sh: Shell)
    returns (value: Option<string>, next: nat)
    requires CStr(buf[..], ptr, rest) && CShell(sh)
    modifies buf
    ensures match Resolve(sh, special, rest)
            case None => value == None
            case Some(r) =>
              && value == Some(r.value) && '\0' !in r.value
              && next + |r.rest| == ptr + |rest| && CStr(buf[..], next, r.rest)
    ensures Untouched(buf, ptr, |rest|)
  {
    hide CStr, CShell, Find, EnvValue;
    CStrAt(buf[..], ptr, rest, 0);
    if special == '`' {
      var inner;
      inner, next := Delimited(buf, ptr, rest, '`');
      if inner == None {
        return None, ptr;
      }
      CommandIsCStr(sh, inner.value);
      value := Some(sh.command(inner.value));
    } else if buf[ptr] == '{' {
      value, next := Bracketed(buf, ptr, rest, special, sh);
    } else {
      var name := ReadStr(buf, ptr, rest);
      EnvValueIsCStr(sh, name);
      CStrAt(buf[..], ptr, rest, |rest|);
      value, next := Some(EnvValue(sh, name)), ptr + |name|;
    }
  }

  // nsh_argexpand.  The unread text shrinks on every pass, so it always ends.
  method ArgExpand(buf: array<char>, at: nat, ghost raw: string, sh: Shell) returns (arg: string)
    requires CStr(buf[..], at, raw) && CShell(sh)
    modifies buf
    ensures arg == Expand(sh, raw)
    ensures Untouched(buf, at, |raw|)
  {
    hide CStr, CShell, ExpandFrom, FirstSpecial, Dequote, Resolve;
    var working := at;
    var argument: Option<string> := None;
    ghost var w := raw;
    while true
      invariant at <= working && working + |w| == at + |raw|
      invariant CStr(buf[..], working, w)
      invariant argument.None? ==> working == at && w == raw
      invariant argument.Some? ==> '\0' !in argument.value
      invariant ExpandFrom(sh, w, if argument.Some? then argument.value else "") == Expand(sh, raw)
      invariant Untouched(buf, at, |raw|)
      decreases |w|
    {
      var acc := if argument.Some? then argument.value else "";
      var len := NextSpecial(buf, working, w);
      CStrAt(buf[..], working, w, len);
      if buf[working + len] == '\0' {
        ExpandEnds(sh, w, acc);
        if argument.Some? {
          var last := ReadStr(buf, working, w);
          NoNul(buf[..], working, w);
          arg := DequoteString(acc + last);
        } else {
          DequoteAt(buf, at, raw);
          arg := ReadStr(buf, at, Dequote(raw));
          assert "" + w == w;
        }
        return;
      }
      ExpandGoesOn(sh, w, len, acc);
      var special := buf[working + len];
      ghost var rest := w[len + 1..];
      Cut(buf, working, w, len);
      var text := ReadStr(buf, working, w[..len]);
      NoNul(buf[..], working, w[..len]);
      var value, next := Value(buf, working + len + 1, rest, special, sh);
      if value == None {
        return "";
      }
      argument := Some(acc + text + value.value);
      w := Resolve(sh, special, rest).value.rest;
      working := next;
    }
  }

  lemma CommandIsCStr(sh: Shell, cmd: string)
    requires CShell(sh)
    ensures '\0' !in sh.command(cmd)
  {
  }

  // ----- nsh_argument -----

  lemma {:induction false} SkipSeparator(sh: Shell, s: string, i: nat)
    requires i < |s| && s[i] in TokenSeparators
    ensures NextToken(sh, s[i..]) == NextToken(sh, s[i + 1..])
  {
    assert s[i..][1..] == s[i + 1..];
  }

  // The token that begins at pbegin: find its end, cut it there and expand it.
  method TakeToken(buf: array<char>, pbegin: nat, ghost s: string, term: string, sh: Shell)
    returns (arg: string, save': nat)
    requires CStr(buf[..], pbegin, s) && CShell(sh)
    modifies buf
    ensures var n := TokenEnd(s, term, false, false);
            && arg == Expand(sh, s[..n])
            && save' + |After(s, n)| == pbegin + |s| && CStr(buf[..], save', After(s, n))
    ensures Untouched(buf, pbegin, |s|)
  {
    hide CStr, CShell, TokenEnd, Expand;
    var pend := ScanToken(buf, pbegin, s, term);
    var n := pend - pbegin;
    CStrAt(buf[..], pbegin, s, n);
    if buf[pend] != '\0' {
      Cut(buf, pbegin, s, n);
      save' := pend + 1;
    } else {
      assert s[..n] == s;
      save' := pend;
      CStrAt(buf[..], pbegin, s, |s|);
    }
    ghost var b := buf[..];
    arg := ArgExpand(buf, pbegin, s[..n], sh);
    CStrKept(b, buf[..], save', After(s, n));
  }

  // The first loop of nsh_argument.
  method SkipSeparators(buf: array<char>, save: nat, ghost s: string, ghost sh: Shell) returns (pbegin: nat,
                        ghost t: string)
    requires CStr(buf[..], save, s)
    ensures save <= pbegin && pbegin + |t| == save + |s| && CStr(buf[..], pbegin, t)
    ensures t == "" || t[0] !in TokenSeparators
    ensures NextToken(sh, t) == NextToken(sh, s)
  {
    hide CStr, NextToken;
    pbegin, t := save, s;
    CStrAt(buf[..], save, s, 0);
    while buf[pbegin] != '\0' && buf[pbegin] in TokenSeparators
      invariant save <= pbegin && pbegin + |t| == save + |s| && pbegin < buf.Length
      invariant buf[pbegin] == '\0' <==> t == ""
      invariant t != "" ==> buf[pbegin] == t[0]
      invariant CStr(buf[..], pbegin, t)
      invariant NextToken(sh, t) == NextToken(sh, s)
      decreases |t|
    {
      CStrAt(buf[..], pbegin, t, 1);
      SkipSeparator(sh, t, 0);
      assert t[0..] == t;
      t := t[1..];
      pbegin := pbegin + 1;
      CStrAt(buf[..], pbegin, t, 0);
    }
  }

  // nsh_argument: the next token from `save` on, and where to go on from.
  method Argument(buf: array<char>, save: nat, ghost s: string, sh: Shell) returns (arg: Option<string>, save': nat)
    requires CStr(buf[..], save, s) && CShell(sh)
    modifies buf
    ensures match NextToken(sh, s)
            case None => arg == None
            case Some(t) => arg == Some(t.arg) && save' + |t.rest| == save + |s| && CStr(buf[..], save', t.rest)
    ensures Untouched(buf, save, |s|)
  {
    hide CStr, CShell, NextToken, TokenEnd, Expand;
    var pbegin, t := SkipSeparators(buf, save, s, sh);
    TokenKinds(sh, t);
    CStrAt(buf[..], pbegin, t, 0);
    if buf[pbegin] == '\0' {
      return None, save;
    }
    CStrAt(buf[..], pbegin, t, 1);
    if buf[pbegin] == '>' {
      if buf[pbegin + 1] == '>' {
        CStrAt(buf[..], pbegin, t, 2);
        return Some(">>"), pbegin + 2;
      } else {
        return Some(">"), pbegin + 1;
      }
    } else if buf[pbegin] == '#' {
      return None, pbegin;
    }
    var value;
    if buf[pbegin] == '"' {
      value, save' := TakeToken(buf, pbegin + 1, t[1..], "\"", sh);
    } else {
      value, save' := TakeToken(buf, pbegin, t, TokenSeparators, sh);
    }
    arg := Some(value);
  }

  // NextToken, case by case.
  lemma {:induction false} TokenKinds(sh: Shell, s: string)
    requires s == "" || s[0] !in TokenSeparators
    ensures NextToken(sh, s) ==
            if s == "" || s[0] == '#' then None
            else if s[0] == '>' then
              if |s| > 1 && s[1] == '>' then Some(Token(">>", s[2..])) else Some(Token(">", s[1..]))
            else if s[0] == '"' then
              var n := TokenEnd(s[1..], "\"", false, false);
              Some(Token(Expand(sh, s[1..][..n]), After(s[1..], n)))
            else
              var n := TokenEnd(s, TokenSeparators, false, false);
              Some(Token(Expand(sh, s[..n]), After(s, n)))
  {
  }

  // The argument loop of nsh_parse_command: at most `most` arguments are taken, and what is left is
  // not looked at.
  method Arguments(buf: array<char>, at: nat, ghost s: string, sh: Shell, most: nat) returns (args: seq<string>)
    requires CStr(buf[..], at, s) && CShell(sh)
    modifies buf
    ensures args == Tokens(sh, s)[..Min(|Tokens(sh, s)|, most)]
    ensures Untouched(buf, at, |s|)
  {
    hide CStr, CShell, NextToken;
    var save := at;
    ghost var t := s;
    args := [];
    while |args| < most
      invariant at <= save && save + |t| == at + |s| && |args| <= most
      invariant CStr(buf[..], save, t)
      invariant Tokens(sh, s) == args + Tokens(sh, t)
      invariant Untouched(buf, at, |s|)
    {
      var arg, next := Argument(buf, save, t, sh);
      if arg == None {
        return;
      }
      args := args + [arg.value];
      t := NextToken(sh, t).value.rest;
      save := next;
    }
  }

  // ----- nsh_parse -----

  // Look, on the unread text w alone.
  ghost function LookIn(w: string, working: nat): Found {
    var n := Span(w, LineSeparators);
    if n == |w| || w[n] == '\n' || w[n] == '#' then Last(working + n)
    else if w[n] == ';' then Semicolon(working + n)
    else
      match Find(w[n + 1..], '"', false)
      case None => Unmatched
      case Some(k) => Quoted(working + n, working + n + k + 2)
  }

  lemma LookAtRest(line: string, start: nat, working: nat)
    requires start <= working <= |line|
    ensures line[start..][working - start..] == line[working..]
    ensures Look(line, working) == LookIn(line[working..], working)
  {
    hide Find;
    var n := Span(line[working..], LineSeparators);
    assert working + n < |line| ==> line[working..][n + 1..] == line[working + n + 1..];
  }

  // What follows from `working` on.
  method LookAhead(buf: array<char>, working: nat, ghost w: string) returns (f: Found)
    requires CStr(buf[..], working, w)
    ensures f == LookIn(w, working)
  {
    hide CStr, Find;
    var len := StrCSpn(buf, working, w, LineSeparators);
    CStrAt(buf[..], working, w, len);
    var ptr := working + len;
    if buf[ptr] == '\0' || buf[ptr] == '\n' || buf[ptr] == '#' {
      return Last(ptr);
    } else if buf[ptr] == ';' {
      return Semicolon(ptr);
    }
    CStrAt(buf[..], working, w, len + 1);
    var close := StrChr(buf, ptr + 1, w[len + 1..], '"');
    return if close == None then Unmatched else Quoted(ptr, close.value + 1);
  }

  // The commands handed on when `done` have been: one after the other, until one stops the line.
  function HandedOn(done: seq<Command>, cmds: seq<Command>, stops: seq<Command> -> bool): seq<Command>
    decreases |cmds|
  {
    if cmds == [] then done
    else
      var d := done + [cmds[0]];
      if stops(d) then d else HandedOn(d, cmds[1..], stops)
  }

  lemma HandOne(done: seq<Command>, c: Command, rest: seq<Command>, stops: seq<Command> -> bool)
    ensures HandedOn(done, [c] + rest, stops) ==
            if stops(done + [c]) then done + [c] else HandedOn(done + [c], rest, stops)
  {
    assert ([c] + rest)[1..] == rest;
  }

  // The line loop of nsh_parse, for a line at the start of the buffer: each command is cut off at
  // its semicolon and handed on before the next one is looked for.  `stops` says whether the last
  // command handed on fails or asks for a jump, which ends the line.
  method SplitLine(buf: array<char>, ghost line: string, stops: seq<Command> -> bool)
    returns (cmds: seq<Command>, ok: bool)
    requires CStr(buf[..], 0, line)
    modifies buf
    ensures cmds == HandedOn([], Split(line).cmds, stops)
    ensures ok <==> Split(line).ok || (cmds != [] && stops(cmds))
  {
    hide CStr, Look, LookIn, SplitFrom, HandedOn;
    var start, working := 0, 0;
    cmds := [];
    assert line[0..] == line;
    while true
      invariant start <= working <= |line|
      invariant CStr(buf[..], start, line[start..])
      invariant HandedOn([], Split(line).cmds, stops) == HandedOn(cmds, SplitFrom(line, start, working).cmds, stops)
      invariant Split(line).ok == SplitFrom(line, start, working).ok && (cmds != [] ==> !stops(cmds))
      decreases |line| - working
    {
      LookAtRest(line, start, working);
      CStrAt(buf[..], start, line[start..], working - start);
      var found := LookAhead(buf, working, line[working..]);
      match found
      case Last(ptr) =>
        LastCommand(line, start, working);
        var text := ReadStr(buf, start, line[start..]);
        HandLast(cmds, Command(start, ptr, working, text), stops);
        return cmds + [Command(start, ptr, working, text)], true;
      case Semicolon(ptr) =>
        FirstCommand(line, start, working);
        Cut(buf, start, line[start..], ptr - start);
        assert line[start..][..ptr - start] == line[start..ptr];
        assert line[start..][ptr - start + 1..] == line[ptr + 1..];
        var text := ReadStr(buf, start, line[start..ptr]);
        HandOne(cmds, Command(start, ptr, working, text), SplitFrom(line, ptr + 1, ptr + 1).cmds, stops);
        cmds := cmds + [Command(start, ptr, working, text)];
        if stops(cmds) {
          return cmds, true;
        }
        start, working := ptr + 1, ptr + 1;
      case Quoted(_, next) =>
        OtherCommand(line, start, working);
        working := next;
      case Unmatched =>
        OtherCommand(line, start, working);
        HandNone(cmds, stops);
        return cmds, false;
    }
  }

  lemma HandLast(done: seq<Command>, c: Command, stops: seq<Command> -> bool)
    ensures HandedOn(done, [c], stops) == done + [c]
  {
  }

  lemma HandNone(done: seq<Command>, stops: seq<Command> -> bool)
    ensures HandedOn(done, [], stops) == done
  {
  }
}
