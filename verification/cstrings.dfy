/** NUL-terminated strings in a character buffer. */
module CStrings {

  // The NUL-terminated string that begins at `at` is s.
  ghost predicate CStr(b: seq<char>, at: nat, s: string) {
    && at + |s| < |b|
    && b[at..at + |s|] == s
    && b[at + |s|] == '\0'
    && '\0' !in s
  }

  lemma CStrAt(b: seq<char>, at: nat, s: string, i: nat)
    requires CStr(b, at, s) && i <= |s|
    ensures CStr(b, at + i, s[i..]) && at + i < |b|
    ensures b[at + i] == '\0' <==> i == |s|
    ensures i < |s| ==> b[at + i] == s[i]
  {
    if i < |s| {
      assert b[at..at + |s|][i] == s[i];
      assert s[i] in s;
    }
    assert b[at + i..at + |s|] == b[at..at + |s|][i..];
  }

  // Copy a string out of the buffer.
  method ReadStr(buf: array<char>, at: nat, ghost s: string) returns (r: string)
    requires CStr(buf[..], at, s)
    ensures r == s
  {
    r := "";
    CStrAt(buf[..], at, s, 0);
    while buf[at + |r|] != '\0'
      invariant |r| <= |s| && r == s[..|r|]
      decreases |s| - |r|
    {
      CStrAt(buf[..], at, s, |r|);
      r := r + [buf[at + |r|]];
    }
    CStrAt(buf[..], at, s, |r|);
  }

  // Nothing but the n characters from `at` on has changed.
  twostate predicate Untouched(buf: array<char>, at: nat, n: nat)
    reads buf
  {
    forall i | 0 <= i < buf.Length && !(at <= i < at + n) :: buf[i] == old(buf[i])
  }

  lemma CStrMade(b: seq<char>, at: nat, end: nat, s: string)
    requires at <= end < |b| && b[at..end] == s && b[end] == '\0' && '\0' !in s
    ensures CStr(b, at, s)
  {
  }

  // Put a NUL at character k: the string before it and the string after it.
  method Cut(buf: array<char>, at: nat, ghost s: string, k: nat)
    requires CStr(buf[..], at, s) && k < |s|
    modifies buf
    ensures CStr(buf[..], at, s[..k]) && CStr(buf[..], at + k + 1, s[k + 1..])
    ensures forall i | 0 <= i < buf.Length && i != at + k :: buf[i] == old(buf[i])
  {
    CStrAt(buf[..], at, s, k);
    ghost var b := buf[..];
    CStrAt(b, at, s, k + 1);
    buf[at + k] := '\0';
    assert buf[at..at + k] == b[at..at + k] == s[..k] by {
      assert b[at..at + |s|][..k] == b[at..at + k];
    }
    assert buf[at + k + 1..at + |s|] == b[at + k + 1..at + |s|];
  }

  lemma NoNul(b: seq<char>, at: nat, s: string)
    requires CStr(b, at, s)
    ensures '\0' !in s
  {
  }

  lemma CStrKept(b: seq<char>, b': seq<char>, at: nat, s: string)
    requires CStr(b, at, s) && |b'| == |b| && forall i | at <= i < |b| :: b'[i] == b[i]
    ensures CStr(b', at, s)
  {
    assert b'[at..at + |s|] == b[at..at + |s|];
  }

  // A new tail behind a part that stays.
  lemma CStrNewTail(b: seq<char>, b': seq<char>, at: nat, done: string, rest: string, rest': string)
    requires CStr(b, at, done + rest) && |b'| == |b| && CStr(b', at + |done|, rest')
    requires forall i | at <= i < at + |done| :: b'[i] == b[i]
    ensures CStr(b', at, done + rest')
  {
    var s, s' := done + rest, done + rest';
    forall i | 0 <= i < |s'| ensures b'[at + i] == s'[i] && s'[i] != '\0' {
      if i < |done| {
        assert b[at..at + |s|][i] == s[i] && s[i] in s;
      } else {
        assert b'[at + |done|..at + |done| + |rest'|][i - |done|] == rest'[i - |done|] && rest'[i - |done|] in rest';
      }
    }
    assert b'[at..at + |s'|] == s';
  }
}
