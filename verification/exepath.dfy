/** The walk over the entries of PATH, which cuts its own copy of the variable into pieces. */
module ExePath {
  import opened Basics
  import opened CStrings

  // The position of the first colon, or the length of the string.
  function Colon(p: string): (k: nat)
    ensures k <= |p| && ':' !in p[..k] && (k < |p| ==> p[k] == ':')
  {
    if p == "" || p[0] == ':' then 0
    else
      var k := Colon(p[1..]);
      assert p[..k + 1] == [p[0]] + p[1..][..k];
      k + 1
  }

  lemma {:induction false} ColonAt(p: string, k: nat)
    requires k <= |p|
    ensures Colon(p[k..]) == if k == |p| || p[k] == ':' then 0 else 1 + Colon(p[k + 1..])
  {
    assert k < |p| ==> p[k..][1..] == p[k + 1..];
  }

  // The colon-separated fields of a string.
  function Fields(p: string): (r: seq<string>)
    ensures |r| > 0
    decreases |p|
  {
    var k := Colon(p);
    if k == |p| then [p] else [p[..k]] + Fields(p[k + 1..])
  }

  lemma {:induction false} FieldsStep(p: string)
    requires Colon(p) < |p|
    ensures Fields(p) == [p[..Colon(p)]] + Fields(p[Colon(p) + 1..])
  {
  }

  // The inverse of Fields.
  function Join(fields: seq<string>): string
    requires |fields| > 0
  {
    if |fields| == 1 then fields[0] else fields[0] + ":" + Join(fields[1..])
  }

  lemma {:induction false} JoinFields(p: string)
    ensures Join(Fields(p)) == p && forall i | 0 <= i < |Fields(p)| :: ':' !in Fields(p)[i]
    decreases |p|
  {
    hide Colon;
    var k := Colon(p);
    if k == |p| {
      assert p[..k] == p;
    } else {
      var head, rest := p[..k], p[k + 1..];
      hide Fields, Join;
      JoinFields(rest);
      FieldsStep(p);
      JoinStep(head, Fields(rest));
      assert p == head + ":" + rest;
    }
  }

  lemma {:induction false} JoinStep(head: string, fields: seq<string>)
    requires fields != []
    ensures Join([head] + fields) == head + ":" + Join(fields)
  {
    assert ([head] + fields)[1..] == fields;
  }

  // The entries of PATH: its fields, without a last one that is empty.
  function Entries(p: string): seq<string> {
    var f := Fields(p);
    if f[|f| - 1] == "" then f[..|f| - 1] else f
  }

  lemma {:induction false} EntriesStep(p: string)
    ensures p == "" ==> Entries(p) == []
    ensures p != "" && Colon(p) == |p| ==> Entries(p) == [p]
    ensures Colon(p) < |p| ==> Entries(p) == [p[..Colon(p)]] + Entries(p[Colon(p) + 1..])
  {
    hide Colon;
    var k := Colon(p);
    if k < |p| {
      hide Fields;
      var f, g := Fields(p), Fields(p[k + 1..]);
      FieldsStep(p);
      assert f[|f| - 1] == g[|g| - 1];
      assert f[..|f| - 1] == [p[..k]] + g[..|g| - 1];
    }
  }

  // The full paths of regular files, in the order of the entries.
  function Hits(entries: seq<string>, relpath: string, regular: string -> bool): seq<string> {
    if entries == [] then []
    else
      var full := entries[0] + "/" + relpath;
      (if regular(full) then [full] else []) + Hits(entries[1..], relpath, regular)
  }

  // What remains of PATH begins at `next` in the copy.
  class Walk {
    const path: array<char>
    var next: nat
    ghost var rest: string

    ghost predicate Valid()
      reads this, path
    {
      CStr(path[..], next, rest)
    }

    // exepath_init
    constructor (value: string)
      requires '\0' !in value
      ensures Valid() && rest == value && fresh(path)
    {
      path := new char[|value| + 1](i requires 0 <= i <= |value| => if i < |value| then value[i] else '\0');
      next, rest := 0, value;
      new;
      assert path[0..|value|] == value;
      CStrMade(path[..], 0, |value|, value);
    }

    // strchr(path, ':')
    method FindColon() returns (k: nat)
      requires Valid()
      ensures k == Colon(rest)
    {
      hide CStr, Colon;
      k := 0;
      CStrAt(path[..], next, rest, 0);
      assert rest[0..] == rest;
      while path[next + k] != '\0' && path[next + k] != ':'
        invariant k <= |rest| && next + k < path.Length
        invariant (path[next + k] == '\0') == (k == |rest|) && (k < |rest| ==> path[next + k] == rest[k])
        invariant Colon(rest) == k + Colon(rest[k..])
        decreases |rest| - k
      {
        CStrAt(path[..], next, rest, k + 1);
        ColonAt(rest, k);
        k := k + 1;
      }
      ColonAt(rest, k);
    }

    // One entry: cut it off and step over it.
    method NextEntry() returns (entry: string)
      requires Valid() && rest != ""
      modifies this`next, this`rest, path
      ensures Valid() && |rest| < |old(rest)|
      ensures Entries(old(rest)) == [entry] + Entries(rest)
    {
      hide CStr, Entries;
      var k := FindColon();
      ghost var p := rest;
      EntriesStep(p);
      CStrAt(path[..], next, p, k);
      if path[next + k] == '\0' {
        entry := ReadStr(path, next, p);
        next, rest := next + k, p[k..];
        EntriesStep(rest);
      } else {
        Cut(path, next, p, k);
        entry := ReadStr(path, next, p[..k]);
        next, rest := next + k + 1, p[k + 1..];
      }
    }

    /** exepath_next, when memory does not run out: the next entry that leads to a regular file. */
    method Next(relpath: string, regular: string -> bool) returns (full: Option<string>)
      requires Valid()
      modifies this`next, this`rest, path
      ensures Valid()
      ensures Hits(Entries(old(rest)), relpath, regular) ==
              if full.Some? then [full.value] + Hits(Entries(rest), relpath, regular) else []
      ensures full.None? ==> rest == "" && Hits(Entries(rest), relpath, regular) == []
      ensures full.Some? ==> regular(full.value)
    {
      hide CStr, Entries;
      CStrAt(path[..], next, rest, 0);
      while path[next] != '\0'
        invariant Valid() && next < path.Length && (path[next] == '\0') == (rest == "")
        invariant Hits(Entries(old(rest)), relpath, regular) == Hits(Entries(rest), relpath, regular)
        decreases |rest|
      {
        ghost var before := Entries(rest);
        var entry := NextEntry();
        assert before[1..] == Entries(rest);
        CStrAt(path[..], next, rest, 0);
        if regular(entry + "/" + relpath) {
          return Some(entry + "/" + relpath);
        }
      }
      EntriesStep(rest);
      full := None;
    }

    /** Calling exepath_next n times: it gives, in order and once each, the PATH entries joined with
        the relative path that name a regular file, and after that nothing, for ever. */
    method CallTimes(relpath: string, regular: string -> bool, n: nat) returns (results: seq<Option<string>>)
      requires Valid()
      modifies this`next, this`rest, path
      ensures Valid() && |results| == n
      ensures var hits := Hits(Entries(old(rest)), relpath, regular);
              forall i | 0 <= i < n :: results[i] == if i < |hits| then Some(hits[i]) else None
    {
      hide Entries, CStr, Hits;
      ghost var hits := Hits(Entries(rest), relpath, regular);
      results := [];
      for k := 0 to n
        invariant Valid() && |results| == k
        invariant Hits(Entries(rest), relpath, regular) == if k <= |hits| then hits[k..] else []
        invariant forall i | 0 <= i < k :: results[i] == if i < |hits| then Some(hits[i]) else None
      {
        ghost var now := Hits(Entries(rest), relpath, regular);
        var full := Next(relpath, regular);
        assert full.Some? ==> Hits(Entries(rest), relpath, regular) == now[1..];
        results := results + [full];
      }
    }
  }
}
