/** Copying an argument list into one allocation: first the sizes, then the pointers and strings. */
module CopyArgv {
  import opened Basics
  import opened CStrings

  const MaxArgs := 256
  const Ok := 0
  const TooBig := -7        // -E2BIG
  const OutOfMemory := -12  // -ENOMEM

  // The bytes the first n strings take, each with its NUL.
  function Size(args: seq<string>, n: nat): nat
    requires n <= |args|
  {
    if n == 0 then 0 else Size(args, n - 1) + |args[n - 1]| + 1
  }

  lemma {:induction false} SizeMono(args: seq<string>, m: nat, n: nat)
    requires m <= n <= |args|
    ensures Size(args, m) <= Size(args, n)
    decreases n
  {
    if m < n {
      SizeMono(args, m, n - 1);
    }
  }

  // In an allocation b, string i is in place behind a table that takes `base` bytes and the strings
  // before it.  The table holds the offset of each string.
  ghost predicate InPlace(table: seq<Option<nat>>, b: seq<char>, args: seq<string>, base: nat, i: nat)
    requires i < |args| <= |table|
  {
    table[i] == Some(base + Size(args, i)) && CStr(b, base + Size(args, i), args[i])
  }

  ghost predicate Placed(table: seq<Option<nat>>, b: seq<char>, args: seq<string>, n: nat, base: nat) {
    && n <= |args| == |table| - 1 && base + Size(args, |args|) == |b|
    && forall i | 0 <= i < n :: InPlace(table, b, args, base, i)
  }

  // A string that ends before `limit` is not changed by changes from there on.
  lemma CStrBelow(b: seq<char>, b': seq<char>, at: nat, s: string, limit: nat)
    requires CStr(b, at, s) && at + |s| < limit <= |b| == |b'| && b'[..limit] == b[..limit]
    ensures CStr(b', at, s)
  {
    assert b'[at..at + |s|] == b'[..limit][at..at + |s|] == b[at..at + |s|];
    assert b'[at + |s|] == b'[..limit][at + |s|];
  }

  // One more string behind those that are in place.
  lemma {:induction false} PlacedMore(table: seq<Option<nat>>, table': seq<Option<nat>>, b: seq<char>, b': seq<char>,
                                      args: seq<string>, n: nat, base: nat)
    requires Placed(table, b, args, n, base) && n < |args| && |b'| == |b|
    requires var at := base + Size(args, n);
             && table' == table[n := Some(at)] && at <= |b| && b'[..at] == b[..at] && CStr(b', at, args[n])
    ensures Placed(table', b', args, n + 1, base)
  {
    hide CStr;
    var at := base + Size(args, n);
    forall i | 0 <= i < n ensures InPlace(table', b', args, base, i) {
      assert InPlace(table, b, args, base, i);
      SizeMono(args, i + 1, n);
      CStrBelow(b, b', base + Size(args, i), args[i], at);
    }
  }

  // The NULL at the end of the table.
  lemma EndTable(table: seq<Option<nat>>, table': seq<Option<nat>>, b: seq<char>,
                 args: seq<string>, base: nat)
    requires Placed(table, b, args, |args|, base) && table' == table[|args| := None]
    ensures Placed(table', b, args, |args|, base)
  {
    hide CStr, Size;
    forall i | 0 <= i < |args| ensures InPlace(table', b, args, base, i) {
      assert InPlace(table, b, args, base, i);
    }
  }

  /** The strings lie behind the table and do not overlap: each ends before the next one begins, and
      the last one ends with the allocation. */
  lemma StringsAreDisjoint(table: seq<Option<nat>>, b: seq<char>, args: seq<string>, base: nat,
                           i: nat, j: nat)
    requires Placed(table, b, args, |args|, base) && i <= j < |args|
    ensures table[i].Some? && table[j].Some?
    ensures base <= table[i].value && (i < j ==> table[i].value + |args[i]| < table[j].value)
    ensures table[j].value + |args[j]| < |b| && (j == |args| - 1 ==> table[j].value + |args[j]| + 1 == |b|)
  {
    hide CStr;
    assert InPlace(table, b, args, base, i) && InPlace(table, b, args, base, j);
    if i < j {
      SizeMono(args, i + 1, j);
    }
    SizeMono(args, j + 1, |args|);
  }

  // struct binary_s.  The allocation is argbuffer; argv stands for the pointer table in its first
  // bytes.
  class Binary {
    var argbuffer: array?<char>
    var argv: array?<Option<nat>>

    constructor ()
      ensures argbuffer == null && argv == null
    {
      argbuffer, argv := null, null;
    }

    // memcpy of a string with its NUL.
    static method PutString(b: array<char>, at: nat, s: string)
      requires at + |s| < b.Length && '\0' !in s
      modifies b
      ensures CStr(b[..], at, s) && b[..at] == old(b[..at])
    {
      for i := 0 to |s|
        invariant b[at..at + i] == s[..i] && b[..at] == old(b[..at])
      {
        b[at + i] := s[i];
      }
      b[at + |s|] := '\0';
      CStrMade(b[..], at, at + |s|, s);
    }

    // The copy loop.
    static method CopyStrings(table: array<Option<nat>>, b: array<char>, args: seq<string>, base: nat)
      requires forall i | 0 <= i < |args| :: '\0' !in args[i]
      requires table.Length == |args| + 1 && b.Length == base + Size(args, |args|)
      modifies table, b
      ensures Placed(table[..], b[..], args, |args|, base)
    {
      hide InPlace;
      var ptr := base;
      for i := 0 to |args|
        invariant Placed(table[..], b[..], args, i, base) && ptr == base + Size(args, i)
      {
        SizeMono(args, i + 1, |args|);
        ghost var t0, b0 := table[..], b[..];
        table[i] := Some(ptr);
        PutString(b, ptr, args[i]);
        PlacedMore(t0, table[..], b0, b[..], args, i, base);
        ptr := ptr + |args[i]| + 1;
      }
    }

    /** binfmt_copyargv.  `pointer` is the size of a pointer and `memory` says whether the allocation
        succeeds.  On success the copied list has the same strings in the same order and ends with
        NULL; the first string begins right behind the table, each next one where the one before it
        ends, and the allocation is exactly used up. */
    method Copy(args: Option<seq<string>>, pointer: nat, memory: bool) returns (ret: int)
      requires args.Some? ==> forall i | 0 <= i < |args.value| :: '\0' !in args.value[i]
      modifies this
      ensures ret == if args.Some? && |args.value| > 256 then -7
                     else if args.Some? && args.value != [] && !memory then -12
                     else 0
      ensures argbuffer == null <==> argv == null
      ensures argv != null <==> ret == 0 && args.Some? && args.value != []
      ensures argv != null ==> Placed(argv[..], argbuffer[..], args.value, |args.value|, (|args.value| + 1) * pointer)
      ensures argv != null ==> fresh(argbuffer) && fresh(argv) && argv[|args.value|] == None
    {
      hide InPlace, CStr;
      argbuffer, argv := null, null;
      if args.None? {
        return Ok;
      }
      var list := args.value;
      var argsize, nargs := 0, 0;
      while nargs < |list|
        invariant nargs <= |list| && nargs <= MaxArgs && argsize == Size(list, nargs)
        invariant argbuffer == null && argv == null
      {
        argsize := argsize + |list[nargs]| + 1;
        nargs := nargs + 1;
        if nargs > MaxArgs {
          return TooBig;
        }
      }
      if argsize > 0 {
        if !memory {
          return OutOfMemory;
        }
        var argvsize := (nargs + 1) * pointer;
        argbuffer := new char[argvsize + argsize];
        argv := new Option<nat>[nargs + 1];
        CopyStrings(argv, argbuffer, list, argvsize);
        ghost var table := argv[..];
        argv[nargs] := None;
        EndTable(table, argv[..], argbuffer[..], list, argvsize);
      }
      ret := Ok;
    }
  }
}
