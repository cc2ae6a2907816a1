/** The dd command: copying whole sectors through short reads and short writes. */
module Dd {
  import opened Basics

  const Max32 := 0x1_0000_0000

  // Byte i of the input, with zeros after its end.
  function ByteAt(input: seq<Byte>, i: nat): Byte {
    if i < |input| then input[i] else 0
  }

  // The number of sectors in the input; the last one may be partial.
  function Sectors(input: seq<Byte>, size: nat): nat
    requires size > 0
  {
    (|input| + size - 1) / size
  }

  // How many sectors dd writes: what is left after `skip` sectors, `count` at most.
  function Written(input: seq<Byte>, size: nat, skip: nat, count: nat): nat
    requires size > 0
  {
    if Sectors(input, size) <= skip then 0 else Min(count, Sectors(input, size) - skip)
  }

  // Where sector k begins.
  function Start(k: nat, size: nat): nat {
    k * size
  }

  // The zero-padded sector that begins at `start`.
  function PaddedSector(input: seq<Byte>, start: nat, size: nat): (r: seq<Byte>)
    ensures |r| == size
  {
    seq<Byte>(size, i requires 0 <= i => ByteAt(input, start + i))
  }

  // n zero-padded sectors of the input, from sector `skip` on.
  function Image(input: seq<Byte>, size: nat, skip: nat, n: nat): (r: seq<Byte>)
    ensures |r| == n * size
  {
    seq<Byte>(n * size, i requires 0 <= i => ByteAt(input, skip * size + i))
  }

  lemma ImageGrows(input: seq<Byte>, size: nat, skip: nat, n: nat)
    ensures Image(input, size, skip, n) + PaddedSector(input, Start(skip + n, size), size)
         == Image(input, size, skip, n + 1)
  {
    assert (n + 1) * size == n * size + size;
    assert (skip + n) * size == skip * size + n * size;
  }

  lemma ImagePrefix(input: seq<Byte>, size: nat, skip: nat, m: nat, n: nat)
    requires m <= n
    ensures Image(input, size, skip, m) <= Image(input, size, skip, n)
  {
    MulMono(m, n, size);
  }

  lemma NothingRead(b: seq<Byte>, input: seq<Byte>, start: nat)
    requires start <= |input|
    ensures b[..0] == input[start..start]
  {
  }

  // A read that fills n more bytes of the buffer.
  lemma MoreRead(b: seq<Byte>, b': seq<Byte>, input: seq<Byte>, start: nat, at: nat, n: nat)
    requires at + n <= |b| && start + at + n <= |input| && b[..at] == input[start..start + at]
    requires b' == b[..at] + input[start + at..start + at + n] + b[at + n..]
    ensures b'[..at + n] == input[start..start + at + n]
  {
    assert b'[..at + n] == b[..at] + input[start + at..start + at + n];
  }

  lemma MulMono(m: nat, n: nat, size: nat)
    requires m <= n
    ensures m * size <= n * size
  {
    assert n * size == m * size + (n - m) * size;
  }

  // Sector k begins before the end of the input exactly when it is one of its sectors.
  lemma SectorBegins(input: seq<Byte>, size: nat, k: nat)
    requires size > 0
    ensures Start(k, size) < |input| <==> k < Sectors(input, size)
    ensures Start(k + 1, size) == Start(k, size) + size
  {
    assert (k + 1) * size == k * size + size;
    var n, x := Sectors(input, size), |input| + size - 1;
    assert n * size <= x < n * size + size;
    if k < n {
      MulMono(k + 1, n, size);
    } else {
      MulMono(n, k, size);
    }
  }

  // struct dd_s, the two files, and how the system cuts reads and writes: the result of call
  // number k is an error if negative, and otherwise the number of bytes, cut to what is possible.
  class Transfer {
    const input: seq<Byte>
    var inpos: nat
    var output: seq<Byte>
    const readHint: nat -> int
    const writeHint: nat -> int
    var calls: nat
    ghost var failed: bool  // some call has failed

    var nsectors: nat     // uint32_t
    var sector: nat       // uint32_t
    const skip: nat       // uint32_t
    var eof: bool
    const sectsize: nat   // uint16_t
    var nbytes: nat       // uint16_t
    const buffer: array<Byte>

    ghost predicate Valid()
      reads this
    {
      && inpos <= |input| && nsectors < Max32 && sector < Max32 && skip < Max32
      && buffer.Length == sectsize < 0x1_0000
    }

    constructor (input: seq<Byte>, rs: nat -> int, ws: nat -> int, size: nat, skip: nat, count: nat)
      requires size < 0x1_0000 && skip < Max32 && count < Max32
      ensures Valid() && fresh(buffer)
      ensures this.input == input && inpos == 0 && output == [] && !eof && sector == 0
      ensures sectsize == size && this.skip == skip && nsectors == count
      ensures readHint == rs && writeHint == ws && calls == 0 && !failed
    {
      failed := false;
      this.input, inpos, output, readHint, writeHint, calls := input, 0, [], rs, ws, 0;
      nsectors, sector, this.skip, eof, sectsize, nbytes := count, 0, skip, false, size, 0;
      buffer := new Byte[size](_ => 0);
    }

    // read: at least one byte unless there is none or none is wanted.
    method Read(at: nat, want: nat) returns (n: int)
      requires Valid() && at + want <= sectsize
      modifies this`calls, this`failed, this`inpos, buffer
      ensures Valid() && calls == old(calls) + 1
      ensures (n < 0 <==> readHint(old(calls)) < 0) && failed == (old(failed) || n < 0)
      ensures n < 0 ==> inpos == old(inpos) && buffer[..] == old(buffer[..])
      ensures n >= 0 ==>
                && n <= want && (n == 0 <==> want == 0 || old(inpos) == |input|)
                && inpos == old(inpos) + n
                && buffer[..] == old(buffer[..])[..at] + input[old(inpos)..inpos] + old(buffer[..])[at + n..]
    {
      var hint := readHint(calls);
      calls := calls + 1;
      if hint < 0 {
        failed := true;
        return -1;
      }
      var most := Min(want, |input| - inpos);
      n := if most == 0 then 0 else if hint < 1 then 1 else Min(hint, most);
      ghost var b := buffer[..];
      forall i | 0 <= i < n {
        buffer[at + i] := input[inpos + i];
      }
      inpos := inpos + n;
      assert buffer[..] == b[..at] + input[old(inpos)..inpos] + b[at + n..];
    }

    // write: at least one byte.
    method Write(at: nat, want: nat) returns (n: int)
      requires Valid() && 0 < want && at + want <= sectsize
      modifies this`calls, this`failed, this`output
      ensures n != 0 && n <= want && calls == old(calls) + 1
      ensures (n < 0 <==> writeHint(old(calls)) < 0) && failed == (old(failed) || n < 0)
      ensures output == if n < 0 then old(output) else old(output) + buffer[at..at + n]
    {
      var hint := writeHint(calls);
      calls := calls + 1;
      if hint < 0 {
        failed := true;
        return -1;
      }
      n := if hint < 1 then 1 else Min(hint, want);
      output := output + buffer[at..at + n];
    }

    // dd_read: fill the buffer, unless the input ends.
    method ReadSector() returns (ok: bool)
      requires Valid()
      modifies this`calls, this`failed, this`inpos, this`nbytes, this`eof, buffer
      ensures Valid() && old(calls) < calls && failed == (old(failed) || !ok)
      ensures !ok ==> readHint(calls - 1) < 0
      ensures ok ==>
                && nbytes == Min(sectsize, |input| - old(inpos)) && inpos == old(inpos) + nbytes
                && buffer[..nbytes] == input[old(inpos)..inpos]
                && eof == (old(eof) || nbytes == 0)
    {
      nbytes := 0;
      ghost var start := inpos;
      NothingRead(buffer[..], input, start);
      while true
        invariant Valid() && nbytes <= sectsize && inpos == start + nbytes && eof == old(eof)
        invariant old(calls) <= calls && failed == old(failed)
        invariant buffer[..][..nbytes] == input[start..inpos]
        decreases |input| - inpos
      {
        ghost var b := buffer[..];
        var n := Read(nbytes, sectsize - nbytes);
        if n < 0 {
          return false;
        }
        MoreRead(b, buffer[..], input, start, nbytes, n);
        nbytes := nbytes + n;
        if !(nbytes < sectsize && n > 0) {
          break;
        }
      }
      assert buffer[..nbytes] == buffer[..][..nbytes];
      eof := eof || nbytes == 0;
      ok := true;
    }

    // dd_write: write the whole buffer.
    method WriteSector() returns (ok: bool)
      requires Valid() && sectsize > 0
      modifies this`calls, this`failed, this`output
      ensures old(calls) < calls && failed == (old(failed) || !ok)
      ensures !ok ==> writeHint(calls - 1) < 0
      ensures ok ==> output == old(output) + buffer[..]
      ensures !ok ==> output <= old(output) + buffer[..] && old(output) <= output
    {
      ghost var b, before := buffer[..], output;
      var written := 0;
      while true
        invariant written < sectsize && output == before + b[..written]
        invariant old(calls) <= calls && failed == old(failed)
        decreases sectsize - written
      {
        var n := Write(written, sectsize - written);
        if n < 0 {
          PartWritten(before, b, written);
          return false;
        }
        assert buffer[written..written + n] == b[written..written + n];
        MoreWritten(before, b, written, n);
        written := written + n;
        if written >= sectsize {
          break;
        }
      }
      assert b[..written] == b;
      ok := true;
    }

    // Zeros behind a partial sector.
    method Pad(ghost start: nat)
      requires Valid() && nbytes <= sectsize && start + nbytes <= |input| &&
               buffer[..nbytes] == input[start..start + nbytes]
      requires nbytes < sectsize ==> start + nbytes == |input|
      modifies buffer
      ensures forall i | 0 <= i < sectsize :: buffer[i] == ByteAt(input, start + i)
    {
      assert forall i | 0 <= i < nbytes :: buffer[i] == buffer[..nbytes][i] == input[start + i];
      for i := nbytes to sectsize
        invariant forall k | 0 <= k < i :: buffer[k] == ByteAt(input, start + k)
      {
        buffer[i] := 0;
      }
    }

    // One pass of the transfer loop.
    method CopySector() returns (ok: bool)
      requires Valid() && sectsize > 0 && !eof && nsectors > 0
      modifies this`calls, this`failed, this`inpos, this`output, this`nbytes, this`eof, this`nsectors, this`sector,
               buffer
      ensures Valid() && old(calls) < calls && failed == (old(failed) || !ok)
      ensures !ok ==> readHint(calls - 1) < 0 || writeHint(calls - 1) < 0
      ensures ok && old(inpos) == |input| ==>
                && eof && inpos == old(inpos) && sector == old(sector) && nsectors == old(nsectors)
                && output == old(output)
      ensures ok && old(inpos) < |input| ==>
                && !eof && inpos == Min(old(inpos) + sectsize, |input|) && sector == (old(sector) + 1) % Max32
                && nsectors == old(nsectors) - (if old(sector) >= skip then 1 else 0)
                && output == old(output) +
                             (if old(sector) >= skip then PaddedSector(input, old(inpos), sectsize) else [])
      ensures !ok ==>
                || output == old(output)
                || (old(sector) >= skip && old(inpos) < |input|
                    && output <= old(output) + PaddedSector(input, old(inpos), sectsize))
    {
      ghost var start := inpos;
      ok := ReadSector();
      if ok && !eof {
        Pad(start);
        assert buffer[..] == PaddedSector(input, start, sectsize);
        if sector >= skip {
          ok := WriteSector();
          if !ok {
            return;
          }
          nsectors := nsectors - 1;
        }
        sector := (sector + 1) % Max32;
      }
    }

    /** The transfer loop of cmd_dd.  Whatever the reads and writes are cut into, success means that
        the output is the zero-padded sectors of the input from `skip` on, `count` at most; and on
        an error the output is the beginning of that.  It succeeds unless a call fails. */
    method Copy() returns (ok: bool)
      requires Valid() && sectsize > 0 && inpos == 0 && output == [] && !eof && sector == 0 && !failed
      requires Sectors(input, sectsize) < Max32
      modifies this`calls, this`failed, this`inpos, this`output, this`nbytes, this`eof, this`nsectors, this`sector,
               buffer
      ensures ok <==> !failed
      ensures !ok ==> old(calls) < calls && (readHint(calls - 1) < 0 || writeHint(calls - 1) < 0)
      ensures ok ==> output == Image(input, sectsize, skip, Written(input, sectsize, skip, old(nsectors)))
      ensures output <= Image(input, sectsize, skip, Written(input, sectsize, skip, old(nsectors)))
    {
      hide Image, Sectors, Start, PaddedSector, Written;
      ghost var count, total, written := nsectors, Sectors(input, sectsize), 0;
      ghost var goal := Written(input, sectsize, skip, count);
      ghost var target := Image(input, sectsize, skip, goal);
      CopyBegins(input, sectsize, skip, count);
      while !eof && nsectors > 0
        invariant Valid() && sector <= total && inpos == Min(Start(sector, sectsize), |input|)
        invariant written == (if sector <= skip then 0 else sector - skip) && written + nsectors == count
        invariant output == Image(input, sectsize, skip, written) && output <= target
        invariant eof ==> sector == total
        invariant old(calls) <= calls && !failed
        decreases |input| - inpos, !eof
      {
        SectorBegins(input, sectsize, sector);
        ghost var before := output;
        ghost var more, writes := sector < total, sector >= skip;
        if more && writes {
          CopyGoesOn(input, sectsize, skip, count, written);
        }
        ok := CopySector();
        if !ok {
          if output != before {
            PrefixTrans(output, before + PaddedSector(input, Start(skip + written, sectsize), sectsize), target);
          }
          return;
        }
        if more && writes {
          written := written + 1;
        }
      }
      CopyEnds(input, sectsize, skip, count, sector, written);
      ok := true;
    }
  }

  lemma MoreWritten(before: seq<Byte>, b: seq<Byte>, written: nat, n: nat)
    requires written + n <= |b|
    ensures before + b[..written] + b[written..written + n] == before + b[..written + n]
  {
  }

  lemma PartWritten(before: seq<Byte>, b: seq<Byte>, written: nat)
    requires written <= |b|
    ensures before <= before + b[..written] <= before + b
  {
    assert b == b[..written] + b[written..];
  }

  lemma PrefixTrans(a: seq<Byte>, b: seq<Byte>, c: seq<Byte>)
    requires a <= b && b <= c
    ensures a <= c
  {
  }

  // The arithmetic of the transfer loop: at its start, for a sector that is written, and at its end.
  lemma CopyBegins(input: seq<Byte>, size: nat, skip: nat, count: nat)
    requires size > 0
    ensures Start(0, size) == 0 && Image(input, size, skip, 0) == []
    ensures [] <= Image(input, size, skip, Written(input, size, skip, count))
  {
    ImagePrefix(input, size, skip, 0, Written(input, size, skip, count));
  }

  lemma CopyGoesOn(input: seq<Byte>, size: nat, skip: nat, count: nat, written: nat)
    requires size > 0 && written < count && skip + written < Sectors(input, size)
    ensures Image(input, size, skip, written) + PaddedSector(input, Start(skip + written, size), size)
         == Image(input, size, skip, written + 1)
    ensures Image(input, size, skip, written + 1) <= Image(input, size, skip, Written(input, size, skip, count))
  {
    ImageGrows(input, size, skip, written);
    ImagePrefix(input, size, skip, written + 1, Written(input, size, skip, count));
  }

  lemma CopyEnds(input: seq<Byte>, size: nat, skip: nat, count: nat, sector: nat, written: nat)
    requires size > 0 && sector <= Sectors(input, size)
    requires written == (if sector <= skip then 0 else sector - skip) && written <= count
    requires written == count || sector == Sectors(input, size)
    ensures written == Written(input, size, skip, count)
  {
  }
}
