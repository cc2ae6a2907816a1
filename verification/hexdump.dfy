/** The hexdump command: a window of a file, read in pieces of any size. */
module HexDump {
  import opened Basics

  // One call of nsh_dumpbuffer: the offset it is labelled with, and the bytes.
  datatype Chunk = Chunk(offset: nat, data: seq<Byte>)

  function Joined(chunks: seq<Chunk>): seq<Byte> {
    if chunks == [] then [] else Joined(chunks[..|chunks| - 1]) + chunks[|chunks| - 1].data
  }

  // The part of the file that is asked for.
  function Window(file: seq<Byte>, skip: nat, count: nat): seq<Byte> {
    if |file| <= skip then [] else file[skip..Min(skip + count, |file|)]
  }

  // Every chunk is what stands in the file at the offset of its label.
  ghost predicate Labelled(file: seq<Byte>, chunks: seq<Chunk>) {
    forall k | 0 <= k < |chunks| ::
      chunks[k].offset + |chunks[k].data| <= |file|
      && chunks[k].data == file[chunks[k].offset..chunks[k].offset + |chunks[k].data|]
  }

  // The n bytes at this offset.
  function Piece(file: seq<Byte>, at: nat, n: nat): Chunk
    requires at + n <= |file|
  {
    Chunk(at, file[at..at + n])
  }

  // `dumped` bytes of the window have been dumped, in chunks.
  ghost predicate Progress(file: seq<Byte>, skip: nat, chunks: seq<Chunk>, dumped: nat) {
    Labelled(file, chunks) && Joined(chunks) == Window(file, skip, dumped)
  }

  lemma Slices(file: seq<Byte>, a: nat, b: nat, i: nat, j: nat)
    requires a <= b <= |file| && i <= j <= b - a
    ensures Chunk(a + i, file[a..b][i..j]) == Piece(file, a + i, j - i)
  {
    var x, y := file[a..b][i..j], file[a + i..a + j];
    forall k | 0 <= k < j - i ensures x[k] == y[k] {
      assert x[k] == file[a..b][i + k] == file[a + (i + k)];
    }
  }

  // How many bytes a read gives: at least one, unless the file is at its end.
  function ReadLength(left: nat, bufsize: nat, hint: nat): (n: nat)
    requires bufsize > 0
    ensures n <= left && n <= bufsize && (n == 0 <==> left == 0)
  {
    var most := Min(bufsize, left);
    if most == 0 then 0 else if hint < 1 then 1 else Min(hint, most)
  }

  lemma NoChunks(file: seq<Byte>, skip: nat)
    ensures Progress(file, skip, [], 0)
  {
  }

  lemma {:induction false} JoinedAppend(chunks: seq<Chunk>, c: Chunk)
    ensures Joined(chunks + [c]) == Joined(chunks) + c.data
  {
    assert (chunks + [c])[..|chunks|] == chunks;
  }

  lemma LabelledAppend(file: seq<Byte>, chunks: seq<Chunk>, at: nat, n: nat)
    requires Labelled(file, chunks) && at + n <= |file|
    ensures Labelled(file, chunks + [Piece(file, at, n)])
  {
  }

  lemma WindowGrows(file: seq<Byte>, skip: nat, dumped: nat, n: nat)
    requires skip + dumped + n <= |file|
    ensures Window(file, skip, dumped) + Piece(file, skip + dumped, n).data == Window(file, skip, dumped + n)
  {
  }

  lemma AddPiece(file: seq<Byte>, skip: nat, chunks: seq<Chunk>, dumped: nat, n: nat)
    requires Progress(file, skip, chunks, dumped) && skip + dumped + n <= |file|
    ensures Progress(file, skip, chunks + [Piece(file, skip + dumped, n)], dumped + n)
  {
    hide Joined, Labelled, Window, Piece;
    JoinedAppend(chunks, Piece(file, skip + dumped, n));
    LabelledAppend(file, chunks, skip + dumped, n);
    WindowGrows(file, skip, dumped, n);
  }

  // What has been dumped is a beginning of the window, and all of it at its end or the file's.
  lemma {:induction false} ProgressMeans(file: seq<Byte>, skip: nat, count: nat, chunks: seq<Chunk>, dumped: nat)
    requires Progress(file, skip, chunks, dumped) && dumped <= count
    ensures Labelled(file, chunks) && Joined(chunks) <= Window(file, skip, count)
    ensures dumped == count || skip + dumped >= |file| ==> Joined(chunks) == Window(file, skip, count)
  {
  }

  /** cmd_hexdump.  `readHint(k)` says how read number k is cut, or that it fails if negative.  The
      chunks dumped are pieces of the file, each under its own offset; together they are the
      beginning of the window asked for, and all of it if none of the `made` reads fails. */
  method Dump(file: seq<Byte>, bufsize: nat, readHint: nat -> int, skip: nat, count0: nat)
    returns (chunks: seq<Chunk>, ok: bool, ghost made: nat)
    requires bufsize > 0
    ensures ok <==> forall k | 0 <= k < made :: readHint(k) >= 0
    ensures !ok ==> made > 0 && readHint(made - 1) < 0
    ensures Labelled(file, chunks) && Joined(chunks) <= Window(file, skip, count0)
    ensures ok ==> Joined(chunks) == Window(file, skip, count0)
  {
    hide Progress, Labelled, Joined, Window, ReadLength, Piece;
    var position, count, calls, filepos := 0, count0, 0, 0;
    ghost var dumped := 0;
    chunks, ok, made := [], true, 0;
    NoChunks(file, skip);
    while true
      invariant position == filepos <= |file|
      invariant dumped == (if position <= skip then 0 else position - skip)
      invariant dumped + count == count0 && (dumped > 0 ==> count > 0)
      invariant Progress(file, skip, chunks, dumped)
      invariant ok && made == calls && forall k | 0 <= k < calls :: readHint(k) >= 0
      decreases |file| - filepos
    {
      // read(fd, buffer, IOBUFFERSIZE)
      var hint := readHint(calls);
      calls := calls + 1;
      made := calls;
      if hint < 0 {
        ProgressMeans(file, skip, count0, chunks, dumped);
        return chunks, false, made;
      }
      var nbytesread := ReadLength(|file| - filepos, bufsize, hint);
      var buffer := file[filepos..filepos + nbytesread];
      filepos := filepos + nbytesread;

      if nbytesread == 0 {
        break;
      }
      if position < skip {
        position := position + nbytesread;
        if position > skip {
          var dumpbytes := position - skip;
          if dumpbytes > count {
            dumpbytes := count;
          }
          var from := nbytesread - (position - skip);
          var c := Chunk(skip, buffer[from..from + dumpbytes]);
          Slices(file, position - nbytesread, position, from, from + dumpbytes);
          AddPiece(file, skip, chunks, dumped, dumpbytes);
          chunks, dumped := chunks + [c], dumped + dumpbytes;
          if count > dumpbytes {
            count := count - dumpbytes;
          } else {
            break;
          }
        }
      } else {
        if nbytesread > count {
          nbytesread := count;
        }
        var c := Chunk(position, buffer[..nbytesread]);
        Slices(file, position, filepos, 0, nbytesread);
        AddPiece(file, skip, chunks, dumped, nbytesread);
        chunks, dumped := chunks + [c], dumped + nbytesread;
        position := position + nbytesread;
        if count > nbytesread {
          count := count - nbytesread;
        } else {
          break;
        }
      }
    }
    ProgressMeans(file, skip, count0, chunks, dumped);
  }
}
