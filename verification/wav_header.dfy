/** The header of a WAV file as the PCM decoder reads it. */
module WavHeader {
  import opened Basics

  const HeaderSize := 44

  function Le16(b: seq<Byte>, i: nat): nat
    requires i + 2 <= |b|
  {
    var lo: int, hi: int := b[i], b[i + 1];
    lo + 0x100 * hi
  }

  function Le32(b: seq<Byte>, i: nat): nat
    requires i + 4 <= |b|
  {
    Le16(b, i) + 0x1_0000 * Le16(b, i + 2)
  }

  // pcm_validwav
  predicate ValidWav(h: seq<Byte>)
    requires |h| >= HeaderSize
  {
    && Le32(h, 0) == 0x4646_4952 && Le32(h, 8) == 0x4556_4157
    && Le32(h, 12) == 0x2074_6d66 && Le32(h, 16) == 16 && Le16(h, 20) == 1
    && Le16(h, 22) < 256 && Le16(h, 32) < 256 && Le16(h, 34) < 256
    && Le32(h, 36) == 0x6174_6164
  }

  // The block alignment field.
  function WavAlign(h: seq<Byte>): nat
    requires |h| >= HeaderSize
  {
    Le16(h, 32)
  }

  // The number of channels and the bits per sample.
  function WavChannels(h: seq<Byte>): nat
    requires |h| >= HeaderSize
  {
    Le16(h, 22)
  }

  function WavBits(h: seq<Byte>): nat
    requires |h| >= HeaderSize
  {
    Le16(h, 34)
  }

  const OK := 0
  const EINVAL := 22

  // What a C function of type bool gives for `return x`.
  function AsBool(x: int): int {
    if x == 0 then 0 else 1
  }

  // The sample formats that can be sub-sampled.
  predicate SupportedFormat(h: seq<Byte>)
    requires |h| >= HeaderSize
  {
    WavBits(h) in {8, 16} && WavChannels(h) in {1, 2}
  }

  // The result of pcm_parsewav as its caller sees it: each return statement goes through the
  // result type bool.
  function ParseResult(h: seq<Byte>): int
    requires |h| >= HeaderSize
  {
    if !ValidWav(h) then AsBool(0)
    else if WavBits(h) != 8 && WavBits(h) != 16 then AsBool(-EINVAL)
    else if WavChannels(h) != 1 && WavChannels(h) != 2 then AsBool(-EINVAL)
    else AsBool(1)
  }

  /** pcm_parsewav is meant to accept the valid WAV headers with a supported format.  It does so on
      exactly those headers that are not valid WAV headers or have a supported format: every other
      format is accepted as well. */
  lemma AcceptsSupportedIff(h: seq<Byte>)
    requires |h| >= HeaderSize
    ensures ParseResult(h) != 0 <==> ValidWav(h)
    ensures (ParseResult(h) != 0 <==> ValidWav(h) && SupportedFormat(h)) <==> !ValidWav(h) || SupportedFormat(h)
  {
  }

  // ----- Headers byte by byte -----

  // The three numbers of a format that the decoder takes from a header, each in one byte.
  datatype Format = Format(channels: Byte, bits: Byte, align: Byte)

  // The data h begins with a header of this format: the marks RIFF, WAVE, fmt and data, a format
  // chunk of 16 bytes in encoding 1, and the three numbers, low byte first.  The sizes and rates
  // may be anything.
  predicate HasFormat(h: seq<Byte>, f: Format)
    requires |h| >= 44
  {
    && h[0..4] == [0x52, 0x49, 0x46, 0x46] && h[8..12] == [0x57, 0x41, 0x56, 0x45]
    && h[12..16] == [0x66, 0x6d, 0x74, 0x20] && h[16..20] == [16, 0, 0, 0] && h[20..22] == [1, 0]
    && h[22..24] == [f.channels, 0] && h[32..34] == [f.align, 0] && h[34..36] == [f.bits, 0]
    && h[36..40] == [0x64, 0x61, 0x74, 0x61]
  }

  // The header written field by field: `size` and `length` are the bytes of the two lengths, `rates`
  // those of the sample and byte rates.
  function Write(f: Format, size: seq<Byte>, rates: seq<Byte>, length: seq<Byte>): (h: seq<Byte>)
    requires |size| == 4 && |rates| == 8 && |length| == 4
    ensures |h| == 44
  {
    ([0x52, 0x49, 0x46, 0x46] + size + [0x57, 0x41, 0x56, 0x45])
    + ([0x66, 0x6d, 0x74, 0x20] + [16, 0, 0, 0] + [1, 0] + [f.channels, 0] + rates + [f.align, 0] + [f.bits, 0])
    + ([0x64, 0x61, 0x74, 0x61] + length)
  }

  lemma WrittenHasFormat(f: Format, size: seq<Byte>, rates: seq<Byte>, length: seq<Byte>, data: seq<Byte>)
    requires |size| == 4 && |rates| == 8 && |length| == 4
    ensures HasFormat(Write(f, size, rates, length) + data, f)
  {
  }

  // Two and four bytes as a number, low byte first, are one number only.
  lemma Half(h: seq<Byte>, i: nat, b0: Byte, b1: Byte)
    requires i + 2 <= |h|
    ensures Le16(h, i) == b0 + 0x100 * b1 <==> h[i..i + 2] == [b0, b1]
  {
    assert h[i..i + 2] == [h[i], h[i + 1]];
  }

  lemma OneWay(lo: nat, hi: nat, lo': nat, hi': nat)
    requires lo < 0x1_0000 && lo' < 0x1_0000
    ensures lo + 0x1_0000 * hi == lo' + 0x1_0000 * hi' <==> lo == lo' && hi == hi'
  {
  }

  lemma Word(h: seq<Byte>, i: nat, b0: Byte, b1: Byte, b2: Byte, b3: Byte)
    requires i + 4 <= |h|
    ensures Le32(h, i) == b0 + 0x100 * b1 + 0x1_0000 * (b2 + 0x100 * b3) <==> h[i..i + 4] == [b0, b1, b2, b3]
  {
    Half(h, i, b0, b1);
    Half(h, i + 2, b2, b3);
    OneWay(Le16(h, i), Le16(h, i + 2), b0 + 0x100 * b1, b2 + 0x100 * b3);
    hide Le16;
    assert h[i..i + 4] == h[i..i + 2] + h[i + 2..i + 4];
    assert [b0, b1, b2, b3] == [b0, b1] + [b2, b3];
  }

  // A field below 256 is its low byte.
  lemma Small(h: seq<Byte>, i: nat)
    requires i + 2 <= |h|
    ensures Le16(h, i) < 256 <==> h[i..i + 2] == [h[i], 0]
    ensures Le16(h, i) < 256 ==> Le16(h, i) == h[i]
  {
    assert h[i..i + 2] == [h[i], h[i + 1]];
  }

  /** The valid headers are exactly those written in some format. */
  lemma ValidIffWritten(h: seq<Byte>)
    requires |h| >= 44
    ensures ValidWav(h) <==> exists f :: HasFormat(h, f)
    ensures ValidWav(h) ==> HasFormat(h, Format(h[22], h[34], h[32]))
  {
    hide Le16, Le32;
    Word(h, 0, 0x52, 0x49, 0x46, 0x46);
    Word(h, 8, 0x57, 0x41, 0x56, 0x45);
    Word(h, 12, 0x66, 0x6d, 0x74, 0x20);
    Word(h, 16, 16, 0, 0, 0);
    Half(h, 20, 1, 0);
    Small(h, 22);
    Small(h, 32);
    Small(h, 34);
    Word(h, 36, 0x64, 0x61, 0x74, 0x61);
    if ValidWav(h) {
      assert HasFormat(h, Format(h[22], h[34], h[32]));
    }
    forall f | HasFormat(h, f) ensures ValidWav(h) {
      assert h[22..24] == [f.channels, 0] && h[32..34] == [f.align, 0] && h[34..36] == [f.bits, 0];
      assert h[22] == f.channels && h[32] == f.align && h[34] == f.bits;
    }
  }

  /** A header written in a format is valid, and what is read from it is that format. */
  lemma FormatIsRead(h: seq<Byte>, f: Format)
    requires |h| >= 44 && HasFormat(h, f)
    ensures ValidWav(h) && WavChannels(h) == f.channels && WavBits(h) == f.bits && WavAlign(h) == f.align
  {
    hide ValidWav;
    ValidIffWritten(h);
    Half(h, 22, f.channels, 0);
    Half(h, 32, f.align, 0);
    Half(h, 34, f.bits, 0);
  }

  // A header in some format with samples of this size.
  ghost predicate HasSampleSize(h: seq<Byte>, align: nat) {
    |h| >= 44 && exists f :: HasFormat(h, f) && f.align == align
  }

  lemma FormatIsFound(h: seq<Byte>)
    requires |h| >= 44 && ValidWav(h)
    ensures HasSampleSize(h, WavAlign(h))
  {
    hide ValidWav;
    ValidIffWritten(h);
    FormatIsRead(h, Format(h[22], h[34], h[32]));
  }

  /** A header with samples of 24 bits, which the code means to reject, is accepted. */
  lemma AcceptsMono24(h: seq<Byte>)
    requires |h| >= 44 && HasFormat(h, Format(1, 24, 3))
    ensures ParseResult(h) != 0 && !SupportedFormat(h)
  {
    hide ValidWav, Le16;
    FormatIsRead(h, Format(1, 24, 3));
  }
}
