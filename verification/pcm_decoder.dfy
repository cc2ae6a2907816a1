/** The PCM decoder object: header parsing, the choice of rate, and sub-sampling in place in the
    audio buffer. */
module PcmDecoder {
  import opened Basics
  import opened PcmStream
  import opened WavHeader

  // struct ap_buffer_s: samp[curbyte..nbytes] is what is to be played.
  class ApBuffer {
    const samp: array<Byte>
    var curbyte: nat
    var nbytes: nat

    ghost predicate Valid()
      reads this
    {
      curbyte <= nbytes <= samp.Length
    }

    ghost function Payload(): seq<Byte>
      requires Valid()
      reads this, samp
    {
      samp[curbyte..nbytes]
    }

    constructor (size: nat)
      ensures Valid() && samp.Length == size && fresh(samp) && Payload() == []
    {
      samp := new Byte[size](_ => 0);
      curbyte, nbytes := 0, 0;
    }
  }

  // ----- In-place copying -----

  // Copy n bytes down from src to dest, lowest first.
  method CopyDown(a: array<Byte>, dest: nat, src: nat, n: nat)
    requires dest <= src && src + n <= a.Length
    modifies a
    ensures a[dest..dest + n] == old(a[src..src + n])
    ensures forall i | 0 <= i < a.Length && !(dest <= i < dest + n) :: a[i] == old(a[i])
  {
    ghost var b := a[..];
    for i := 0 to n
      invariant forall k | dest <= k < dest + i :: a[k] == b[k - dest + src]
      invariant forall k | 0 <= k < a.Length && !(dest <= k < dest + i) :: a[k] == b[k]
    {
      a[dest + i] := a[src + i];
    }
  }

  // Copy one sample down behind the ones already there; the bytes not yet read stay.
  method MoveSample(a: array<Byte>, dest: nat, src: nat, n: nat, ghost all: seq<Byte>)
    requires dest <= src && src + n <= a.Length == |all| && a[src..] == all[src..]
    modifies a
    ensures a[..dest + n] == old(a[..dest]) + all[src..src + n]
    ensures a[src + n..] == all[src + n..]
  {
    ghost var b := a[..];
    assert b[src..src + n] == b[src..][..n] == all[src..][..n] == all[src..src + n];
    assert b[src + n..] == b[src..][n..] == all[src..][n..] == all[src + n..];
    CopyDown(a, dest, src, n);
    assert a[..dest + n] == a[..dest] + a[dest..dest + n];
    assert a[..dest] == b[..dest];
    assert a[src + n..] == b[src + n..];
  }

  // ----- Does the loop of pcm_subsample end? -----

  // What is to be skipped, and what is left of the buffer.
  datatype Scan = Scan(skip: nat, left: nat)

  // One pass of the loop.
  function AfterPass(align: nat, skipsize: nat, c: Scan): Scan {
    if c.left == 0 then c
    else if c.skip > 0 then Scan(c.skip - Min(c.skip, c.left), c.left - Min(c.skip, c.left))
    else if c.left < align then Scan(c.skip, 0)
    else Scan(skipsize % 256, c.left - align)
  }

  function Passes(align: nat, skipsize: nat, c: Scan, k: nat): Scan
    decreases k
  {
    if k == 0 then c else Passes(align, skipsize, AfterPass(align, skipsize, c), k - 1)
  }

  ghost predicate LoopEnds(align: nat, skipsize: nat, c: Scan) {
    exists k: nat :: Passes(align, skipsize, c, k).left == 0
  }

  lemma {:induction false} PassesEnd(align: nat, skipsize: nat, c: Scan) returns (k: nat)
    requires align > 0
    ensures Passes(align, skipsize, c, k).left == 0
    decreases c.left
  {
    k := 0;
    if c.left > 0 {
      k := PassesEnd(align, skipsize, AfterPass(align, skipsize, c));
      k := k + 1;
    }
  }

  // With samples of no bytes, nothing more happens once the skipping is over.
  lemma {:induction false} PassesStuck(c: Scan, k: nat)
    requires c.left > c.skip
    ensures Passes(0, 0, c, k).left > Passes(0, 0, c, k).skip
    decreases k
  {
    if k > 0 {
      PassesStuck(AfterPass(0, 0, c), k - 1);
    }
  }

  /** The loop of pcm_subsample ends if and only if samples have a size, or the buffer holds no more
      than is to be skipped. */
  lemma {:induction false} LoopEndsIff(r: Rate, c: Scan)
    requires r.subsample > 0
    ensures LoopEnds(r.align, r.align * (r.subsample - 1), c) <==> r.align > 0 || c.left <= c.skip
  {
    var skipsize := r.align * (r.subsample - 1);
    if r.align > 0 {
      var k := PassesEnd(r.align, skipsize, c);
    } else if c.left <= c.skip {
      assert Passes(0, skipsize, AfterPass(0, skipsize, c), 0).left == 0;
      assert Passes(0, skipsize, c, 1).left == 0;
    } else {
      forall k: nat ensures Passes(r.align, skipsize, c, k).left != 0 {
        PassesStuck(c, k);
      }
    }
  }

  class Decoder {
    var align: nat        // uint8_t
    var bpsamp: nat       // uint8_t
    var nchannels: nat    // uint8_t
    var streaming: bool
    var subsample: nat    // uint8_t, 0 for AUDIO_SUBSAMPLE_NONE
    var skip: nat         // uint8_t
    var npartial: nat     // uint8_t

    constructor ()
      ensures align == 0 && !streaming && subsample == 0 && skip == 0 && npartial == 0
    {
      bpsamp, nchannels := 0, 0;
      align, streaming, subsample, skip, npartial := 0, false, 0, 0, 0;
    }

    function State(): Phase
      reads this
    {
      Phase(npartial, skip)
    }

    function CurrentRate(): Rate
      reads this
    {
      Rate(align, subsample)
    }

    // At normal speed there is no phase.
    predicate Valid()
      reads this
    {
      && align < 256 && subsample < 256 && npartial < 256 && skip < 256
      && (subsample == 0 ==> State() == Phase(0, 0))
    }

    // While sub-sampling, the phase fits the sample size.  Samples of no bytes would never end, and
    // neither would the rest of a sample that is smaller than its beginning.
    predicate CanRun()
      reads this
    {
      Valid() && (subsample != 0 ==> 0 < align && ValidPhase(align, State()))
    }

    // pcm_subsample_configure: switching fast forward on or off starts on a sample boundary,
    // changing its rate keeps the phase.
    method Configure(rate: nat)
      requires rate < 256 && Valid()
      modifies this`npartial, this`skip, this`subsample
      ensures Valid() && subsample == rate
      ensures State() == Configured(old(State()), old(subsample), rate)
    {
      if subsample == 0 {
        if rate != 0 {
          npartial := 0;
          skip := 0;
          subsample := rate;
        }
      } else if rate == 0 {
        npartial := 0;
        skip := 0;
        subsample := 0;
      } else if subsample != rate {
        subsample := rate;
      }
    }

    // The part of pcm_subsample that completes a sample begun in the last buffer.  The result is
    // the read offset, the write offset and the space left.
    method CompletePartial(apb: ApBuffer, skipsize: nat) returns (src: nat, dest: nat, destsize: nat)
      requires CanRun() && subsample != 0 && apb.Valid() && skipsize == SkipSize(CurrentRate())
      requires npartial > 0 && npartial + (apb.nbytes - apb.curbyte) >= align
      modifies this`npartial, this`skip, apb.samp
      ensures CanRun() && npartial == 0
      ensures apb.curbyte < src <= apb.nbytes && dest == src - apb.curbyte && dest + destsize == apb.samp.Length
      ensures Decimate(CurrentRate(), old(State()), old(apb.samp[apb.curbyte..src])) == Run(apb.samp[..dest], State())
      ensures apb.samp[src..] == old(apb.samp[src..])
    {
      hide Decimate, SkipSize;
      var copysize := align - npartial;
      src, dest, destsize := apb.curbyte, 0, apb.samp.Length;
      ghost var all := apb.samp[..];
      ghost var s := all[src..src + copysize];
      DecimateKeep(CurrentRate(), npartial, s);
      if apb.curbyte > 0 {
        MoveSample(apb.samp, 0, src, copysize, all);
        assert apb.samp[..copysize] == s;
      } else {
        assert apb.samp[..copysize] == s;
        assert apb.samp[src + copysize..] == all[src + copysize..];
      }
      src, dest := src + copysize, dest + copysize;
      npartial := 0;
      destsize := destsize - copysize;
      skip := skipsize % 256;
    }

    // One pass of the loop of pcm_subsample, with the read offset at src and the write offset at
    // dest: skip n bytes, or copy n bytes of a sample.
    method Pass(samp: array<Byte>, src: nat, dest: nat, nbytes: nat, skipsize: nat, ghost all: seq<Byte>)
      returns (n: nat, copied: bool)
      requires CanRun() && subsample != 0 && skipsize == SkipSize(CurrentRate()) && npartial == 0
      requires dest <= src < nbytes <= samp.Length == |all| && samp[src..] == all[src..]
      modifies this`npartial, this`skip, samp
      ensures CanRun() && 0 < n && src + n <= nbytes && (npartial > 0 ==> src + n == nbytes)
      ensures Scan(skip, nbytes - src - n) == AfterPass(align, skipsize, Scan(old(skip), nbytes - src))
      ensures samp[src + n..] == all[src + n..]
      ensures samp[..if copied then dest + n else dest] ==
              old(samp[..dest]) + (if copied then all[src..src + n] else [])
      ensures Decimate(CurrentRate(), old(State()), all[src..src + n]) ==
              Run(if copied then all[src..src + n] else [], State())
    {
      hide Decimate, SkipSize;
      var srcsize := nbytes - src;
      if skip > 0 {
        n, copied := if skip < srcsize then skip else srcsize, false;
        DecimateSkip(CurrentRate(), skip, all[src..src + n]);
        skip := skip - n;
        assert samp[src + n..] == samp[src..][n..];
        assert all[src + n..] == all[src..][n..];
      } else {
        n, copied := if srcsize < align then srcsize else align, true;
        DecimateKeep(CurrentRate(), 0, all[src..src + n]);
        if srcsize < align {
          npartial := srcsize;
        } else {
          skip := skipsize % 256;
        }
        MoveSample(samp, dest, src, n, all);
      }
    }

    // The loop of pcm_subsample.  The write offset stays at or below the read offset, so no byte is
    // overwritten before it is read, and the space left is counted down from the whole buffer.
    method Compact(samp: array<Byte>, src0: nat, dest0: nat, destsize0: nat, nbytes: nat, skipsize: nat,
                   ghost all: seq<Byte>, ghost cur: nat, ghost ph: Phase) returns (dest: nat, destsize: nat)
      requires CanRun() && subsample != 0 && skipsize == SkipSize(CurrentRate()) && ValidPhase(align, ph)
      requires cur <= src0 <= nbytes <= samp.Length == |all| && dest0 <= src0 && samp[src0..] == all[src0..]
      requires npartial == 0 && dest0 + destsize0 == samp.Length
      requires Decimate(CurrentRate(), ph, all[cur..src0]) == Run(samp[..dest0], State())
      modifies this`npartial, this`skip, samp
      ensures CanRun() && dest <= nbytes && dest + destsize == samp.Length
      ensures Decimate(CurrentRate(), ph, all[cur..nbytes]) == Run(samp[..dest], State())
    {
      hide Decimate, SkipSize;
      ghost var r := CurrentRate();
      var src := src0;
      dest, destsize := dest0, destsize0;
      while src < nbytes
        invariant CanRun() && cur <= src <= nbytes
        invariant dest <= src && dest + destsize == samp.Length
        invariant npartial > 0 ==> src == nbytes
        invariant samp[src..] == all[src..]
        invariant Decimate(r, ph, all[cur..src]) == Run(samp[..dest], State())
        decreases nbytes - src
      {
        var n, copied := Pass(samp, src, dest, nbytes, skipsize, all);
        Extend(r, ph, all, cur, src, src + n);
        src := src + n;
        if copied {
          dest, destsize := dest + n, destsize - n;
        }
      }
    }

    /** pcm_subsample: the buffer is compacted in place.  What is left to play is the decimation of
        what there was, and the phase is carried on.  A byte is never overwritten before it is
        read. */
    method Subsample(apb: ApBuffer)
      requires CanRun() && apb.Valid()
      modifies this`npartial, this`skip, apb, apb.samp
      ensures CanRun() && apb.Valid()
      ensures subsample == 0 ==> State() == old(State()) && apb.Payload() == old(apb.Payload())
      ensures subsample != 0 ==> ValidRate(CurrentRate()) && ValidPhase(align, old(State()))
      ensures subsample != 0 ==>
                Decimate(CurrentRate(), old(State()), old(apb.Payload())) == Run(apb.Payload(), State())
    {
      hide Decimate, SkipSize;
      if subsample == 0 {
        return;
      }
      ghost var r, ph, all := CurrentRate(), State(), apb.samp[..];
      ghost var cur := apb.curbyte;
      var src: nat, dest: nat, destsize: nat := apb.curbyte, 0, apb.samp.Length;
      var skipsize := SkipSize(CurrentRate());
      DecimateNone(r, ph, all[cur..cur]);
      if npartial > 0 {
        if npartial + (apb.nbytes - apb.curbyte) < align {
          DecimateKeep(r, npartial, apb.Payload());
          npartial := npartial + (apb.nbytes - apb.curbyte);
          return;
        }
        src, dest, destsize := CompletePartial(apb, skipsize);
      }
      dest, destsize := Compact(apb.samp, src, dest, destsize, apb.nbytes, skipsize, all, cur, ph);
      apb.curbyte := 0;
      apb.nbytes := apb.samp.Length - destsize;
    }

    /** pcm_enqueuebuffer.  `final` is the flag AUDIO_APB_FINAL; `configured` and `queued` are what
        the lower driver answers.  `passed` says that the buffer was given to the lower driver. */
    method Enqueue(apb: ApBuffer, final: bool, configured: int, queued: int) returns (ret: int, passed: bool)
      requires Valid() && apb.Valid() && (streaming ==> CanRun())
      // The header of a file that is played gives a usable sample size, and the phase fits it.
      requires !streaming && |apb.Payload()| >= HeaderSize && ValidWav(apb.Payload()) && configured >= 0 &&
               subsample != 0 ==>
                 0 < WavAlign(apb.Payload()) && ValidPhase(WavAlign(apb.Payload()), State())
      modifies this, apb, apb.samp
      ensures Valid() && apb.Valid() && subsample == old(subsample) && (old(streaming) || passed ==> CanRun())
      ensures old(streaming) ==>
                && ret == queued && passed && streaming == !final && align == old(align)
                && Played(old(align), subsample, old(State()), old(apb.Payload()), apb.Payload(), State())
      ensures !old(streaming) ==>
                var h := old(apb.Payload());
                if |h| < HeaderSize || !ValidWav(h) then
                  && ret == -EINVAL && !passed && !streaming && State() == old(State()) && apb.Payload() == h
                  && align == old(align)
                else if configured < 0 then
                  && ret == configured && !passed && !streaming && State() == old(State()) && apb.Payload() == h
                  && align == WavAlign(h)
                else
                  && passed && align == WavAlign(h)
                  && ret == (if queued == OK then OK else -EINVAL)
                  && streaming == (queued == OK && !final)
                  && Played(align, subsample, old(State()), h[HeaderSize..], apb.Payload(), State())
    {
      hide Decimate;
      if streaming {
        if final {
          streaming := false;
        }
        Subsample(apb);
        return queued, true;
      }
      if apb.nbytes - apb.curbyte >= HeaderSize {
        var valid := ParseWav(apb);
        AcceptsSupportedIff(apb.Payload());
        if valid != 0 {
          if configured < 0 {
            return configured, false;
          }
          ghost var h := apb.Payload();
          apb.curbyte := apb.curbyte + HeaderSize;
          assert apb.Payload() == h[HeaderSize..];
          Subsample(apb);
          if queued == OK {
            streaming := !final;
            return OK, true;
          }
          return -EINVAL, true;
        }
      }
      return -EINVAL, false;
    }

    /** A whole file: a rate is chosen before each buffer, 0 for normal speed, and the buffer enqueued,
        the last one as the final one.  `configured` and `queued` are what the lower driver answers.
        The file is accepted if its header is valid and the lower driver takes it; `outs` is what is
        passed on and `data` what came in, without the header.  At one rate, the bytes in the first
        sample of each period are passed on, and the decoder is left ready for the next file if and
        only if the file is a whole number of periods; at normal speed, everything is passed on.
        Whatever the rates, with samples of 1, 2 or 4 bytes every byte keeps its place within its
        sample if and only if no return to normal speed cuts a skip short within a sample. */
    method PlayFile(bufs: seq<ApBuffer>, rates: seq<nat>, configured: int, queued: nat -> int)
      returns (accepted: bool, outs: seq<seq<Byte>>, ghost data: seq<seq<Byte>>)
      requires Valid() && !streaming && State() == Phase(0, 0)
      requires |bufs| == |rates| > 0 && (forall i | 0 <= i < |rates| :: rates[i] < 256)
      requires forall i | 0 <= i < |bufs| :: bufs[i].Valid()
      requires forall i, j | 0 <= i < j < |bufs| :: bufs[i] != bufs[j] && bufs[i].samp != bufs[j].samp
      requires |bufs[0].Payload()| >= HeaderSize && ValidWav(bufs[0].Payload()) ==> 0 < WavAlign(bufs[0].Payload())
      modifies this, bufs, set b | b in bufs :: b.samp
      ensures var h := old(bufs[0].Payload());
              && (accepted <==> |h| >= HeaderSize && ValidWav(h) && configured >= 0 && queued(0) == OK)
              && (accepted ==> 0 < align == WavAlign(h) < 256 && |data| == |bufs| && data[0] == h[HeaderSize..])
              && (accepted ==> HasSampleSize(h, align))
      ensures accepted ==> forall i | 0 < i < |bufs| :: data[i] == old(bufs[i].Payload())
      ensures accepted ==> !streaming && |outs| == |bufs|
      ensures accepted ==> PlaysAtOneRate(align, rates, data, outs, State()) && KeepsPlaces(align, rates, data, outs)
    {
      hide Played, RunSoFar, ValidWav, WavAlign, HasSampleSize, PlaysAtOneRate, KeepsPlaces;
      ghost var phases := [Phase(0, 0)];
      outs, data := [], [];
      accepted := PlayFirst(bufs[0], rates[0], |bufs| == 1, configured, queued(0));
      if !accepted {
        return;
      }
      ghost var a, payload := align, old(bufs[0].Payload())[HeaderSize..];
      RunBegins(a, rates);
      RunGoesOn(a, rates, 0, data, outs, phases, payload, bufs[0].Payload(), State());
      data, phases := data + [payload], phases + [State()];
      outs := outs + [bufs[0].samp[bufs[0].curbyte..bufs[0].nbytes]];
      for k := 1 to |bufs|
        invariant CanRun() && 0 < align == a && subsample == rates[k - 1] && streaming == (k < |bufs|)
        invariant forall i | k <= i < |bufs| :: bufs[i].Valid() && bufs[i].Payload() == old(bufs[i].Payload())
        invariant |data| == |outs| == |phases| - 1 == k && phases[k] == State()
        invariant RunSoFar(a, rates, k, data, outs, phases)
        invariant data[0] == payload && forall i | 0 < i < k :: data[i] == old(bufs[i].Payload())
      {
        ghost var buf := bufs[k].Payload();
        PlayNext(bufs[k], rates[k], k == |bufs| - 1, queued(k));
        RunGoesOn(a, rates, k, data, outs, phases, buf, bufs[k].Payload(), State());
        data, phases := data + [buf], phases + [State()];
        outs := outs + [bufs[k].samp[bufs[k].curbyte..bufs[k].nbytes]];
      }
      RunResults(a, rates, data, outs, phases);
    }

    // The first buffer, at the rate chosen for it.
    method PlayFirst(apb: ApBuffer, rate: nat, final: bool, configured: int, queued: int) returns (accepted: bool)
      requires Valid() && !streaming && State() == Phase(0, 0) && apb.Valid() && rate < 256
      requires |apb.Payload()| >= HeaderSize && ValidWav(apb.Payload()) ==> 0 < WavAlign(apb.Payload())
      modifies this, apb, apb.samp
      ensures var h := old(apb.Payload());
              accepted <==> |h| >= HeaderSize && ValidWav(h) && configured >= 0 && queued == OK
      ensures apb.Valid() && (accepted ==> CanRun() && subsample == rate && streaming == !final)
      ensures accepted ==>
                && 0 < align == WavAlign(old(apb.Payload())) < 256 && HasSampleSize(old(apb.Payload()), align)
                && Played(align, rate, Phase(0, 0), old(apb.Payload())[HeaderSize..], apb.Payload(), State())
    {
      if |apb.Payload()| >= HeaderSize && ValidWav(apb.Payload()) {
        FormatIsFound(apb.Payload());
      }
      hide Played, ValidWav, HasSampleSize;
      Configure(rate);
      var ret, passed := Enqueue(apb, final, configured, queued);
      accepted := passed && ret == OK;
    }

    // A later buffer, at the rate chosen for it.
    method PlayNext(apb: ApBuffer, rate: nat, final: bool, queued: int)
      requires CanRun() && 0 < align && streaming && apb.Valid() && rate < 256
      modifies this, apb, apb.samp
      ensures CanRun() && subsample == rate && align == old(align) && streaming == !final && apb.Valid()
      ensures Played(align, rate, Configured(old(State()), old(subsample), rate), old(apb.Payload()), apb.Payload(),
                     State())
    {
      hide Played, ValidWav;
      Configure(rate);
      var ret, passed := Enqueue(apb, final, 0, queued);
    }

    // pcm_parsewav
    method ParseWav(apb: ApBuffer) returns (result: int)
      requires apb.Valid() && apb.nbytes - apb.curbyte >= HeaderSize
      requires Valid()
      modifies this`align, this`bpsamp, this`nchannels
      ensures Valid() && result == ParseResult(apb.Payload())
      ensures (align, bpsamp, nchannels) ==
              if ValidWav(apb.Payload()) then
                (WavAlign(apb.Payload()), WavBits(apb.Payload()), WavChannels(apb.Payload()))
              else (old(align), old(bpsamp), old(nchannels))
      ensures forall f | HasFormat(apb.Payload(), f) ::
                result != 0 && nchannels == f.channels && bpsamp == f.bits && align == f.align
      ensures (result != 0 <==> exists f :: HasFormat(apb.Payload(), f))
    {
      ghost var was := apb.Payload();
      ValidIffWritten(was);
      AcceptsSupportedIff(was);
      forall f | HasFormat(was, f)
        ensures ValidWav(was) && WavChannels(was) == f.channels && WavBits(was) == f.bits && WavAlign(was) == f.align
      {
        FormatIsRead(was, f);
      }
      hide ValidWav, WavAlign, WavBits, WavChannels, HasFormat;
      var h := apb.samp[apb.curbyte..apb.nbytes];
      result := if ValidWav(h) then 1 else 0;
      if result != 0 {
        align, bpsamp, nchannels := WavAlign(h), WavBits(h), WavChannels(h);
        if bpsamp != 8 && bpsamp != 16 {
          return AsBool(-EINVAL);
        }
        if nchannels != 1 && nchannels != 2 {
          return AsBool(-EINVAL);
        }
      }
      result := AsBool(result);
    }
  }

  // What a buffer holding `input` becomes: `output` is left to play and `after` is the phase.
  ghost predicate Played(align: nat, subsample: nat, before: Phase, input: seq<Byte>, output: seq<Byte>, after: Phase) {
    if subsample == 0 then
      output == input && after == before
    else
      && ValidRate(Rate(align, subsample)) && ValidPhase(align, before)
      && Decimate<Byte>(Rate(align, subsample), before, input) == Run(output, after)
  }

  lemma {:induction false} DecimateNone(r: Rate, ph: Phase, s: seq<Byte>)
    requires ValidRate(r) && ValidPhase(r.align, ph) && s == []
    ensures Decimate(r, ph, s) == Run([], ph)
  {
  }

  // Decimating one more stretch.
  lemma {:induction false} Extend(r: Rate, ph: Phase, all: seq<Byte>, cur: nat, mid: nat, end: nat)
    requires ValidRate(r) && ValidPhase(r.align, ph) && cur <= mid <= end <= |all|
    ensures var d := Decimate(r, ph, all[cur..mid]);
            var e := Decimate(r, d.phase, all[mid..end]);
            Decimate(r, ph, all[cur..end]) == Run(d.out + e.out, e.phase)
  {
    assert all[cur..end] == all[cur..mid] + all[mid..end];
    DecimateAppend(r, ph, all[cur..mid], all[mid..end]);
  }

  // Rate i was in force when buffer i came.
  function Segments(rates: seq<nat>, bufs: seq<seq<Byte>>): seq<Segment>
    requires |rates| == |bufs|
  {
    seq(|rates|, i requires 0 <= i < |rates| => Segment(rates[i], |bufs[i]|))
  }

  // The rate in force before buffer i, when `rate` was before the first.
  function RateBefore(rate: nat, segs: seq<Segment>, i: nat): nat
    requires i <= |segs|
  {
    if i == 0 then rate else segs[i - 1].subsample
  }

  // A run of buffers: buffer i is bufs[i], it came at rate segs[i].subsample and became outs[i].
  ghost predicate PlayedAll(align: nat, rate: nat, segs: seq<Segment>, bufs: seq<seq<Byte>>, outs: seq<seq<Byte>>,
                            phases: seq<Phase>)
    requires |segs| == |bufs| == |outs| == |phases| - 1
  {
    forall i | 0 <= i < |bufs| :: PlayedAt(align, rate, segs, bufs, outs, phases, i)
  }

  ghost predicate PlayedAt(align: nat, rate: nat, segs: seq<Segment>, bufs: seq<seq<Byte>>, outs: seq<seq<Byte>>,
                           phases: seq<Phase>, i: nat)
    requires |segs| == |bufs| == |outs| == |phases| - 1 && i < |bufs|
  {
    var next := segs[i].subsample;
    && segs[i].len == |bufs[i]|
    && Played(align, next, Configured(phases[i], RateBefore(rate, segs, i), next), bufs[i], outs[i], phases[i + 1])
  }

  lemma PlayedRest(align: nat, rate: nat, segs: seq<Segment>, bufs: seq<seq<Byte>>, outs: seq<seq<Byte>>,
                   phases: seq<Phase>)
    requires |segs| == |bufs| == |outs| == |phases| - 1
    requires PlayedAll(align, rate, segs, bufs, outs, phases) && bufs != []
    ensures segs[0].len == |bufs[0]|
    ensures Played(align, segs[0].subsample, Configured(phases[0], rate, segs[0].subsample), bufs[0], outs[0],
                   phases[1])
    ensures PlayedAll(align, segs[0].subsample, segs[1..], bufs[1..], outs[1..], phases[1..])
  {
    hide Played;
    assert PlayedAt(align, rate, segs, bufs, outs, phases, 0);
    forall i | 0 <= i < |bufs[1..]|
      ensures PlayedAt(align, segs[0].subsample, segs[1..], bufs[1..], outs[1..], phases[1..], i)
    {
      assert PlayedAt(align, rate, segs, bufs, outs, phases, i + 1);
    }
  }

  // The first k buffers of a run at the rates in `rates`.
  ghost predicate RunSoFar(align: nat, rates: seq<nat>, k: nat, data: seq<seq<Byte>>, outs: seq<seq<Byte>>,
                           phases: seq<Phase>)
  {
    && k == |data| == |outs| == |phases| - 1 <= |rates| && phases[0] == Phase(0, 0)
    && PlayedAll(align, 0, Segments(rates[..k], data), data, outs, phases)
  }

  lemma RunBegins(align: nat, rates: seq<nat>)
    ensures RunSoFar(align, rates, 0, [], [], [Phase(0, 0)])
  {
  }

  lemma RunGoesOn(align: nat, rates: seq<nat>, k: nat, data: seq<seq<Byte>>, outs: seq<seq<Byte>>, phases: seq<Phase>,
                  buf: seq<Byte>, out: seq<Byte>, after: Phase)
    requires k < |rates| && |phases| == k + 1 && RunSoFar(align, rates, k, data, outs, phases)
    requires var before := if k == 0 then 0 else rates[k - 1];
             Played(align, rates[k], Configured(phases[k], before, rates[k]), buf, out, after)
    ensures RunSoFar(align, rates, k + 1, data + [buf], outs + [out], phases + [after])
  {
    hide Played, Configured;
    var data', outs', phases' := data + [buf], outs + [out], phases + [after];
    var segs, segs' := Segments(rates[..k], data), Segments(rates[..k + 1], data');
    assert forall i | 0 <= i < k :: segs'[i] == segs[i];
    forall i | 0 <= i <= k ensures PlayedAt(align, 0, segs', data', outs', phases', i) {
      if i < k {
        assert PlayedAt(align, 0, segs, data, outs, phases, i);
      }
    }
  }

  // If there is one rate: at normal speed everything is put out; otherwise the bytes in the first
  // sample of each period are, and no phase is left if and only if the data is whole periods.
  ghost predicate PlaysAtOneRate(align: nat, rates: seq<nat>, data: seq<seq<Byte>>, outs: seq<seq<Byte>>, after: Phase)
    requires 0 < align < 256 && |rates| > 0 && forall i | 0 <= i < |rates| :: rates[i] < 256
  {
    (forall i | 0 <= i < |rates| :: rates[i] == rates[0]) ==>
      if rates[0] == 0 then outs == data
      else
        var r := Rate(align, rates[0]);
        && Concat(outs) == Select(Concat(data), Period(r), align, 0)
        && (after == Phase(0, 0) <==> |Concat(data)| % Period(r) == 0)
  }

  /** A file in a standard format, with samples of 8 or 16 bits and one or two channels, played at one
      rate whose skips fit in 8 bits: of every `rate` samples of channels * bits / 8 bytes each, the
      first is passed on and nothing else. */
  lemma StandardFormatKeeps(f: Format, rates: seq<nat>, data: seq<seq<Byte>>, outs: seq<seq<Byte>>, after: Phase)
    requires f.bits in {8, 16} && f.channels in {1, 2} && f.align == f.channels * f.bits / 8
    requires |rates| > 0 && forall i | 0 <= i < |rates| :: rates[i] == rates[0] < 256
    requires 0 < rates[0] && f.align * (rates[0] - 1) <= 255
    requires f.align > 0 && PlaysAtOneRate(f.align, rates, data, outs, after)
    ensures f.align * rates[0] > 0
    ensures Concat(outs) == Select(Concat(data), f.align * rates[0], f.channels * f.bits / 8, 0)
  {
    var r := Rate(f.align, rates[0]);
    assert r.align * r.subsample == r.align + SkipSize(r) == Period(r);
  }

  // Whatever the rates, the output is the input at the positions Play gives; with samples of 1, 2 or 4
  // bytes every byte keeps its place within its sample if and only if what was cut short is whole.
  ghost predicate KeepsPlaces(align: nat, rates: seq<nat>, data: seq<seq<Byte>>, outs: seq<seq<Byte>>)
    requires 0 < align < 256 && |rates| == |data| && forall i | 0 <= i < |rates| :: rates[i] < 256
  {
    var segs := Segments(rates, data);
    var ps := Play(align, 0, Phase(0, 0), segs, 0);
    && At(Concat(outs), Concat(data), ps, 0)
    && (align in {1, 2, 4} ==> (Whole(ps, align, 0) <==> CutsAreWhole(align, 0, Phase(0, 0), segs, 0)))
  }

  // Both results about a run, at the rates in `rates`.
  lemma {:induction false} RunResults(align: nat, rates: seq<nat>, bufs: seq<seq<Byte>>, outs: seq<seq<Byte>>,
                                      phases: seq<Phase>)
    requires 0 < align < 256 && 0 < |rates| == |bufs| == |phases| - 1 && forall i | 0 <= i < |rates| :: rates[i] < 256
    requires RunSoFar(align, rates, |rates|, bufs, outs, phases)
    ensures PlaysAtOneRate(align, rates, bufs, outs, phases[|bufs|]) && KeepsPlaces(align, rates, bufs, outs)
  {
    hide PlayedAll, At, Whole, Concat, Select, Play, CutsAreWhole;
    assert rates[..|rates|] == rates;
    var segs := Segments(rates, bufs);
    if forall i | 0 <= i < |rates| :: rates[i] == rates[0] {
      if rates[0] == 0 {
        PlayedAsIs(align, segs, bufs, outs, phases);
      } else {
        RunPlaysKeptBytes(Rate(align, rates[0]), segs, bufs, outs, phases);
      }
    }
    RunTearsIff(align, segs, bufs, outs, phases);
  }

  /** Over any run of buffers and changes of rate: what reaches the lower driver is bytes of the stream
      and, with samples of 1, 2 or 4 bytes, byte k of it stood at place k of its sample, modulo the
      sample size, if and only if no return to normal speed cut a skip short within a sample. */
  lemma {:induction false} RunTearsIff(align: nat, segs: seq<Segment>, bufs: seq<seq<Byte>>, outs: seq<seq<Byte>>,
                                       phases: seq<Phase>)
    requires 0 < align < 256 && |segs| == |bufs| == |outs| == |phases| - 1 && ValidSegments(segs)
    requires PlayedAll(align, 0, segs, bufs, outs, phases) && phases[0] == Phase(0, 0)
    ensures var ps := Play(align, 0, Phase(0, 0), segs, 0);
            && At(Concat(outs), Concat(bufs), ps, 0)
            && (align in {1, 2, 4} ==> (Whole(ps, align, 0) <==> CutsAreWhole(align, 0, Phase(0, 0), segs, 0)))
  {
    hide PlayedAll, At, Whole, Play, CutsAreWhole;
    PlayedPositions(align, 0, segs, bufs, outs, phases, 0);
    if align in {1, 2, 4} {
      RateChangesTearIff(align, segs);
    }
  }

  // At normal speed everything is passed on.
  lemma PlayedAsIs(align: nat, segs: seq<Segment>, bufs: seq<seq<Byte>>, outs: seq<seq<Byte>>, phases: seq<Phase>)
    requires |segs| == |bufs| == |outs| == |phases| - 1
    requires PlayedAll(align, 0, segs, bufs, outs, phases) && forall i | 0 <= i < |segs| :: segs[i].subsample == 0
    ensures outs == bufs
  {
    forall i | 0 <= i < |bufs| ensures outs[i] == bufs[i] {
      assert PlayedAt(align, 0, segs, bufs, outs, phases, i);
    }
  }

  /** A run at one rate, in whatever buffers the data came: what reaches the lower driver is the bytes
      in the first sample of each period. */
  lemma {:induction false} RunPlaysKeptBytes(r: Rate, segs: seq<Segment>, bufs: seq<seq<Byte>>, outs: seq<seq<Byte>>,
                                             phases: seq<Phase>)
    requires ValidRate(r) && |segs| == |bufs| == |outs| == |phases| - 1
    requires PlayedAll(r.align, 0, segs, bufs, outs, phases) && phases[0] == Phase(0, 0)
    requires forall i | 0 <= i < |segs| :: segs[i].subsample == r.subsample
    ensures Concat(outs) == Select(Concat(bufs), Period(r), r.align, 0)
    ensures phases[|bufs|] == Phase(0, 0) <==> |Concat(bufs)| % Period(r) == 0
  {
    PlayedInTurn(r, 0, segs, bufs, outs, phases);
    FixedRateKeeps(r, bufs);
    LeavesNoPhaseIff(r, bufs);
  }

  lemma {:induction false} PlayedInTurn(r: Rate, rate: nat, segs: seq<Segment>, bufs: seq<seq<Byte>>,
                                        outs: seq<seq<Byte>>, phases: seq<Phase>)
    requires ValidRate(r) && |segs| == |bufs| == |outs| == |phases| - 1
    requires PlayedAll(r.align, rate, segs, bufs, outs, phases) && ValidPhase(r.align, phases[0])
    requires rate == 0 ==> phases[0] == Phase(0, 0)
    requires forall i | 0 <= i < |segs| :: segs[i].subsample == r.subsample
    ensures DecimateAll(r, phases[0], bufs) == Run(Concat(outs), phases[|bufs|])
    decreases |bufs|
  {
    hide PlayedAll;
    if bufs != [] {
      PlayedRest(r.align, rate, segs, bufs, outs, phases);
      PlayedInTurn(r, r.subsample, segs[1..], bufs[1..], outs[1..], phases[1..]);
    }
  }

  // The output is the input at the positions ps, counted from p.
  ghost predicate At(output: seq<Byte>, input: seq<Byte>, ps: seq<nat>, p: nat) {
    |output| == |ps| && forall k | 0 <= k < |ps| :: p <= ps[k] < p + |input| && output[k] == input[ps[k] - p]
  }

  lemma AtAppend(out1: seq<Byte>, in1: seq<Byte>, ps1: seq<nat>, p: nat,
                 out2: seq<Byte>, in2: seq<Byte>, ps2: seq<nat>)
    requires At(out1, in1, ps1, p) && At(out2, in2, ps2, p + |in1|)
    ensures At(out1 + out2, in1 + in2, ps1 + ps2, p)
  {
    var ps := ps1 + ps2;
    forall k | 0 <= k < |ps|
      ensures p <= ps[k] < p + |in1 + in2| && (out1 + out2)[k] == (in1 + in2)[ps[k] - p]
    {
      if k >= |ps1| {
        assert ps[k] == ps2[k - |ps1|];
      }
    }
  }

  lemma {:induction false} PlayedPositions(align: nat, rate: nat, segs: seq<Segment>, bufs: seq<seq<Byte>>,
                                           outs: seq<seq<Byte>>, phases: seq<Phase>, p: nat)
    requires |segs| == |bufs| == |outs| == |phases| - 1
    requires 0 < align < 256 && ValidSegments(segs) && PlayedAll(align, rate, segs, bufs, outs, phases)
    requires PhaseFits(align, rate, phases[0])
    ensures At(Concat(outs), Concat(bufs), Play(align, rate, phases[0], segs, p), p)
    decreases |bufs|
  {
    hide PlayedAll, At;
    if bufs == [] {
      AtNothing(Concat(bufs), p);
    } else {
      PlayedRest(align, rate, segs, bufs, outs, phases);
      var next := segs[0].subsample;
      var ph := Configured(phases[0], rate, next);
      StretchAt(align, next, ph, bufs[0], p);
      var d := Stretch<nat>(align, next, ph, Positions(p, |bufs[0]|));
      assert Stretch<Byte>(align, next, ph, bufs[0]) == Run(outs[0], phases[1]);
      PlayedPositions(align, next, segs[1..], bufs[1..], outs[1..], phases[1..], p + |bufs[0]|);
      AtAppend(outs[0], bufs[0], d.out, p,
               Concat(outs[1..]), Concat(bufs[1..]), Play(align, next, phases[1], segs[1..], p + |bufs[0]|));
    }
  }

  lemma AtNothing(input: seq<Byte>, p: nat)
    ensures At([], input, [], p)
  {
  }

  lemma {:induction false} StretchAt(align: nat, rate: nat, ph: Phase, s: seq<Byte>, p: nat)
    requires 0 < align < 256 && rate < 256 && PhaseFits(align, rate, ph)
    ensures var d, e := Stretch<Byte>(align, rate, ph, s), Stretch<nat>(align, rate, ph, Positions(p, |s|));
            d.phase == e.phase && At(d.out, s, e.out, p)
  {
    if rate != 0 {
      DecimateByPosition<Byte>(Rate(align, rate), ph, s, p);
    }
  }
}
