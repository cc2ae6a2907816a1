/** Fast forward: what the PCM decoder keeps of an audio stream, byte by byte, however the stream is
    cut into buffers. */
module PcmStream {
  import opened Basics

  // The sample size in bytes and the sub-sampling rate: one sample of every `subsample` is kept.
  datatype Rate = Rate(align: nat, subsample: nat)

  // AUDIO_SUBSAMPLE_NONE is 0; both fields are 8 bits wide.
  predicate ValidRate(r: Rate) {
    0 < r.align < 256 && 0 < r.subsample < 256
  }

  // The bytes to skip between samples, and what is left of that number in an 8-bit field.
  function SkipSize(r: Rate): (n: nat)
    requires ValidRate(r)
  {
    r.align * (r.subsample - 1)
  }

  function SkipByte(r: Rate): (n: nat)
    requires ValidRate(r)
  {
    SkipSize(r) % 256
  }

  // What is carried from one buffer to the next.
  datatype Phase = Phase(npartial: nat, skip: nat)

  predicate ValidPhase(align: nat, ph: Phase) {
    ph.npartial < align && ph.skip < 256 && (ph.npartial > 0 ==> ph.skip == 0)
  }

  // The phase after one byte; a byte is kept if nothing is to be skipped.
  function Next(r: Rate, ph: Phase): (ph': Phase)
    requires ValidRate(r) && ValidPhase(r.align, ph)
    ensures ValidPhase(r.align, ph')
  {
    if ph.skip > 0 then Phase(0, ph.skip - 1)
    else if ph.npartial + 1 == r.align then Phase(0, SkipByte(r))
    else Phase(ph.npartial + 1, 0)
  }

  datatype Run<T> = Run(out: seq<T>, phase: Phase)

  /** Decimation of a stretch of the stream. */
  function Decimate<T>(r: Rate, ph: Phase, s: seq<T>): (d: Run<T>)
    requires ValidRate(r) && ValidPhase(r.align, ph)
    ensures ValidPhase(r.align, d.phase) && |d.out| <= |s|
    decreases |s|
  {
    if s == [] then Run([], ph)
    else
      var d := Decimate(r, Next(r, ph), s[1..]);
      Run((if ph.skip > 0 then [] else [s[0]]) + d.out, d.phase)
  }

  lemma {:induction false} DecimateAppend<T>(r: Rate, ph: Phase, a: seq<T>, b: seq<T>)
    requires ValidRate(r) && ValidPhase(r.align, ph)
    ensures var d := Decimate(r, ph, a);
            var e := Decimate(r, d.phase, b);
            Decimate(r, ph, a + b) == Run(d.out + e.out, e.phase)
    decreases |a|
  {
    if a == [] {
      assert a + b == b;
    } else {
      assert (a + b)[1..] == a[1..] + b;
      DecimateAppend(r, Next(r, ph), a[1..], b);
    }
  }

  // A stretch that is skipped, and a stretch within one sample that is kept.
  lemma {:induction false} DecimateSkip<T>(r: Rate, k: nat, s: seq<T>)
    requires ValidRate(r) && |s| <= k < 256
    ensures Decimate(r, Phase(0, k), s) == Run([], Phase(0, k - |s|))
    decreases |s|
  {
    if s != [] {
      DecimateSkip(r, k - 1, s[1..]);
    }
  }

  lemma {:induction false} DecimateKeep<T>(r: Rate, k: nat, s: seq<T>)
    requires ValidRate(r) && k < r.align && k + |s| <= r.align
    ensures Decimate(r, Phase(k, 0), s) ==
            Run(s, if k + |s| == r.align then Phase(0, SkipByte(r)) else Phase(k + |s|, 0))
    decreases |s|
  {
    if s != [] {
      assert s == [s[0]] + s[1..];
      if k + 1 == r.align {
        assert s[1..] == [];
      } else {
        DecimateKeep(r, k + 1, s[1..]);
      }
    }
  }

  // ----- Buffers -----

  function Concat<T>(bufs: seq<seq<T>>): seq<T> {
    if bufs == [] then [] else bufs[0] + Concat(bufs[1..])
  }

  // The outputs for a stream that comes in several buffers.
  function DecimateAll<T>(r: Rate, ph: Phase, bufs: seq<seq<T>>): (d: Run<T>)
    requires ValidRate(r) && ValidPhase(r.align, ph)
    ensures ValidPhase(r.align, d.phase)
    decreases |bufs|
  {
    if bufs == [] then Run([], ph)
    else
      var d := Decimate(r, ph, bufs[0]);
      var e := DecimateAll(r, d.phase, bufs[1..]);
      Run(d.out + e.out, e.phase)
  }

  /** Where the stream is cut does not matter. */
  lemma {:induction false} CuttingIsInvisible<T>(r: Rate, ph: Phase, bufs: seq<seq<T>>)
    requires ValidRate(r) && ValidPhase(r.align, ph)
    ensures DecimateAll(r, ph, bufs) == Decimate(r, ph, Concat(bufs))
    decreases |bufs|
  {
    if bufs != [] {
      CuttingIsInvisible(r, Decimate(r, ph, bufs[0]).phase, bufs[1..]);
      DecimateAppend(r, ph, bufs[0], Concat(bufs[1..]));
    }
  }

  // ----- Which bytes are kept -----

  // The bytes of s whose position, counted from p, falls in the first `align` of each period.
  function Select(s: seq<Byte>, period: nat, align: nat, p: nat): seq<Byte>
    requires period > 0
    decreases |s|
  {
    if s == [] then []
    else (if p % period < align then [s[0]] else []) + Select(s[1..], period, align, p + 1)
  }

  // The number of bytes from one kept sample to the next.
  function Period(r: Rate): (n: nat)
    requires ValidRate(r)
    ensures n >= r.align
  {
    r.align + SkipByte(r)
  }

  // The phase at position p of the stream.
  function PhaseAt(r: Rate, p: nat): (ph: Phase)
    requires ValidRate(r)
    ensures ValidPhase(r.align, ph)
  {
    var m := p % Period(r);
    if m < r.align then Phase(m, 0) else Phase(0, Period(r) - m)
  }

  lemma ModNext(p: nat, n: nat)
    requires n > 0
    ensures (p + 1) % n == if p % n + 1 == n then 0 else p % n + 1
  {
    var q, m := p / n, p % n;
    assert p == q * n + m;
    if m + 1 == n {
      assert p + 1 == (q + 1) * n;
      ModOf(q + 1, 0, n);
    } else {
      ModOf(q, m + 1, n);
    }
  }

  lemma ModOf(q: nat, m: nat, n: nat)
    requires m < n
    ensures (q * n + m) % n == m
  {
    var x := q * n + m;
    var k := q - x / n;
    assert k * n == q * n - x / n * n == x % n - m;
    if k >= 1 {
      MulAtLeast(k, n);
    } else if k <= -1 {
      MulAtLeast(-k, n);
    }
  }

  lemma MulAtLeast(k: nat, n: nat)
    requires k >= 1
    ensures k * n >= n
  {
    assert k * n == (k - 1) * n + n;
  }

  lemma PhaseNext(r: Rate, p: nat)
    requires ValidRate(r)
    ensures Next(r, PhaseAt(r, p)) == PhaseAt(r, p + 1)
  {
    ModNext(p, Period(r));
  }

  lemma {:induction false} DecimateSelects(r: Rate, s: seq<Byte>, p: nat)
    requires ValidRate(r)
    ensures Decimate(r, PhaseAt(r, p), s).out == Select(s, Period(r), r.align, p)
    decreases |s|
  {
    if s != [] {
      PhaseNext(r, p);
      DecimateSelects(r, s[1..], p + 1);
    }
  }

  lemma {:induction false} DecimateMoves(r: Rate, s: seq<Byte>, p: nat)
    requires ValidRate(r)
    ensures Decimate(r, PhaseAt(r, p), s).phase == PhaseAt(r, p + |s|)
    decreases |s|
  {
    if s != [] {
      PhaseNext(r, p);
      DecimateMoves(r, s[1..], p + 1);
    }
  }

  /** At a fixed rate, started on a sample boundary, the outputs for any cutting of the stream are
      the bytes whose position falls in the first sample of each period. */
  lemma {:induction false} FixedRateKeeps(r: Rate, bufs: seq<seq<Byte>>)
    requires ValidRate(r)
    ensures DecimateAll(r, Phase(0, 0), bufs).out == Select(Concat(bufs), Period(r), r.align, 0)
  {
    CuttingIsInvisible(r, Phase(0, 0), bufs);
    DecimateSelects(r, Concat(bufs), 0);
    ModOf(0, 0, Period(r));
  }

  /** A stream played at one rate leaves the decoder on a sample boundary, with nothing to skip, if
      and only if its length is a whole number of periods. */
  lemma {:induction false} LeavesNoPhaseIff(r: Rate, bufs: seq<seq<Byte>>)
    requires ValidRate(r)
    ensures DecimateAll(r, Phase(0, 0), bufs).phase == Phase(0, 0) <==> |Concat(bufs)| % Period(r) == 0
  {
    CuttingIsInvisible(r, Phase(0, 0), bufs);
    DecimateMoves(r, Concat(bufs), 0);
  }

  lemma {:induction false} SelectAppend(a: seq<Byte>, b: seq<Byte>, period: nat, align: nat, p: nat)
    requires period > 0
    ensures Select(a + b, period, align, p) == Select(a, period, align, p) + Select(b, period, align, p + |a|)
    decreases |a|
  {
    if a == [] {
      assert a + b == b;
    } else {
      assert (a + b)[1..] == a[1..] + b;
      SelectAppend(a[1..], b, period, align, p + 1);
    }
  }

  // Within the first period the first `align` bytes are kept.
  lemma {:induction false} SelectFirstPeriod(s: seq<Byte>, period: nat, align: nat, p: nat)
    requires p + |s| <= period && period > 0
    ensures |Select(s, period, align, p)| == if p >= align then 0 else if |s| <= align - p then |s| else align - p
    decreases |s|
  {
    if s != [] {
      ModOf(0, p, period);
      SelectFirstPeriod(s[1..], period, align, p + 1);
    }
  }

  // The decoder keeps one sample of every `subsample`, for every stream.
  ghost predicate KeepsRate(r: Rate)
    requires ValidRate(r) && r.align * r.subsample > 0
  {
    forall s: seq<Byte> :: Decimate(r, Phase(0, 0), s).out == Select(s, r.align * r.subsample, r.align, 0)
  }

  /** The decoder keeps to its rate on all streams if and only if the bytes between two samples can
      be counted in 8 bits. */
  lemma KeepsRateIff(r: Rate)
    requires ValidRate(r)
    ensures r.align * r.subsample > 0
    ensures KeepsRate(r) <==> SkipSize(r) <= 255
  {
    assert r.align * r.subsample == r.align + SkipSize(r);
    ModOf(0, 0, Period(r));
    if SkipSize(r) <= 255 {
      forall s: seq<Byte> ensures Decimate(r, Phase(0, 0), s).out == Select(s, r.align * r.subsample, r.align, 0) {
        DecimateSelects(r, s, 0);
      }
    } else {
      WrapDiffers(r);
    }
  }

  // A skip count that does not fit in 8 bits brings the next sample too early.
  lemma WrapDiffers(r: Rate)
    requires ValidRate(r) && SkipSize(r) > 255 && r.align * r.subsample == r.align + SkipSize(r)
    ensures !KeepsRate(r)
  {
    var n, full := Period(r), r.align * r.subsample;
    var s: seq<Byte> := seq(n + 1, _ => 0);
    DecimateSelects(r, s, 0);
    ModOf(0, 0, n);
    SelectFirstPeriod(s, full, r.align, 0);
    assert s == s[..n] + s[n..];
    SelectAppend(s[..n], s[n..], n, r.align, 0);
    SelectFirstPeriod(s[..n], n, r.align, 0);
    ModOf(1, 0, n);
    assert Select(s[n..], n, r.align, n) == [0];
    assert |Decimate(r, Phase(0, 0), s).out| != |Select(s, full, r.align, 0)|;
  }

  // ----- Samples stay whole -----

  // Decimation looks only at where a byte stands, so a stream may be followed by its positions.
  lemma {:induction false} DecimateByPosition<T>(r: Rate, ph: Phase, s: seq<T>, p: nat)
    requires ValidRate(r) && ValidPhase(r.align, ph)
    ensures var d, e := Decimate<T>(r, ph, s), Decimate<nat>(r, ph, Positions(p, |s|));
            && d.phase == e.phase && |d.out| == |e.out|
            && forall k | 0 <= k < |d.out| :: p <= e.out[k] < p + |s| && d.out[k] == s[e.out[k] - p]
    decreases |s|
  {
    if s != [] {
      assert Positions(p, |s|)[1..] == Positions(p + 1, |s| - 1);
      DecimateByPosition(r, Next(r, ph), s[1..], p + 1);
    }
  }

  function Positions(p: nat, n: nat): (s: seq<nat>)
    ensures |s| == n
  {
    seq(n, i => p + i)
  }

  // Each byte put out is at the same place within its sample as it was when it came in; the first
  // one goes to place j of the output.
  ghost predicate Whole(out: seq<nat>, align: nat, j: nat)
    requires align > 0
  {
    forall k | 0 <= k < |out| :: out[k] % align == (j + k) % align
  }

  // Input position p and output position j are in step, once what is to be skipped is skipped and the
  // `cut` bytes that should have been skipped, and were not, are counted.
  predicate InStep(align: nat, ph: Phase, cut: nat, p: nat, j: nat)
    requires align > 0
  {
    (p + ph.skip + cut) % align == j % align
  }

  lemma ModSum(a: nat, b: nat, n: nat)
    requires n > 0 && b % n == 0
    ensures (a + b) % n == a % n
  {
    var q := a / n + b / n;
    assert q * n == a / n * n + b / n * n;
    assert a + b == q * n + a % n;
    ModOf(q, a % n, n);
  }

  // ... and only then.
  lemma ModDiff(a: nat, b: nat, n: nat)
    requires n > 0 && (a + b) % n == a % n
    ensures b % n == 0
  {
    var q := (a + b) / n - a / n;
    assert a == a / n * n + a % n && a + b == (a + b) / n * n + (a + b) % n;
    assert q * n == (a + b) / n * n - a / n * n;
    assert b == q * n;
    ModOf(q, 0, n);
  }

  lemma NextInStep(r: Rate, ph: Phase, cut: nat, p: nat, j: nat)
    requires ValidRate(r) && ValidPhase(r.align, ph) && SkipByte(r) % r.align == 0
    requires InStep(r.align, ph, cut, p, j)
    ensures InStep(r.align, Next(r, ph), cut, p + 1, if ph.skip > 0 then j else j + 1)
    ensures ph.skip == 0 ==> (p % r.align == j % r.align <==> cut % r.align == 0)
  {
    if ph.skip == 0 {
      ModNext(p + cut, r.align);
      ModNext(j, r.align);
      ModSum(p + 1 + cut, SkipByte(r), r.align);
      if cut % r.align == 0 {
        ModSum(p, cut, r.align);
      } else if p % r.align == j % r.align {
        ModDiff(p, cut, r.align);
      }
    }
  }

  lemma WholeCons(p: nat, out: seq<nat>, align: nat, j: nat)
    requires align > 0
    ensures Whole([p] + out, align, j) <==> p % align == j % align && Whole(out, align, j + 1)
  {
    var all := [p] + out;
    if p % align == j % align && Whole(out, align, j + 1) {
      forall k | 0 <= k < |all| ensures all[k] % align == (j + k) % align {
        if k > 0 {
          assert out[k - 1] % align == (j + 1 + (k - 1)) % align;
        }
      }
    }
    if Whole(all, align, j) {
      assert all[0] % align == (j + 0) % align;
      forall k | 0 <= k < |out| ensures out[k] % align == (j + 1 + k) % align {
        assert all[k + 1] % align == (j + (k + 1)) % align;
      }
    }
  }

  // What a stretch puts out is whole if and only if it is nothing or whole samples were cut.
  lemma {:induction false} StretchWholeIff(r: Rate, ph: Phase, cut: nat, p: nat, n: nat, j: nat)
    requires ValidRate(r) && ValidPhase(r.align, ph) && SkipByte(r) % r.align == 0
    requires InStep(r.align, ph, cut, p, j)
    ensures var d := Decimate<nat>(r, ph, Positions(p, n));
            && InStep(r.align, d.phase, cut, p + n, j + |d.out|)
            && (Whole(d.out, r.align, j) <==> d.out == [] || cut % r.align == 0)
    decreases n
  {
    hide InStep, Next, Whole, Decimate;
    DecimateNext(r, ph, Positions(p, n));
    WholeNothing(r.align, j);
    if n > 0 {
      var s := Positions(p, n);
      var ph' := Next(r, ph);
      assert s[1..] == Positions(p + 1, n - 1);
      NextInStep(r, ph, cut, p, j);
      if ph.skip > 0 {
        StretchWholeIff(r, ph', cut, p + 1, n - 1, j);
      } else {
        StretchWholeIff(r, ph', cut, p + 1, n - 1, j + 1);
        var out := Decimate(r, ph', s[1..]).out;
        WholeCons(p, out, r.align, j);
        WholeNothing(r.align, j + 1);
      }
    }
  }

  lemma {:induction false} DecimateNext<T>(r: Rate, ph: Phase, s: seq<T>)
    requires ValidRate(r) && ValidPhase(r.align, ph)
    ensures s == [] ==> Decimate(r, ph, s) == Run([], ph)
    ensures s != [] ==>
              var d := Decimate(r, Next(r, ph), s[1..]);
              Decimate(r, ph, s) == Run(if ph.skip > 0 then d.out else [s[0]] + d.out, d.phase)
  {
    hide Next;
    if s != [] && ph.skip > 0 {
      var d := Decimate(r, Next(r, ph), s[1..]);
      assert [] + d.out == d.out;
    }
  }

  lemma WholeNothing(align: nat, j: nat)
    requires align > 0
    ensures Whole([], align, j)
  {
  }

  // Normal speed is the rate at which nothing is skipped.
  lemma {:induction false} NormalSpeed<T>(align: nat, k: nat, s: seq<T>)
    requires 0 < align < 256 && k < align
    ensures var d := Decimate(Rate(align, 1), Phase(k, 0), s); d.out == s && d.phase.skip == 0
    decreases |s|
  {
    if s != [] {
      var ph := Next(Rate(align, 1), Phase(k, 0));
      assert SkipByte(Rate(align, 1)) == 0;
      NormalSpeed(align, ph.npartial, s[1..]);
      assert s == [s[0]] + s[1..];
    }
  }

  // ----- Changes of rate -----

  // A run of buffers, each given by its length and the rate in force when it came; rate 0 is normal
  // speed.
  datatype Segment = Segment(subsample: nat, len: nat)

  predicate ValidSegments(segs: seq<Segment>) {
    forall i | 0 <= i < |segs| :: segs[i].subsample < 256
  }

  // pcm_subsample_configure: the phase is forgotten when fast forward begins or ends.
  function Configured(ph: Phase, rate: nat, next: nat): Phase {
    if (rate == 0) == (next == 0) then ph else Phase(0, 0)
  }

  predicate PhaseFits(align: nat, rate: nat, ph: Phase) {
    rate != 0 ==> ValidPhase(align, ph)
  }

  // One buffer of the run, at the rate in force: what is put out, and the phase left.
  function Stretch<T>(align: nat, rate: nat, ph: Phase, s: seq<T>): (d: Run<T>)
    requires 0 < align < 256 && rate < 256 && PhaseFits(align, rate, ph)
    ensures PhaseFits(align, rate, d.phase)
  {
    if rate == 0 then Run(s, ph) else Decimate(Rate(align, rate), ph, s)
  }

  // The positions kept over the whole run, which begins at position p; `rate` was in force before.
  function Play(align: nat, rate: nat, ph: Phase, segs: seq<Segment>, p: nat): seq<nat>
    requires 0 < align < 256 && PhaseFits(align, rate, ph) && ValidSegments(segs)
    decreases |segs|
  {
    if segs == [] then []
    else
      var next := segs[0].subsample;
      var d := Stretch<nat>(align, next, Configured(ph, rate, next), Positions(p, segs[0].len));
      d.out + Play(align, next, d.phase, segs[1..], p + segs[0].len)
  }

  // The bytes still to be skipped when normal speed comes back are not skipped.
  function CutShort(ph: Phase, rate: nat, next: nat): nat {
    if rate != 0 && next == 0 then ph.skip else 0
  }

  // Whenever a buffer puts something out, what was cut short before is a whole number of samples.
  predicate CutsAreWhole(align: nat, rate: nat, ph: Phase, segs: seq<Segment>, cut: nat)
    requires 0 < align < 256 && PhaseFits(align, rate, ph) && ValidSegments(segs)
    decreases |segs|
  {
    segs == [] ||
    (var next, cut' := segs[0].subsample, cut + CutShort(ph, rate, segs[0].subsample);
     var ph' := Configured(ph, rate, next);
     && (PutsOut(next, ph', segs[0].len) ==> cut' % align == 0)
     && CutsAreWhole(align, next, Stretch<nat>(align, next, ph', Positions(0, segs[0].len)).phase, segs[1..], cut'))
  }

  // A buffer of n bytes puts something out: there is more in it than is to be skipped.
  predicate PutsOut(rate: nat, ph: Phase, n: nat) {
    if rate == 0 then n > 0 else n > ph.skip
  }

  lemma {:induction false} PutsOutIff(align: nat, rate: nat, ph: Phase, p: nat, n: nat)
    requires 0 < align < 256 && rate < 256 && PhaseFits(align, rate, ph)
    ensures Stretch<nat>(align, rate, ph, Positions(p, n)).out != [] <==> PutsOut(rate, ph, n)
    decreases n
  {
    if n > 0 && rate != 0 {
      var r, s := Rate(align, rate), Positions(p, n);
      assert s[1..] == Positions(p + 1, n - 1);
      if ph.skip > 0 {
        PutsOutIff(align, rate, Next(r, ph), p + 1, n - 1);
      }
    }
  }

  // The phase does not depend on where the stream began.
  lemma {:induction false} PhaseAnywhere(align: nat, rate: nat, ph: Phase, p: nat, n: nat)
    requires 0 < align < 256 && rate < 256 && PhaseFits(align, rate, ph)
    ensures Stretch<nat>(align, rate, ph, Positions(p, n)).phase == Stretch<nat>(align, rate, ph, Positions(0, n)).phase
  {
    if rate != 0 {
      DecimateByPosition<nat>(Rate(align, rate), ph, Positions(0, n), p);
    }
  }

  // One buffer, at whatever rate.
  lemma {:induction false} BufferWholeIff(align: nat, rate: nat, ph: Phase, cut: nat, p: nat, n: nat, j: nat)
    requires 0 < align < 256 && rate < 256 && PhaseFits(align, rate, ph)
    requires rate != 0 ==> SkipByte(Rate(align, rate)) % align == 0
    requires InStep(align, if rate == 0 then Phase(0, 0) else ph, cut, p, j)
    ensures var d := Stretch<nat>(align, rate, ph, Positions(p, n));
            && InStep(align, if rate == 0 then Phase(0, 0) else d.phase, cut, p + n, j + |d.out|)
            && (Whole(d.out, align, j) <==> !PutsOut(rate, ph, n) || cut % align == 0)
  {
    hide Whole, Decimate;
    PutsOutIff(align, rate, ph, p, n);
    if rate == 0 {
      NormalSpeed(align, 0, Positions(p, n));
      assert SkipByte(Rate(align, 1)) == 0;
      StretchWholeIff(Rate(align, 1), Phase(0, 0), cut, p, n, j);
    } else {
      StretchWholeIff(Rate(align, rate), ph, cut, p, n, j);
    }
  }

  lemma WholeAppend(a: seq<nat>, b: seq<nat>, align: nat, j: nat)
    requires align > 0
    ensures Whole(a + b, align, j) <==> Whole(a, align, j) && Whole(b, align, j + |a|)
  {
    var out := a + b;
    if Whole(a, align, j) && Whole(b, align, j + |a|) {
      forall k | 0 <= k < |out| ensures out[k] % align == (j + k) % align {
        if k >= |a| {
          assert b[k - |a|] % align == (j + |a| + (k - |a|)) % align;
        }
      }
    }
    if Whole(out, align, j) {
      forall k | 0 <= k < |a| ensures a[k] % align == (j + k) % align {
        assert out[k] % align == (j + k) % align;
      }
      forall k | 0 <= k < |b| ensures b[k] % align == (j + |a| + k) % align {
        assert out[|a| + k] % align == (j + (|a| + k)) % align;
      }
    }
  }

  // A change of rate keeps step, if what it cuts short is counted.
  lemma ChangeInStep(align: nat, rate: nat, ph: Phase, next: nat, cut: nat, p: nat, j: nat)
    requires 0 < align < 256 && PhaseFits(align, rate, ph)
    requires InStep(align, if rate == 0 then Phase(0, 0) else ph, cut, p, j)
    ensures var ph' := Configured(ph, rate, next);
            && PhaseFits(align, next, ph')
            && InStep(align, if next == 0 then Phase(0, 0) else ph', cut + CutShort(ph, rate, next), p, j)
  {
  }

  lemma {:induction false} PlayWholeIff(align: nat, rate: nat, ph: Phase, segs: seq<Segment>, cut: nat, p: nat, j: nat)
    requires 0 < align < 256 && PhaseFits(align, rate, ph) && ValidSegments(segs)
    requires InStep(align, if rate == 0 then Phase(0, 0) else ph, cut, p, j)
    requires forall i | 0 <= i < |segs| && segs[i].subsample != 0 ::
               SkipByte(Rate(align, segs[i].subsample)) % align == 0
    ensures Whole(Play(align, rate, ph, segs, p), align, j) <==> CutsAreWhole(align, rate, ph, segs, cut)
    decreases |segs|
  {
    hide Whole, Stretch, SkipByte, PutsOut, Configured, CutShort, InStep, PhaseFits;
    if segs == [] {
      WholeNothing(align, j);
    } else {
      var next, n := segs[0].subsample, segs[0].len;
      var ph', cut' := Configured(ph, rate, next), cut + CutShort(ph, rate, next);
      ChangeInStep(align, rate, ph, next, cut, p, j);
      BufferWholeIff(align, next, ph', cut', p, n, j);
      PhaseAnywhere(align, next, ph', p, n);
      var d := Stretch<nat>(align, next, ph', Positions(p, n));
      PlayWholeIff(align, next, d.phase, segs[1..], cut', p + n, j + |d.out|);
      WholeAppend(d.out, Play(align, next, d.phase, segs[1..], p + n), align, j);
    }
  }

  lemma SkipIsWholeSamples(r: Rate)
    requires ValidRate(r) && r.align in {1, 2, 4}
    ensures SkipByte(r) % r.align == 0
  {
    if r.align == 2 {
      SkipPairs(r.subsample - 1);
    } else if r.align == 4 {
      SkipQuads(r.subsample - 1);
    }
  }

  lemma SkipPairs(k: nat)
    ensures 2 * k % 256 % 2 == 0
  {
    assert 2 * k % 256 == 2 * (k % 128);
  }

  lemma SkipQuads(k: nat)
    ensures 4 * k % 256 % 4 == 0
  {
    assert 4 * k % 256 == 4 * (k % 64);
  }

  /** With samples of 1, 2 or 4 bytes, over any run of buffers and changes of rate, normal speed
      included and started on a sample boundary, no sample is torn if and only if whatever was cut
      short by a return to normal speed is whole samples: even when the 8-bit skip count wraps
      around. */
  lemma {:induction false} RateChangesTearIff(align: nat, segs: seq<Segment>)
    requires align in {1, 2, 4} && ValidSegments(segs)
    ensures Whole(Play(align, 0, Phase(0, 0), segs, 0), align, 0) <==> CutsAreWhole(align, 0, Phase(0, 0), segs, 0)
  {
    forall i | 0 <= i < |segs| && segs[i].subsample != 0 ensures SkipByte(Rate(align, segs[i].subsample)) % align == 0 {
      SkipIsWholeSamples(Rate(align, segs[i].subsample));
    }
    PlayWholeIff(align, 0, Phase(0, 0), segs, 0, 0, 0);
  }

  /** Samples of two bytes at rate 2: after three bytes one is still to be skipped, and a return to
      normal speed puts it out in the place of the first byte of a sample. */
  lemma ReturnTearsSample()
    ensures !Whole(Play(2, 0, Phase(0, 0), [Segment(2, 3), Segment(0, 1)], 0), 2, 0)
  {
    hide Whole, Play, Decimate;
    var segs, r, s := [Segment(2, 3), Segment(0, 1)], Rate(2, 2), Positions(0, 3);
    RateChangesTearIff(2, segs);
    DecimateKeep(r, 0, s[..2]);
    DecimateSkip(r, 2, s[2..]);
    DecimateAppend(r, Phase(0, 0), s[..2], s[2..]);
    assert s == s[..2] + s[2..];
    assert Stretch<nat>(2, 2, Phase(0, 0), s).phase == Phase(0, 1);
    assert !CutsAreWhole(2, 2, Phase(0, 1), segs[1..], 0);
  }

  /** As long as fast forward goes on, whatever its rates, nothing is cut short and nothing torn. */
  lemma {:induction false} RateChangesNeverTear(align: nat, segs: seq<Segment>)
    requires align in {1, 2, 4} && ValidSegments(segs)
    requires forall i | 0 <= i < |segs| :: segs[i].subsample != 0
    ensures Whole(Play(align, 0, Phase(0, 0), segs, 0), align, 0)
  {
    RateChangesTearIff(align, segs);
    NothingCut(align, 0, Phase(0, 0), segs);
  }

  lemma {:induction false} NothingCut(align: nat, rate: nat, ph: Phase, segs: seq<Segment>)
    requires 0 < align < 256 && PhaseFits(align, rate, ph) && ValidSegments(segs)
    requires forall i | 0 <= i < |segs| :: segs[i].subsample != 0
    ensures CutsAreWhole(align, rate, ph, segs, 0)
    decreases |segs|
  {
    hide Stretch, PutsOut;
    if segs != [] {
      var next := segs[0].subsample;
      var ph' := Stretch<nat>(align, next, Configured(ph, rate, next), Positions(0, segs[0].len)).phase;
      NothingCut(align, next, ph', segs[1..]);
    }
  }

  /** For a sample size of any kind, a rate never tears a sample if and only if the 8-bit skip count
      is a whole number of samples. */
  lemma {:induction false} NeverTearsIff(r: Rate)
    requires ValidRate(r)
    ensures (forall n: nat :: Whole(Decimate<nat>(r, Phase(0, 0), Positions(0, n)).out, r.align, 0))
       <==> SkipByte(r) % r.align == 0
  {
    if SkipByte(r) % r.align == 0 {
      forall n: nat ensures Whole(Decimate<nat>(r, Phase(0, 0), Positions(0, n)).out, r.align, 0) {
        StretchWholeIff(r, Phase(0, 0), 0, 0, n, 0);
      }
    } else {
      SecondSample(r);
      var out := Decimate<nat>(r, Phase(0, 0), Positions(0, Period(r) + 1)).out;
      ModOf(1, 0, r.align);
      ModSum(SkipByte(r), r.align, r.align);
      assert out[r.align] % r.align != (0 + r.align) % r.align;
    }
  }

  // The first byte of the second sample put out.
  lemma {:induction false} SecondSample(r: Rate)
    requires ValidRate(r)
    ensures var out := Decimate<nat>(r, Phase(0, 0), Positions(0, Period(r) + 1)).out;
            |out| == r.align + 1 && out[r.align] == Period(r)
  {
    var a, k := r.align, SkipByte(r);
    var s0, s1, s2 := Positions(0, a), Positions(a, k), Positions(a + k, 1);
    DecimateKeep(r, 0, s0);
    DecimateSkip(r, k, s1);
    DecimateKeep(r, 0, s2);
    DecimateAppend(r, Phase(0, 0), s0, s1);
    DecimateAppend(r, Phase(0, 0), s0 + s1, s2);
    assert Positions(0, Period(r) + 1) == s0 + s1 + s2;
  }
}
