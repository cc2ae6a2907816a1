/** The exact condition under which NSH keeps the meaning of a script in every world.  Worlds are
    cut down to lists of answers: answer k is the result of the k-th command that is run. */
module NshPaths {
  import opened Basics
  import opened NshLevels
  import opened NshMachine
  import opened NshParts
  import opened NshQuiet
  import opened NshSimulation
  import opened NshStructured
  import opened NshTheorem

  // ----- Runs as lists of answers -----

  // How a script is run, and where a part of it stands.
  datatype Mode = Mode(ignore: bool, inLoop: bool, deep: bool)

  // A run uses `n` answers.  `broke` says that it ends with a `break`, and `hit` that it passes
  // over a bare loop or runs a `break` inside an `if` of a loop body.
  datatype Path = Path(n: nat, broke: bool, hit: bool)

  function After(a: Path, b: Path): Path {
    Path(a.n + b.n, b.broke, a.hit || b.hit)
  }

  // The run of p by its meaning on the answers l, if they suffice and do not stop it.
  function MeaningPath(p: Prog, l: seq<bool>, m: Mode): (r: Option<Path>)
    ensures r.Some? ==> r.value.n <= |l|
    decreases |l|, p
  {
    match p
    case Empty => Some(Path(0, false, false))
    case Seq(a, b) =>
      (match MeaningPath(a, l, m)
       case None => None
       case Some(r1) =>
         if r1.broke then
           Some(r1.(hit := r1.hit || HasBareLoop(b)))
         else
           match MeaningPath(b, l[r1.n..], m)
           case None => None
           case Some(r2) => Some(After(r1, r2)))
    case Simple(argv) =>
      if argv == [] then Some(Path(0, false, false))
      else if l == [] || (l[0] && !m.ignore) then None
      else Some(Path(1, false, false))
    case BreakCmd => Some(Path(0, m.inLoop, m.inLoop && m.deep))
    case IfElse(inverted, _, thn, els) =>
      if l == [] then None
      else
        (match if l[0] == inverted then MeaningPath(thn, l[1..], m.(deep := true))
               else if els.Some? then MeaningPath(els.value, l[1..], m.(deep := true))
               else Some(Path(0, false, false))
         case None => None
         case Some(r1) => Some(r1.(n := 1 + r1.n)))
    case Loop(until, _, body) =>
      if l == [] then None
      else if l[0] != until then Some(Path(1, false, HasBareLoop(body)))
      else
        match MeaningPath(body, l[1..], m.(inLoop := true, deep := false))
        case None => None
        case Some(r1) =>
          if r1.broke then
            Some(Path(1 + r1.n, false, r1.hit))
          else
            match MeaningPath(p, l[1 + r1.n..], m)
            case None => None
            case Some(r2) => Some(After(r1.(n := 1 + r1.n), r2))
  }

  // n answers more.
  function Plus(n: nat, r: Option<(nat, bool)>): Option<(nat, bool)> {
    match r
    case None => None
    case Some(r1) => Some((n + r1.0, r1.1))
  }

  // The run of p by NSH, as long as no `break` inside an `if` of a loop body is run: the number of
  // answers used, and whether it ends live.
  function EvalPath(p: Prog, l: seq<bool>, live: bool, m: Mode): (r: Option<(nat, bool)>)
    ensures r.Some? ==> r.value.0 <= |l|
    decreases |l|, p
  {
    match p
    case Empty => Some((0, live))
    case Seq(a, b) =>
      (match EvalPath(a, l, live, m)
       case None => None
       case Some(r1) => Plus(r1.0, EvalPath(b, l[r1.0..], r1.1, m)))
    case Simple(argv) =>
      if argv == [] || !live then Some((0, live))
      else if l == [] || (l[0] && !m.ignore) then None
      else Some((1, live))
    case BreakCmd => if live && m.inLoop && m.deep then None else Some((0, live && !m.inLoop))
    case IfElse(inverted, _, thn, els) =>
      if !live then Some((0, live))
      else if l == [] then None
      else
        Plus(1, if l[0] == inverted then EvalPath(thn, l[1..], live, m.(deep := true))
                else if els.Some? then EvalPath(els.value, l[1..], live, m.(deep := true))
                else Some((0, live)))
    case Loop(until, _, body) =>
      if l == [] then None
      else
        match EvalPath(body, l[1..], l[0] == until, m.(inLoop := true, deep := false))
        case None => None
        case Some(r1) =>
          if !r1.1 then Some((1 + r1.0, live)) else Plus(1 + r1.0, EvalPath(p, l[1 + r1.0..], live, m))
  }

  // Both, case by case.
  lemma {:induction false} MeaningPathSeq(p: Prog, l: seq<bool>, m: Mode)
    requires p.Seq?
    ensures var r1 := MeaningPath(p.first, l, m);
            MeaningPath(p, l, m) ==
            if r1.None? then None
            else if r1.value.broke then Some(r1.value.(hit := r1.value.hit || HasBareLoop(p.rest)))
            else
              var r2 := MeaningPath(p.rest, l[r1.value.n..], m);
              if r2.None? then None else Some(After(r1.value, r2.value))
  {
  }

  lemma {:induction false} MeaningPathIf(p: Prog, l: seq<bool>, m: Mode)
    requires p.IfElse? && l != []
    ensures var r1 := if l[0] == p.inverted then MeaningPath(p.thn, l[1..], m.(deep := true))
                      else if p.els.Some? then MeaningPath(p.els.value, l[1..], m.(deep := true))
                      else Some(Path(0, false, false));
            MeaningPath(p, l, m) == if r1.None? then None else Some(r1.value.(n := 1 + r1.value.n))
  {
  }

  lemma {:induction false} MeaningPathLoop(p: Prog, l: seq<bool>, m: Mode)
    requires p.Loop? && l != []
    ensures var r1 := MeaningPath(p.body, l[1..], m.(inLoop := true, deep := false));
            MeaningPath(p, l, m) ==
            if l[0] != p.until then Some(Path(1, false, HasBareLoop(p.body)))
            else if r1.None? then None
            else if r1.value.broke then Some(Path(1 + r1.value.n, false, r1.value.hit))
            else
              var r2 := MeaningPath(p, l[1 + r1.value.n..], m);
              if r2.None? then None else Some(After(r1.value.(n := 1 + r1.value.n), r2.value))
  {
    hide HasBareLoop;
  }

  lemma {:induction false} EvalPathSeq(p: Prog, l: seq<bool>, live: bool, m: Mode)
    requires p.Seq?
    ensures var r1 := EvalPath(p.first, l, live, m);
            EvalPath(p, l, live, m) ==
            if r1.None? then None else Plus(r1.value.0, EvalPath(p.rest, l[r1.value.0..], r1.value.1, m))
  {
  }

  lemma {:induction false} EvalPathIf(p: Prog, l: seq<bool>, m: Mode)
    requires p.IfElse? && l != []
    ensures EvalPath(p, l, true, m) ==
            Plus(1, if l[0] == p.inverted then EvalPath(p.thn, l[1..], true, m.(deep := true))
                    else if p.els.Some? then EvalPath(p.els.value, l[1..], true, m.(deep := true))
                    else Some((0, true)))
  {
  }

  lemma {:induction false} EvalPathLoop(p: Prog, l: seq<bool>, live: bool, m: Mode)
    requires p.Loop? && l != []
    ensures var r1 := EvalPath(p.body, l[1..], l[0] == p.until, m.(inLoop := true, deep := false));
            EvalPath(p, l, live, m) ==
            if r1.None? then None
            else if !r1.value.1 then Some((1 + r1.value.0, live))
            else Plus(1 + r1.value.0, EvalPath(p, l[1 + r1.value.0..], live, m))
  {
    hide Plus;
  }

  // A loop and a live `if` need an answer to begin with.
  lemma {:induction false} NeedsAnswer(p: Prog, l: seq<bool>, live: bool, m: Mode)
    requires p.Loop? || (p.IfElse? && live)
    ensures MeaningPath(p, l, m).Some? || EvalPath(p, l, live, m).Some? ==> l != []
  {
  }

  // ----- The answers as a world -----

  // The world that gives the answers l to the commands run after the first `base` ones.
  function World(l: seq<bool>, base: nat): Oracle {
    (trace: Trace, fail: bool) => base < |trace| <= base + |l| && l[|trace| - base - 1]
  }

  lemma Drop(l: seq<bool>, i: nat, j: nat)
    requires i + j <= |l|
    ensures l[i..][j..] == l[i + j..]
  {
  }

  // The run that has come to `trace` stands within l.
  ghost predicate Within(l: seq<bool>, base: nat, trace: Trace) {
    base <= |trace| <= base + |l|
  }

  // The answer to the next command.
  lemma NextAnswer(l: seq<bool>, base: nat, trace: Trace, cond: Argv, fail: bool)
    requires Within(l, base, trace) && l[|trace| - base..] != []
    ensures Within(l, base, trace + [cond])
    ensures World(l, base)(trace + [cond], fail) == l[|trace| - base..][0]
    ensures l[|trace| - base..][1..] == l[|trace + [cond]| - base..]
  {
  }

  // The meaning runs as the path says.  A run that goes on has not failed, unless errors are ignored
  // or nothing was run.
  ghost predicate Ends(s: Obs, r: Path, ignore: bool, m: Option<Signal>) {
    && m.Some? && !m.value.Stopped? && m.value.Broke? == r.broke
    && |m.value.obs.trace| == |s.trace| + r.n && m.value.obs.said == s.said
    && (!ignore && m.value.obs.err ==> s.err && r.n == 0)
  }

  lemma {:induction false} MeaningFollows(p: Prog, s: Obs, l: seq<bool>, base: nat, m: Mode, fuel: nat)
    requires Within(l, base, s.trace) && fuel >= base + |l| - |s.trace|
    requires MeaningPath(p, l[|s.trace| - base..], m).Some?
    ensures Ends(s, MeaningPath(p, l[|s.trace| - base..], m).value, m.ignore,
                 Meaning(p, s, World(l, base), m.ignore, m.inLoop, fuel))
    decreases fuel, p, 1
  {
    match p {
      case Seq(_, _) =>
        MeaningFollowsSeq(p, s, l, base, m, fuel);
      case IfElse(_, _, _, _) =>
        MeaningFollowsIf(p, s, l, base, m, fuel);
      case Loop(_, _, _) =>
        MeaningFollowsLoop(p, s, l, base, m, fuel);
      case _ =>
    }
  }

  lemma {:induction false} MeaningFollowsSeq(p: Prog, s: Obs, l: seq<bool>, base: nat, m: Mode, fuel: nat)
    requires p.Seq? && Within(l, base, s.trace) && fuel >= base + |l| - |s.trace|
    requires MeaningPath(p, l[|s.trace| - base..], m).Some?
    ensures Ends(s, MeaningPath(p, l[|s.trace| - base..], m).value, m.ignore,
                 Meaning(p, s, World(l, base), m.ignore, m.inLoop, fuel))
    decreases fuel, p, 0
  {
    hide World, Meaning, MeaningPath;
    var k := |s.trace| - base;
    MeaningSeq(p, s, World(l, base), m.ignore, m.inLoop, fuel);
    MeaningPathSeq(p, l[k..], m);
    MeaningFollows(p.first, s, l, base, m, fuel);
    var r1 := MeaningPath(p.first, l[k..], m).value;
    if !r1.broke {
      Drop(l, k, r1.n);
      MeaningFollows(p.rest, Meaning(p.first, s, World(l, base), m.ignore, m.inLoop, fuel).value.obs, l, base, m, fuel);
    }
  }

  lemma {:induction false} MeaningFollowsIf(p: Prog, s: Obs, l: seq<bool>, base: nat, m: Mode, fuel: nat)
    requires p.IfElse? && Within(l, base, s.trace) && fuel >= base + |l| - |s.trace|
    requires MeaningPath(p, l[|s.trace| - base..], m).Some?
    ensures Ends(s, MeaningPath(p, l[|s.trace| - base..], m).value, m.ignore,
                 Meaning(p, s, World(l, base), m.ignore, m.inLoop, fuel))
    decreases fuel, p, 0
  {
    hide World, Meaning, MeaningPath;
    var k := |s.trace| - base;
    NeedsAnswer(p, l[k..], true, m);
    MeaningIf(p, s, World(l, base), m.ignore, m.inLoop, fuel);
    MeaningPathIf(p, l[k..], m);
    var s1 := Ran(s, p.cond);
    NextAnswer(l, base, s.trace, p.cond, s.fail);
    if l[k..][0] == p.inverted {
      MeaningFollows(p.thn, s1, l, base, m.(deep := true), fuel);
    } else if p.els.Some? {
      MeaningFollows(p.els.value, s1, l, base, m.(deep := true), fuel);
    }
  }

  lemma {:induction false} MeaningFollowsLoop(p: Prog, s: Obs, l: seq<bool>, base: nat, m: Mode, fuel: nat)
    requires p.Loop? && Within(l, base, s.trace) && fuel >= base + |l| - |s.trace|
    requires MeaningPath(p, l[|s.trace| - base..], m).Some?
    ensures Ends(s, MeaningPath(p, l[|s.trace| - base..], m).value, m.ignore,
                 Meaning(p, s, World(l, base), m.ignore, m.inLoop, fuel))
    decreases fuel, p, 0
  {
    hide World, Meaning, MeaningPath;
    var k, mb := |s.trace| - base, m.(inLoop := true, deep := false);
    NeedsAnswer(p, l[k..], true, m);
    MeaningLoop(p, s, World(l, base), m.ignore, m.inLoop, fuel);
    MeaningPathLoop(p, l[k..], m);
    var s1 := Ran(s, p.cond);
    NextAnswer(l, base, s.trace, p.cond, s.fail);
    if l[k..][0] == p.until {
      MeaningFollows(p.body, s1, l, base, mb, fuel);
      var r1 := MeaningPath(p.body, l[k + 1..], mb).value;
      if !r1.broke {
        Drop(l, k, 1 + r1.n);
        var s2 := Meaning(p.body, s1, World(l, base), m.ignore, true, fuel).value.obs.(err := false);
        MeaningFollowsLoop(p, s2, l, base, m, fuel - 1);
      }
    }
  }

  // ----- NSH follows its path unless the if stack sinks -----

  // st is on a path: its `if` is on, and the stack is where it belongs.
  ghost predicate OnTrack(p: Prog, st: St, m: Mode, mark: Option<nat>, inIf: bool) {
    && IsOn(st.ie[st.top]) && st.top + IfDepth(p) < |st.ie| && m.inLoop == mark.Some? && (m.inLoop || st.live)
    && (mark.Some? ==> mark.value < |st.ie| && mark.value <= st.top && (m.deep <==> mark.value < st.top))
    && Sinking(p, st, mark, inIf)
  }

  // The run of p in the world of l ends in e, uses no more than l and rejects no word.
  ghost predicate Arrives(p: Prog, st: St, l: seq<bool>, base: nat, m: Mode, mark: Option<nat>, fuel: nat, e: St)
    requires mark.Some? ==> mark.value < |st.ie|
  {
    && base <= |st.trace| && |e.trace| <= base + |l| && e.said == st.said
    && Eval(p, st, World(l, base), m.ignore, mark, fuel) == Some(Finished(e))
  }

  // ... and follows its path.
  ghost predicate Tracked(p: Prog, st: St, l: seq<bool>, base: nat, m: Mode, e: St) {
    && Within(l, base, st.trace) && |st.trace| <= |e.trace| && Kept(st, e)
    && EvalPath(p, l[|st.trace| - base..], st.live, m) == Some((|e.trace| - |st.trace|, e.live))
  }

  lemma Falls(p: Prog, st: St, l: seq<bool>, base: nat, m: Mode, mark: Option<nat>, fuel: nat, e: St,
              inIf: bool)
    requires OnTrack(p, st, m, mark, inIf) && Arrives(p, st, l, base, m, mark, fuel, e)
    ensures e.top <= st.top && (mark.Some? && e.live ==> mark.value <= e.top) && |e.ie| == |st.ie|
    ensures m.inLoop || e.live
  {
    hide Eval;
    if !m.inLoop {
      OutsideKeepsLive(p, st, World(l, base), m.ignore, fuel);
    }
    NeverRises(p, st, World(l, base), m.ignore, mark, fuel, inIf);
  }

  /** A run of NSH that rejects no word and leaves the if stack as high as it was has run no `break`
      inside an `if` of a loop body, and is the run EvalPath describes. */
  lemma {:induction false} Tracks(p: Prog, st: St, l: seq<bool>, base: nat, m: Mode, mark: Option<nat>, fuel: nat,
                                  e: St, inIf: bool)
    requires OnTrack(p, st, m, mark, inIf) && Arrives(p, st, l, base, m, mark, fuel, e) && e.top == st.top
    ensures Tracked(p, st, l, base, m, e)
    decreases fuel, p, 1
  {
    match p {
      case Seq(_, _) =>
        TracksSeq(p, st, l, base, m, mark, fuel, e, inIf);
      case IfElse(_, _, _, _) =>
        if Enabled(st, mark) {
          TracksIf(p, st, l, base, m, mark, fuel, e, inIf);
        } else {
          DeadIf(p, st, World(l, base), m.ignore, mark, fuel);
        }
      case Loop(_, _, _) =>
        TracksLoop(p, st, l, base, m, mark, fuel, e, inIf);
      case _ =>
    }
  }

  lemma {:induction false} TracksSeq(p: Prog, st: St, l: seq<bool>, base: nat, m: Mode, mark: Option<nat>, fuel: nat,
                                     e: St, inIf: bool)
    requires p.Seq? && OnTrack(p, st, m, mark, inIf) && Arrives(p, st, l, base, m, mark, fuel, e) && e.top == st.top
    ensures Tracked(p, st, l, base, m, e)
    decreases fuel, p, 0
  {
    hide World, Eval, EvalPath;
    var o := World(l, base);
    EvalSeq(p, st, o, m.ignore, mark, fuel);
    var e1 := Eval(p.first, st, o, m.ignore, mark, fuel).value.st;
    TraceGrows(p.first, st, o, m.ignore, mark, fuel);
    TraceGrows(p.rest, e1, o, m.ignore, mark, fuel);
    Falls(p.first, st, l, base, m, mark, fuel, e1, inIf);
    NeverRises(p.rest, e1, o, m.ignore, mark, fuel, inIf);
    Tracks(p.first, st, l, base, m, mark, fuel, e1, inIf);
    Tracks(p.rest, e1, l, base, m, mark, fuel, e, inIf);
    EvalPathSeq(p, l[|st.trace| - base..], st.live, m);
    Drop(l, |st.trace| - base, |e1.trace| - |st.trace|);
  }

  lemma {:induction false} TracksLoop(p: Prog, st: St, l: seq<bool>, base: nat, m: Mode, mark: Option<nat>,
                                      fuel: nat, e: St, inIf: bool)
    requires p.Loop? && OnTrack(p, st, m, mark, inIf) && Arrives(p, st, l, base, m, mark, fuel, e) && e.top == st.top
    ensures Tracked(p, st, l, base, m, e)
    decreases fuel, p, 0
  {
    hide World, Eval, EvalPath;
    var o, mb := World(l, base), m.(inLoop := true, deep := false);
    EvalLoop(p, st, o, m.ignore, mark, fuel);
    var st1 := EnterLoop(p.until, p.cond, st, o);
    var e1 := Eval(p.body, st1, o, m.ignore, Some(st.top), fuel).value.st;
    var st3 := e1.(err := false, live := st.live);
    TraceGrows(p.body, st1, o, m.ignore, Some(st.top), fuel);
    if e1.live {
      TraceGrows(p, st3, o, m.ignore, mark, fuel - 1);
    }
    Falls(p.body, st1, l, base, mb, Some(st.top), fuel, e1, inIf);
    if e1.live {
      SinkingAgain(p, st, st1, o, m.ignore, mark, fuel, inIf);
      NeverRises(p, st3, o, m.ignore, mark, fuel - 1, inIf);
    }
    Tracks(p.body, st1, l, base, mb, Some(st.top), fuel, e1, inIf);
    if e1.live {
      TracksLoop(p, st3, l, base, m, mark, fuel - 1, e, inIf);
    }
    TrackLoop(p, st, st1, e1, l, base, m, e);
  }

  // The loop may be entered again.
  lemma {:induction false} SinkingAgain(p: Prog, st: St, st1: St, o: Oracle, ignore: bool, mark: Option<nat>,
                                        fuel: nat, inIf: bool)
    requires p.Loop? && Sinking(p, st, mark, inIf) && st1 == EnterLoop(p.until, p.cond, st, o)
    requires var r := Eval(p.body, st1, o, ignore, Some(st.top), fuel);
             r.Some? && r.value.Finished? && r.value.st.top <= st.top
    ensures var e1 := Eval(p.body, st1, o, ignore, Some(st.top), fuel).value.st;
            Sinking(p, e1.(err := false, live := st.live), mark, inIf)
  {
    hide Eval;
    if mark.Some? && mark.value > 0 {
      StaysLevel(p.body, st1, o, ignore, Some(st.top), false, fuel);
    }
  }

  // A pass of a loop and what comes after it.
  lemma TrackLoop(p: Prog, st: St, st1: St, e1: St, l: seq<bool>, base: nat, m: Mode, e: St)
    requires p.Loop? && IsOn(st.ie[st.top]) && base <= |st.trace| &&
             st1 == EnterLoop(p.until, p.cond, st, World(l, base))
    requires Tracked(p.body, st1, l, base, m.(inLoop := true, deep := false), e1)
    requires var st3 := e1.(err := false, live := st.live);
             if e1.live then Tracked(p, st3, l, base, m, e) else e == st3
    ensures Tracked(p, st, l, base, m, e)
  {
    hide World, EvalPath;
    var k := |st.trace| - base;
    NextAnswer(l, base, st.trace, p.cond, st.fail);
    EvalPathLoop(p, l[k..], st.live, m);
    Drop(l, k, |e1.trace| - |st.trace|);
  }

  lemma {:induction false} TracksIf(p: Prog, st: St, l: seq<bool>, base: nat, m: Mode, mark: Option<nat>, fuel: nat,
                                    e: St, inIf: bool)
    requires p.IfElse? && OnTrack(p, st, m, mark, inIf) && Arrives(p, st, l, base, m, mark, fuel, e) && e.top == st.top
    requires Enabled(st, mark)
    ensures Tracked(p, st, l, base, m, e)
    decreases fuel, p, 0
  {
    hide World, Eval, EvalPath, AtElse, AtFi, Close, EnterIf, Tracked;
    var o := World(l, base);
    EvalIf(p, st, o, m.ignore, mark, fuel);
    EnteredIf(p, st, o, mark);
    var st1 := EnterIf(p.inverted, p.cond, st, o, mark);
    if o(st.trace + [p.cond], st.fail) == p.inverted {
      TracksThen(p, st, st1, l, base, m, mark, fuel, e, inIf);
    } else {
      DeadCode(p.thn, st1, o, m.ignore, mark, fuel);
      var e1 := Eval(p.thn, st1, o, m.ignore, mark, fuel).value.st;
      if p.els.None? {
        CloseIs(p, e1, o, m.ignore, mark, fuel);
        OwnFi(st, st1, e1, m.ignore);
        TrackNoElse(p, st, l, base, m, e);
      } else {
        TracksElse(p, st, st1, e1, l, base, m, mark, fuel, e, inIf);
      }
    }
  }

  // The then branch was taken.
  lemma {:induction false} TracksThen(p: Prog, st: St, st1: St, l: seq<bool>, base: nat, m: Mode, mark: Option<nat>,
                                      fuel: nat, e: St, inIf: bool)
    requires p.IfElse? && OnTrack(p, st, m, mark, inIf) && Arrives(p, st, l, base, m, mark, fuel, e) && e.top == st.top
    requires Enabled(st, mark) && st1 == EnterIf(p.inverted, p.cond, st, World(l, base), mark)
    requires World(l, base)(st.trace + [p.cond], st.fail) == p.inverted
    ensures Tracked(p, st, l, base, m, e)
    decreases fuel, p, 0, 0
  {
    hide World, Eval, EvalPath, AtElse, AtFi, Close, EnterIf, Tracked;
    var o, mb := World(l, base), m.(deep := true);
    EvalIf(p, st, o, m.ignore, mark, fuel);
    EnteredIf(p, st, o, mark);
    OnTrackBranch(p, st, st1, o, m, mark, inIf);
    var e1 := Eval(p.thn, st1, o, m.ignore, mark, fuel).value.st;
    TraceGrows(p.thn, st1, o, m.ignore, mark, fuel);
    CloseTraceGrows(p, e1, o, m.ignore, mark, fuel);
    Falls(p.thn, st1, l, base, mb, mark, fuel, e1, true);
    ClosesLower(p, st, e1, o, m.ignore, mark, fuel, inIf);
    Tracks(p.thn, st1, l, base, mb, mark, fuel, e1, true);
    ThenTracked(p, st, st1, e1, l, base, m, mark, fuel, e);
  }

  lemma {:induction false} ThenTracked(p: Prog, st: St, st1: St, e1: St, l: seq<bool>, base: nat, m: Mode,
                                       mark: Option<nat>, fuel: nat, e: St)
    requires p.IfElse? && st.live && IsOn(st.ie[st.top]) && st.top + IfDepth(p) < |st.ie| && base <= |st.trace|
    requires (mark.Some? ==> mark.value < |st.ie|) && st1 == EnterIf(p.inverted, p.cond, st, World(l, base), mark)
    requires World(l, base)(st.trace + [p.cond], st.fail) == p.inverted
    requires Tracked(p.thn, st1, l, base, m.(deep := true), e1)
    requires Close(p, e1, World(l, base), m.ignore, mark, fuel) == Some(Finished(e))
    ensures Tracked(p, st, l, base, m, e)
  {
    hide World, EvalPath, Close, EnterIf;
    EnteredIf(p, st, World(l, base), mark);
    PassElse(p, st, st1, e1, World(l, base), m.ignore, mark, fuel);
    TrackIf(p, st, p.thn, st1, e1, l, base, m, e);
  }

  // Close, case by case.
  lemma {:induction false} CloseIs(p: Prog, st: St, o: Oracle, ignore: bool, mark: Option<nat>, fuel: nat)
    requires p.IfElse? && (mark.Some? ==> mark.value < |st.ie|)
    ensures p.els.None? ==> Close(p, st, o, ignore, mark, fuel) == Some(AtFi(st, ignore))
    ensures p.els.Some? && AtElse(st, ignore).Aborted? ==>
              Close(p, st, o, ignore, mark, fuel) == Some(AtElse(st, ignore))
    ensures p.els.Some? && AtElse(st, ignore).Finished? ==>
              var r2 := Eval(p.els.value, AtElse(st, ignore).st, o, ignore, mark, fuel);
              Close(p, st, o, ignore, mark, fuel) ==
              if r2.None? || r2.value.Aborted? then r2 else Some(AtFi(r2.value.st, ignore))
  {
    hide Eval, AtElse, AtFi;
  }

  lemma OnTrackBranch(p: Prog, st: St, st1: St, o: Oracle, m: Mode, mark: Option<nat>, inIf: bool)
    requires p.IfElse? && OnTrack(p, st, m, mark, inIf) && Enabled(st, mark)
    requires st1 == EnterIf(p.inverted, p.cond, st, o, mark)
    ensures o(st.trace + [p.cond], st.fail) == p.inverted ==> OnTrack(p.thn, st1, m.(deep := true), mark, true)
    ensures mark.Some? ==> mark.value < |st1.ie|
  {
    SinkingBranch(p, mark);
  }

  // If the then branch ended with the stack lower than it began, so does the whole `if`.
  lemma ClosesLower(p: Prog, st: St, e1: St, o: Oracle, ignore: bool, mark: Option<nat>, fuel: nat, inIf: bool)
    requires p.IfElse? && |e1.ie| == |st.ie| && (mark.Some? ==> mark.value < |st.ie|)
    requires Sinking(p, st, mark, inIf) && (mark.Some? && e1.live ==> mark.value <= e1.top)
    requires var r := Close(p, e1, o, ignore, mark, fuel); Quiet(st, r) && r.value.st.top == st.top
    requires e1.top <= st.top + 1 && e1.said == st.said
    ensures e1.top == st.top + 1
  {
    hide Eval;
    if p.els.Some? && AtElse(e1, ignore).Finished? {
      var st3 := AtElse(e1, ignore).st;
      TraceGrows(p.els.value, st3, o, ignore, mark, fuel);
      if st3.said == st.said {
        SinkingBranch(p, mark);
        NeverRises(p.els.value, st3, o, ignore, mark, fuel, true);
      }
    }
  }

  lemma TrackIf(p: Prog, st: St, q: Prog, st1: St, e1: St, l: seq<bool>, base: nat, m: Mode, e: St)
    requires p.IfElse? && st.live && base <= |st.trace|
    requires var trace := st.trace + [p.cond];
             && |st1.trace| == |trace| && st1.live
             && (if World(l, base)(trace, st.fail) == p.inverted then q == p.thn else p.els.Some? && q == p.els.value)
    requires Tracked(q, st1, l, base, m.(deep := true), e1) && Kept(st, e) && e.live == e1.live &&
             |e.trace| == |e1.trace|
    ensures Tracked(p, st, l, base, m, e)
  {
    hide World, EvalPath;
    var k := |st.trace| - base;
    NextAnswer(l, base, st.trace, p.cond, st.fail);
    EvalPathIf(p, l[k..], m);
  }

  lemma TrackNoElse(p: Prog, st: St, l: seq<bool>, base: nat, m: Mode, e: St)
    requires p.IfElse? && p.els.None? && st.live && base <= |st.trace| && |e.trace| == |st.trace| + 1 <= base + |l|
    requires World(l, base)(st.trace + [p.cond], st.fail) != p.inverted && Kept(st, e) && e.live
    ensures Tracked(p, st, l, base, m, e)
  {
    hide World, EvalPath;
    NextAnswer(l, base, st.trace, p.cond, st.fail);
    EvalPathIf(p, l[|st.trace| - base..], m);
  }

  // The then branch was passed over, and there is an else branch.
  lemma {:induction false} TracksElse(p: Prog, st: St, st1: St, st2: St, l: seq<bool>, base: nat, m: Mode,
                                      mark: Option<nat>, fuel: nat, e: St, inIf: bool)
    requires p.IfElse? && p.els.Some? && OnTrack(p, st, m, mark, inIf) && Enabled(st, mark) && e.top == st.top
    requires base <= |st.trace| && |e.trace| <= base + |l| && e.said == st.said
    requires st1 == EnterIf(p.inverted, p.cond, st, World(l, base), mark) && Silent(st1, st2)
    requires World(l, base)(st.trace + [p.cond], st.fail) != p.inverted
    requires Close(p, st2, World(l, base), m.ignore, mark, fuel) == Some(Finished(e)) && st.live
    ensures Tracked(p, st, l, base, m, e)
    decreases fuel, p, 0, 0
  {
    hide World, Eval, EvalPath, AtElse, AtFi, Close;
    var o, mb := World(l, base), m.(deep := true);
    CloseIs(p, st2, o, m.ignore, mark, fuel);
    OwnElse(st1, st2, m.ignore);
    var st3 := AtElse(st2, m.ignore).st;
    OnTrackElse(p, st, st1, st2, o, m, mark, inIf);
    var e4 := Eval(p.els.value, st3, o, m.ignore, mark, fuel).value.st;
    TraceGrows(p.els.value, st3, o, m.ignore, mark, fuel);
    FiTrace(e4, m.ignore);
    Falls(p.els.value, st3, l, base, mb, mark, fuel, e4, true);
    FiLowers(e4, m.ignore);
    Tracks(p.els.value, st3, l, base, mb, mark, fuel, e4, true);
    OwnFi(st, st3, e4, m.ignore);
    TrackIf(p, st, p.els.value, st3, e4, l, base, m, e);
  }

  lemma FiTrace(st: St, ignore: bool)
    ensures AtFi(st, ignore).st.trace == st.trace && AtFi(st, ignore).st.live == st.live
    ensures st.said <= AtFi(st, ignore).st.said
  {
  }

  lemma FiLowers(st: St, ignore: bool)
    ensures AtFi(st, ignore).st.said == st.said ==> AtFi(st, ignore).st.top == st.top - 1
  {
  }

  lemma OnTrackElse(p: Prog, st: St, st1: St, st2: St, o: Oracle, m: Mode, mark: Option<nat>, inIf: bool)
    requires p.IfElse? && p.els.Some? && OnTrack(p, st, m, mark, inIf) && Enabled(st, mark)
    requires st1 == EnterIf(p.inverted, p.cond, st, o, mark) && Silent(st1, st2)
    requires o(st.trace + [p.cond], st.fail) != p.inverted
    ensures AtElse(st2, m.ignore).Finished?
    ensures OnTrack(p.els.value, AtElse(st2, m.ignore).st, m.(deep := true), mark, true)
  {
    SinkingBranch(p, mark);
  }

  // ----- Only the answers used matter -----

  // l and k have the same first n answers.
  ghost predicate Same(l: seq<bool>, k: seq<bool>, n: nat) {
    n <= |l| && n <= |k| && forall i | 0 <= i < n :: l[i] == k[i]
  }

  lemma SameDrop(l: seq<bool>, k: seq<bool>, n: nat, i: nat, j: nat)
    requires Same(l, k, n) && i + j <= n
    ensures n <= |l| && n <= |k| && Same(l[i..], k[i..], j) && (n > 0 ==> l[0] == k[0])
  {
  }

  lemma {:induction false} SamePath(p: Prog, l: seq<bool>, k: seq<bool>, m: Mode)
    requires var r := MeaningPath(p, l, m); r.Some? && Same(l, k, r.value.n)
    ensures MeaningPath(p, k, m) == MeaningPath(p, l, m)
    decreases |l|, p
  {
    hide Same;
    SameDrop(l, k, MeaningPath(p, l, m).value.n, 0, 0);
    match p {
      case Seq(_, _) =>
        SamePathSeq(p, l, k, m);
      case IfElse(_, _, _, _) =>
        SamePathIf(p, l, k, m);
      case Loop(_, _, _) =>
        SamePathLoop(p, l, k, m);
      case _ =>
    }
  }

  lemma {:induction false} SamePathSeq(p: Prog, l: seq<bool>, k: seq<bool>, m: Mode)
    requires p.Seq?
    requires var r := MeaningPath(p, l, m); r.Some? && Same(l, k, r.value.n)
    ensures MeaningPath(p, k, m) == MeaningPath(p, l, m)
    decreases |l|, p, 0
  {
    hide Same, MeaningPath;
    MeaningPathSeq(p, l, m);
    MeaningPathSeq(p, k, m);
    var n := MeaningPath(p, l, m).value.n;
    var r1 := MeaningPath(p.first, l, m).value;
    SameDrop(l, k, n, 0, r1.n);
    assert l[0..] == l && k[0..] == k;
    SamePath(p.first, l, k, m);
    if !r1.broke {
      SameDrop(l, k, n, r1.n, n - r1.n);
      SamePath(p.rest, l[r1.n..], k[r1.n..], m);
    }
  }

  lemma {:induction false} SamePathIf(p: Prog, l: seq<bool>, k: seq<bool>, m: Mode)
    requires p.IfElse?
    requires var r := MeaningPath(p, l, m); r.Some? && Same(l, k, r.value.n)
    ensures MeaningPath(p, k, m) == MeaningPath(p, l, m)
    decreases |l|, p, 0
  {
    hide Same, MeaningPath;
    NeedsAnswer(p, l, true, m);
    MeaningPathIf(p, l, m);
    var n := MeaningPath(p, l, m).value.n;
    SameDrop(l, k, n, 1, n - 1);
    MeaningPathIf(p, k, m);
    if l[0] == p.inverted {
      SamePath(p.thn, l[1..], k[1..], m.(deep := true));
    } else if p.els.Some? {
      SamePath(p.els.value, l[1..], k[1..], m.(deep := true));
    }
  }

  lemma {:induction false} SamePathLoop(p: Prog, l: seq<bool>, k: seq<bool>, m: Mode)
    requires p.Loop?
    requires var r := MeaningPath(p, l, m); r.Some? && Same(l, k, r.value.n)
    ensures MeaningPath(p, k, m) == MeaningPath(p, l, m)
    decreases |l|, p, 0
  {
    hide Same, MeaningPath;
    NeedsAnswer(p, l, true, m);
    MeaningPathLoop(p, l, m);
    var n, mb := MeaningPath(p, l, m).value.n, m.(inLoop := true, deep := false);
    SameDrop(l, k, n, 0, 0);
    MeaningPathLoop(p, k, m);
    if l[0] == p.until {
      var r1 := MeaningPath(p.body, l[1..], mb).value;
      SameDrop(l, k, n, 1, r1.n);
      SamePath(p.body, l[1..], k[1..], mb);
      if !r1.broke {
        SameDrop(l, k, n, 1 + r1.n, n - 1 - r1.n);
        SamePath(p, l[1 + r1.n..], k[1 + r1.n..], m);
      }
    }
  }

  // l is exactly what the run of p uses.
  ghost predicate Runs(p: Prog, l: seq<bool>, m: Mode, broke: bool, hit: bool) {
    MeaningPath(p, l, m) == Some(Path(|l|, broke, hit))
  }

  lemma {:induction false} RunsOn(p: Prog, l: seq<bool>, k: seq<bool>, m: Mode, broke: bool, hit: bool)
    requires Runs(p, l, m, broke, hit)
    ensures MeaningPath(p, l + k, m) == Some(Path(|l|, broke, hit)) && (l + k)[|l|..] == k
  {
    hide MeaningPath;
    assert Same(l, l + k, |l|);
    SamePath(p, l, l + k, m);
  }

  lemma SeqRuns(p: Prog, l: seq<bool>, k: seq<bool>, m: Mode, hit1: bool, broke: bool, hit2: bool)
    requires p.Seq? && Runs(p.first, l, m, false, hit1) && Runs(p.rest, k, m, broke, hit2)
    ensures Runs(p, l + k, m, broke, hit1 || hit2)
  {
    hide MeaningPath;
    MeaningPathSeq(p, l + k, m);
    RunsOn(p.first, l, k, m, false, hit1);
  }

  lemma {:induction false} SeqBreaks(p: Prog, l: seq<bool>, m: Mode, hit: bool)
    requires p.Seq? && Runs(p.first, l, m, true, hit)
    ensures Runs(p, l, m, true, hit || HasBareLoop(p.rest))
  {
    hide MeaningPath;
    MeaningPathSeq(p, l, m);
  }

  lemma IfRuns(p: Prog, x: bool, l: seq<bool>, m: Mode, broke: bool, hit: bool)
    requires p.IfElse?
    requires if x == p.inverted then Runs(p.thn, l, m.(deep := true), broke, hit)
             else p.els.Some? && Runs(p.els.value, l, m.(deep := true), broke, hit)
    ensures Runs(p, [x] + l, m, broke, hit)
  {
    hide MeaningPath;
    MeaningPathIf(p, [x] + l, m);
    assert ([x] + l)[1..] == l;
  }

  // One pass through a loop body, and then the rest of the loop.
  lemma LoopRuns(p: Prog, l: seq<bool>, k: seq<bool>, m: Mode, hit1: bool, broke: bool, hit2: bool)
    requires p.Loop? && Runs(p.body, l, m.(inLoop := true, deep := false), false, hit1) && Runs(p, k, m, broke, hit2)
    ensures Runs(p, [p.until] + l + k, m, broke, hit1 || hit2)
  {
    hide MeaningPath;
    var all := [p.until] + l + k;
    assert all[1..] == l + k;
    RunsOn(p.body, l, k, m.(inLoop := true, deep := false), false, hit1);
    assert all[1 + |l|..] == k;
    MeaningPathLoop(p, all, m);
  }

  lemma LoopBreaks(p: Prog, l: seq<bool>, m: Mode, hit: bool)
    requires p.Loop? && Runs(p.body, l, m.(inLoop := true, deep := false), true, hit)
    ensures Runs(p, [p.until] + l, m, false, hit)
  {
    hide MeaningPath;
    MeaningPathLoop(p, [p.until] + l, m);
    assert ([p.until] + l)[1..] == l;
  }

  // ----- A script that is not faithful can be led astray -----

  lemma {:induction false} DeepIsUnbroken(p: Prog)
    requires Faithful(p, true, true)
    ensures !AlwaysBreaks(p)
    decreases p
  {
    if p.Seq? {
      DeepIsUnbroken(p.first);
      DeepIsUnbroken(p.rest);
    }
  }

  // Every script can be run to an end.  If it is faithful, it does not depend on the answers whether
  // that is a `break`.
  lemma {:induction false} CanFinish(p: Prog, m: Mode) returns (l: seq<bool>, broke: bool, hit: bool)
    ensures Runs(p, l, m, broke, hit)
    ensures Faithful(p, m.inLoop, m.deep) ==> (broke <==> m.inLoop && AlwaysBreaks(p))
    decreases p
  {
    l, broke, hit := [], false, false;
    match p {
      case Seq(a, b) =>
        l, broke, hit := CanFinish(a, m);
        if broke {
          SeqBreaks(p, l, m, hit);
          hit := hit || HasBareLoop(b);
        } else {
          var k, hit2;
          k, broke, hit2 := CanFinish(b, m);
          SeqRuns(p, l, k, m, hit, broke, hit2);
          l, hit := l + k, hit || hit2;
        }
      case Simple(argv) =>
        l := if argv == [] then [] else [false];
      case BreakCmd =>
        broke, hit := m.inLoop, m.inLoop && m.deep;
      case IfElse(inverted, _, thn, _) =>
        var k;
        k, broke, hit := CanFinish(thn, m.(deep := true));
        IfRuns(p, inverted, k, m, broke, hit);
        l := [inverted] + k;
        if m.inLoop && Faithful(p, m.inLoop, m.deep) {
          DeepIsUnbroken(thn);
        }
      case Loop(until, _, body) =>
        l, hit := [!until], HasBareLoop(body);
      case Empty =>
    }
  }

  lemma {:induction false} CanHit(p: Prog, m: Mode) returns (l: seq<bool>, broke: bool)
    requires !Faithful(p, m.inLoop, m.deep)
    ensures Runs(p, l, m, broke, true)
    decreases p, 1
  {
    match p {
      case Seq(_, _) =>
        l, broke := CanHitSeq(p, m);
      case BreakCmd =>
        l, broke := [], m.inLoop;
      case IfElse(inverted, _, thn, els) =>
        if !Faithful(thn, m.inLoop, true) {
          l, broke := CanHit(thn, m.(deep := true));
          IfRuns(p, inverted, l, m, broke, true);
          l := [inverted] + l;
        } else {
          l, broke := CanHit(els.value, m.(deep := true));
          IfRuns(p, !inverted, l, m, broke, true);
          l := [!inverted] + l;
        }
      case Loop(_, _, _) =>
        l := CanHitLoop(p, m);
        broke := false;
    }
  }

  lemma {:induction false} CanHitSeq(p: Prog, m: Mode) returns (l: seq<bool>, broke: bool)
    requires p.Seq? && !Faithful(p, m.inLoop, m.deep)
    ensures Runs(p, l, m, broke, true)
    decreases p, 0
  {
    hide MeaningPath;
    var k, hit;
    if !Faithful(p.first, m.inLoop, m.deep) {
      l, broke := CanHit(p.first, m);
      if broke {
        SeqBreaks(p, l, m, true);
      } else {
        k, broke, hit := CanFinish(p.rest, m);
        SeqRuns(p, l, k, m, true, broke, hit);
        l := l + k;
      }
    } else {
      l, broke, hit := CanFinish(p.first, m);
      k, broke := CanHit(p.rest, m);
      SeqRuns(p, l, k, m, hit, broke, true);
      l := l + k;
    }
  }

  lemma {:induction false} CanHitLoop(p: Prog, m: Mode) returns (l: seq<bool>)
    requires p.Loop? && !Faithful(p, m.inLoop, m.deep)
    ensures Runs(p, l, m, false, true)
    decreases p, 0
  {
    l := [!p.until];
    if !HasBareLoop(p.body) {
      var k, broke := CanHit(p.body, m.(inLoop := true, deep := false));
      if broke {
        LoopBreaks(p, k, m, true);
        l := [p.until] + k;
      } else {
        LoopRuns(p, k, [!p.until], m, true, false, false);
        l := [p.until] + k + [!p.until];
      }
    }
  }

  // A run that is led astray has run something.
  lemma {:induction false} HitUses(p: Prog, l: seq<bool>, m: Mode)
    requires !m.inLoop
    ensures var r := MeaningPath(p, l, m); r.Some? && r.value.hit ==> r.value.n > 0
    decreases p
  {
    hide MeaningPath;
    match p {
      case Seq(_, _) =>
        MeaningPathSeq(p, l, m);
        HitUses(p.first, l, m);
        OutsideNoBreak(p.first, l, m);
        var r := MeaningPath(p.first, l, m);
        if r.Some? {
          HitUses(p.rest, l[r.value.n..], m);
        }
      case IfElse(_, _, _, _) =>
        NeedsAnswer(p, l, true, m);
        if l != [] {
          MeaningPathIf(p, l, m);
        }
      case Loop(_, _, _) =>
        NeedsAnswer(p, l, true, m);
        if l != [] {
          MeaningPathLoop(p, l, m);
        }
      case _ =>
        PlainHitsNothing(p, l, m);
    }
  }

  lemma {:induction false} PlainHitsNothing(p: Prog, l: seq<bool>, m: Mode)
    requires !m.inLoop && (p.Empty? || p.Simple? || p.BreakCmd?)
    ensures var r := MeaningPath(p, l, m); r.Some? ==> !r.value.hit && !r.value.broke
  {
  }

  lemma {:induction false} OutsideNoBreak(p: Prog, l: seq<bool>, m: Mode)
    requires !m.inLoop
    ensures var r := MeaningPath(p, l, m); r.Some? ==> !r.value.broke
    decreases |l|, p
  {
    hide MeaningPath;
    if p.Empty? || p.Simple? || p.BreakCmd? {
      PlainHitsNothing(p, l, m);
    } else if p.Seq? {
      MeaningPathSeq(p, l, m);
      OutsideNoBreak(p.first, l, m);
      var r := MeaningPath(p.first, l, m);
      if r.Some? {
        OutsideNoBreak(p.rest, l[r.value.n..], m);
      }
    } else {
      NeedsAnswer(p, l, true, m);
      if l != [] && p.IfElse? {
        MeaningPathIf(p, l, m);
        OutsideNoBreak(p.thn, l[1..], m.(deep := true));
        if p.els.Some? {
          OutsideNoBreak(p.els.value, l[1..], m.(deep := true));
        }
      } else if l != [] {
        MeaningPathLoop(p, l, m);
        var r := MeaningPath(p.body, l[1..], m.(inLoop := true, deep := false));
        if r.Some? {
          OutsideNoBreak(p, l[1 + r.value.n..], m);
        }
      }
    }
  }

  // ----- Leaving out what NSH runs too much -----

  lemma {:induction false} SkippedPath(p: Prog, l: seq<bool>, m: Mode)
    requires EvalPath(p, l, false, m).Some?
    ensures var r := EvalPath(p, l, false, m).value; !r.1 && (r.0 > 0 <==> HasBareLoop(p))
    decreases |l|, p, 1
  {
    match p {
      case Seq(_, _) => SkippedSeq(p, l, m);
      case Loop(_, _, _) => SkippedLoop(p, l, m);
      case _ =>
    }
  }

  lemma {:induction false} SkippedSeq(p: Prog, l: seq<bool>, m: Mode)
    requires p.Seq? && EvalPath(p, l, false, m).Some?
    ensures var r := EvalPath(p, l, false, m).value; !r.1 && (r.0 > 0 <==> HasBareLoop(p))
    decreases |l|, p, 0
  {
    hide EvalPath;
    EvalPathSeq(p, l, false, m);
    SkippedPath(p.first, l, m);
    SkippedPath(p.rest, l[EvalPath(p.first, l, false, m).value.0..], m);
  }

  // A loop needs at least the answer to its condition.
  lemma {:induction false} SkippedLoop(p: Prog, l: seq<bool>, m: Mode)
    requires p.Loop? && EvalPath(p, l, false, m).Some?
    ensures var r := EvalPath(p, l, false, m).value; !r.1 && r.0 > 0
    decreases |l|, p, 0
  {
    hide EvalPath;
    NeedsAnswer(p, l, false, m);
    EvalPathLoop(p, l, false, m);
    var r1 := EvalPath(p.body, l[1..], l[0] == p.until, m.(inLoop := true, deep := false)).value;
    if r1.1 {
      SkippedLoop(p, l[1 + r1.0..], m);
    }
  }

  // k is what remains of the run of NSH on l; `hit` says that something was left out.
  ghost predicate Remains(p: Prog, l: seq<bool>, m: Mode, k: seq<bool>, hit: bool)
    requires EvalPath(p, l, true, m).Some?
  {
    var r := EvalPath(p, l, true, m).value;
    && Runs(p, k, m, !r.1, hit)
    && |k| <= r.0 && (hit <==> |k| < r.0) && (!hit ==> k == l[..r.0])
  }

  /** Take a run of NSH and leave out the answers to the commands it runs in skipped bodies: what is
      left is a run of the meaning, and it is shorter if and only if it passes over a bare loop. */
  lemma {:induction false} LeaveOut(p: Prog, l: seq<bool>, m: Mode) returns (k: seq<bool>, hit: bool)
    requires EvalPath(p, l, true, m).Some?
    ensures Remains(p, l, m, k, hit)
    decreases |l|, p
  {
    k, hit := [], false;
    match p {
      case Seq(_, _) =>
        k, hit := LeaveOutSeq(p, l, m);
      case Simple(argv) =>
        k := l[..if argv == [] then 0 else 1];
      case IfElse(_, _, _, _) =>
        k, hit := LeaveOutIf(p, l, m);
      case Loop(_, _, _) =>
        k, hit := LeaveOutLoop(p, l, m);
      case _ =>
    }
  }

  lemma {:induction false} LeaveOutSeq(p: Prog, l: seq<bool>, m: Mode) returns (k: seq<bool>, hit: bool)
    requires p.Seq? && EvalPath(p, l, true, m).Some?
    ensures Remains(p, l, m, k, hit)
    decreases |l|, p, 0
  {
    hide EvalPath, Runs;
    EvalPathSeq(p, l, true, m);
    var r1 := EvalPath(p.first, l, true, m).value;
    k, hit := LeaveOut(p.first, l, m);
    if r1.1 {
      var k2, hit2 := LeaveOut(p.rest, l[r1.0..], m);
      SeqRuns(p, k, k2, m, hit, !EvalPath(p.rest, l[r1.0..], true, m).value.1, hit2);
      k, hit := k + k2, hit || hit2;
    } else {
      SkippedPath(p.rest, l[r1.0..], m);
      SeqBreaks(p, k, m, hit);
      hit := hit || HasBareLoop(p.rest);
    }
  }

  lemma {:induction false} LeaveOutIf(p: Prog, l: seq<bool>, m: Mode) returns (k: seq<bool>, hit: bool)
    requires p.IfElse? && EvalPath(p, l, true, m).Some?
    ensures Remains(p, l, m, k, hit)
    decreases |l|, p, 0
  {
    hide EvalPath, MeaningPath;
    NeedsAnswer(p, l, true, m);
    EvalPathIf(p, l, m);
    var k1 := [];
    hit := false;
    if l[0] == p.inverted {
      k1, hit := LeaveOut(p.thn, l[1..], m.(deep := true));
    } else if p.els.Some? {
      k1, hit := LeaveOut(p.els.value, l[1..], m.(deep := true));
    }
    k := [l[0]] + k1;
    MeaningPathIf(p, k, m);
    assert k[1..] == k1;
  }

  lemma {:induction false} LeaveOutLoop(p: Prog, l: seq<bool>, m: Mode) returns (k: seq<bool>, hit: bool)
    requires p.Loop? && EvalPath(p, l, true, m).Some?
    ensures Remains(p, l, m, k, hit)
    decreases |l|, p, 0
  {
    var mb := m.(inLoop := true, deep := false);
    var r1 := EvalPath(p.body, l[1..], l[0] == p.until, mb).value;
    if l[0] != p.until {
      SkippedPath(p.body, l[1..], mb);
      k, hit := [l[0]], HasBareLoop(p.body);
    } else {
      var k1, hit1 := LeaveOut(p.body, l[1..], mb);
      if r1.1 {
        k, hit := LeaveOutPass(p, l, m, k1, hit1);
      } else {
        LoopBreaks(p, k1, m, hit1);
        k, hit := [l[0]] + k1, hit1;
      }
    }
  }

  // A pass through the body that comes to its end.
  lemma {:induction false} LeaveOutPass(p: Prog, l: seq<bool>, m: Mode, k1: seq<bool>, hit1: bool)
    returns (k: seq<bool>, hit: bool)
    requires p.Loop? && EvalPath(p, l, true, m).Some? && l[0] == p.until
    requires var mb := m.(inLoop := true, deep := false);
             EvalPath(p.body, l[1..], true, mb).value.1 && Remains(p.body, l[1..], mb, k1, hit1)
    ensures Remains(p, l, m, k, hit)
    decreases |l|, p, 0, 0
  {
    hide Runs, EvalPath;
    NeedsAnswer(p, l, true, m);
    EvalPathLoop(p, l, true, m);
    var n1 := EvalPath(p.body, l[1..], true, m.(inLoop := true, deep := false)).value.0;
    var rest := l[1 + n1..];
    var k2, hit2 := LeaveOut(p, rest, m);
    LoopRuns(p, k1, k2, m, hit1, !EvalPath(p, rest, true, m).value.1, hit2);
    k, hit := [l[0]] + k1 + k2, hit1 || hit2;
    Cut(l, n1, EvalPath(p, rest, true, m).value.0);
  }

  lemma Cut(l: seq<bool>, i: nat, j: nat)
    requires 1 + i + j <= |l|
    ensures [l[0]] + l[1..][..i] + l[1 + i..][..j] == l[..1 + i + j]
  {
  }

  // ----- The exact condition -----

  // From a run that is led astray, a run that NSH does not follow.
  lemma {:induction false} Tells(p: Prog, l: seq<bool>, m: Mode, broke: bool) returns (k: seq<bool>, broke': bool)
    requires Runs(p, l, m, broke, true)
    ensures Runs(p, k, m, broke', true)
    ensures var r := EvalPath(p, k, true, m); r.Some? ==> r.value.0 != |k|
    decreases |l|
  {
    hide MeaningPath, EvalPath;
    k, broke' := l, broke;
    var r := EvalPath(p, l, true, m);
    if r.Some? && r.value.0 == |l| {
      var l', hit := LeaveOut(p, l, m);
      assert l[..|l|] == l;
      k, broke' := Tells(p, l', m, !r.value.1);
    }
  }

  // ----- Scripts in a file -----

  // The script with every command on a line of its own.
  function Plain(code: seq<Argv>): seq<Cmd> {
    seq(|code|, i requires 0 <= i < |code| => Cmd(code[i], true))
  }

  ghost predicate NoneSplits(code: seq<Argv>) {
    forall i | 0 <= i < |code| :: !Splits(code[i])
  }

  lemma NoneSplitsAppend(a: seq<Argv>, b: seq<Argv>)
    requires NoneSplits(a) && NoneSplits(b)
    ensures NoneSplits(a + b)
  {
  }

  lemma {:induction false} NothingSplits(p: Prog)
    requires WellFormed(p)
    ensures NoneSplits(Flatten(p))
    decreases p
  {
    match p {
      case Seq(a, b) =>
        NothingSplits(a);
        NothingSplits(b);
        NoneSplitsAppend(Flatten(a), Flatten(b));
      case IfElse(inverted, cond, thn, els) =>
        NothingSplits(thn);
        var head := [IfHead(inverted, cond), [Then]];
        assert NoneSplits(head) && NoneSplits([[Fi]]) && NoneSplits([[Else]]);
        NoneSplitsAppend(head, Flatten(thn));
        if els.Some? {
          NothingSplits(els.value);
          NoneSplitsAppend([[Else]], Flatten(els.value));
        }
        NoneSplitsAppend(head + Flatten(thn), FlattenElse(els));
        NoneSplitsAppend(head + Flatten(thn) + FlattenElse(els), [[Fi]]);
      case Loop(until, cond, body) =>
        NothingSplits(body);
        var head := [LoopHead(until, cond), [Do]];
        assert NoneSplits(head) && NoneSplits([[Done]]);
        NoneSplitsAppend(head, Flatten(body));
        NoneSplitsAppend(head + Flatten(body), [[Done]]);
      case _ =>
    }
  }

  lemma {:induction false} PlainParts(code: seq<Argv>, k: nat)
    requires k <= |code| && NoneSplits(code)
    ensures var parts := PartsTo(Plain(code), k);
            |parts| == k && forall i | 0 <= i < k :: parts[i] == Part(code[i], i, false)
    decreases k
  {
    if k > 0 {
      PlainParts(code, k - 1);
    }
  }

  // Nothing is running: no `if` and no loop is open.
  ghost predicate AtPeace(p: Prog, np: Np, s: Obs) {
    && WellFormed(p) && np.stream && np.fail == s.fail && np.said == s.said
    && np.iendx == 0 && AtRest(np.ie) && IsOn(np.ie[0])
    && TopLp(np).state == LoopNormal && IfDepth(p) < |np.ie| && np.lpndx + LoopDepth(p) < |np.lp|
  }

  // It may be run in every way.
  lemma {:induction false} PlainLayout(p: Prog, o: Oracle, ignore: bool)
    requires WellFormed(p)
    ensures var env := Env(Plain(Flatten(p)), o, ignore);
            && Fits(Parts(env.script), 0, Flatten(p)) && |Parts(env.script)| == |Flatten(p)|
            && Layout(env) && Strict(env)
  {
    hide Flatten, WellFormed, PartsTo, Splits, Safe, Closes;
    NothingSplits(p);
    PlainParts(Flatten(p), |Flatten(p)|);
  }

  lemma {:induction false} PlainIsLoaded(p: Prog, np: Np, s: Obs, o: Oracle, ignore: bool)
    requires AtPeace(p, np, s)
    ensures Loaded(Env(Plain(Flatten(p)), o, ignore), p, np, s)
  {
    hide Flatten, WellFormed, Parts, Fits, Layout, Strict, Plain;
    PlainLayout(p, o, ignore);
  }

  // ----- ... and what NSH makes of them -----

  // The machine gives what the script means.
  ghost predicate KeepsMeaning(env: Env, p: Prog, np: Np, s: Obs) {
    forall res :: MachineGives(env, np, s, res) <==> Means(env, p, s, res)
  }

  // A run that stops has failed, and errors are not ignored.
  lemma {:induction false} StopsWithError(p: Prog, st: St, o: Oracle, ignore: bool, mark: Option<nat>, fuel: nat)
    requires mark.Some? ==> mark.value < |st.ie|
    ensures var r := Eval(p, st, o, ignore, mark, fuel); r.Some? && r.value.Aborted? ==> r.value.st.err && !ignore
    decreases fuel, p
  {
    match p {
      case Seq(a, b) =>
        StopsWithError(a, st, o, ignore, mark, fuel);
        var r := Eval(a, st, o, ignore, mark, fuel);
        if r.Some? && r.value.Finished? {
          StopsWithError(b, r.value.st, o, ignore, mark, fuel);
        }
      case IfElse(_, _, _, _) =>
        IfStopsWithError(p, st, o, ignore, mark, fuel);
      case Loop(_, _, _) =>
        LoopStopsWithError(p, st, o, ignore, mark, fuel);
      case _ =>
    }
  }

  lemma {:induction false} LoopStopsWithError(p: Prog, st: St, o: Oracle, ignore: bool, mark: Option<nat>, fuel: nat)
    requires p.Loop? && (mark.Some? ==> mark.value < |st.ie|)
    ensures var r := Eval(p, st, o, ignore, mark, fuel); r.Some? && r.value.Aborted? ==> r.value.st.err && !ignore
    decreases fuel, p, 0
  {
    hide Eval;
    EvalLoop(p, st, o, ignore, mark, fuel);
    var st1 := EnterLoop(p.until, p.cond, st, o);
    StopsWithError(p.body, st1, o, ignore, Some(st.top), fuel);
    var r := Eval(p.body, st1, o, ignore, Some(st.top), fuel);
    if r.Some? && r.value.Finished? && r.value.st.live && fuel > 0 {
      LoopStopsWithError(p, r.value.st.(err := false, live := st.live), o, ignore, mark, fuel - 1);
    }
  }

  lemma {:induction false} IfStopsWithError(p: Prog, st: St, o: Oracle, ignore: bool, mark: Option<nat>, fuel: nat)
    requires p.IfElse? && (mark.Some? ==> mark.value < |st.ie|)
    ensures var r := Eval(p, st, o, ignore, mark, fuel); r.Some? && r.value.Aborted? ==> r.value.st.err && !ignore
    decreases fuel, p, 0
  {
    hide Eval;
    EvalIf(p, st, o, ignore, mark, fuel);
    if st.top + 1 < |st.ie| {
      var st1 := EnterIf(p.inverted, p.cond, st, o, mark);
      StopsWithError(p.thn, st1, o, ignore, mark, fuel);
      var r := Eval(p.thn, st1, o, ignore, mark, fuel);
      if r.Some? && r.value.Finished? && p.els.Some? {
        var r3 := AtElse(r.value.st, ignore);
        if r3.Finished? {
          StopsWithError(p.els.value, r3.st, o, ignore, mark, fuel);
        }
      }
    }
  }

  // If NSH gave the same as the meaning in the world of l, it would have followed its path.
  lemma {:induction false} SameWouldFollow(p: Prog, np: Np, s: Obs, ignore: bool, l: seq<bool>, res: Obs, fuel: nat)
    requires AtPeace(p, np, s) && Unmended(p, false)
    requires |res.trace| == |s.trace| + |l| && (!ignore ==> !res.err) && res.said == s.said
    requires EvalShows(Eval(p, Start(np, s), World(l, |s.trace|), ignore, None, fuel), res)
    ensures var r := EvalPath(p, l, true, Mode(ignore, false, false)); r.Some? && r.value.0 == |l|
  {
    hide Eval, EvalPath, World;
    var st, m := Start(np, s), Mode(ignore, false, false);
    StopsWithError(p, st, World(l, |s.trace|), ignore, None, fuel);
    var e := Eval(p, st, World(l, |s.trace|), ignore, None, fuel).value.st;
    assert l[0..] == l;
    Falls(p, st, l, |s.trace|, m, None, fuel, e, false);
    Tracks(p, st, l, |s.trace|, m, None, fuel, e, false);
  }

  /** A script that is not faithful gives something other than its meaning in some world, a message
      about a rejected word counted, whether errors stop it or are ignored. */
  lemma {:induction false} UnfaithfulDiffers(p: Prog, np: Np, s: Obs, ignore: bool) returns (env: Env)
    requires AtPeace(p, np, s) && Unmended(p, false) && !Faithful(p, false, false)
    ensures env.ignore == ignore && Loaded(env, p, np, s) && !KeepsMeaning(env, p, np, s)
  {
    hide MeaningPath, EvalPath, Eval, Meaning, MachineGives, AtPeace, Loaded, World;
    var base, m := |s.trace|, Mode(ignore, false, false);
    var l0, broke0 := CanHit(p, m);
    var l, broke := Tells(p, l0, m, broke0);
    HitUses(p, l, m);
    env := Env(Plain(Flatten(p)), World(l, base), ignore);
    PlainIsLoaded(p, np, s, env.o, ignore);
    assert l[0..] == l;
    MeaningFollows(p, s, l, base, m, |l|);
    var mean := Meaning(p, s, env.o, ignore, false, |l|);
    var res := mean.value.obs;
    assert MeaningShows(mean, res) && Means(env, p, s, res);
    MachineIsEval(env, p, np, s, res);
    if EvalGives(env, p, np, s, res) {
      var fuel: nat :| EvalShows(Eval(p, Start(np, s), env.o, env.ignore, None, fuel), res);
      SameWouldFollow(p, np, s, ignore, l, res, fuel);
    }
  }

  /** A well-formed script keeps its meaning in every world and every layout, messages about rejected
      words counted, if and only if it is faithful: with errors that stop it, and with errors that are
      ignored.  If it is, no word is rejected even where it runs for ever. */
  lemma {:induction false} KeepsMeaningIff(p: Prog, np: Np, s: Obs, ignore: bool)
    requires AtPeace(p, np, s) && Unmended(p, false)
    ensures (forall env: Env | env.ignore == ignore && Loaded(env, p, np, s) :: KeepsMeaning(env, p, np, s))
            <==> Faithful(p, false, false)
    ensures Faithful(p, false, false) ==>
              forall env: Env | env.ignore == ignore && Loaded(env, p, np, s) :: RejectsNothing(env, np, s)
  {
    hide KeepsMeaning, RejectsNothing, Faithful, Loaded, AtPeace, Unmended;
    if Faithful(p, false, false) {
      forall env: Env | env.ignore == ignore && Loaded(env, p, np, s)
        ensures KeepsMeaning(env, p, np, s) && RejectsNothing(env, np, s)
      {
        FaithfulKeeps(env, p, np, s);
        FaithfulRejectsNothing(env, p, np, s);
      }
    } else {
      var env := UnfaithfulDiffers(p, np, s, ignore);
    }
  }

  lemma {:induction false} FaithfulKeeps(env: Env, p: Prog, np: Np, s: Obs)
    requires Loaded(env, p, np, s) && Faithful(p, false, false)
    ensures KeepsMeaning(env, p, np, s)
  {
    hide MachineGives, Means, Loaded, Faithful;
    forall res ensures MachineGives(env, np, s, res) <==> Means(env, p, s, res) {
      ScriptMeansItsTree(env, p, np, s, res);
    }
  }
}
