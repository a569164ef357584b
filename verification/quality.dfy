/**
 * The quality search of `step_convert_logo`: a bounded binary search over
 * the JPEG quality that brings the encoder's output size as close as
 * possible to the original payload's size. The external encoder is an
 * oracle `trial` that maps a quality to the size of the file it produced,
 * or to `None` when no file was produced.
 */
module Quality {
  import opened Wrappers
  import opened Bytes

  /** The loop runs at most this many trials. */
  const MaxTrials: nat := 10
  /** The quality kept when no trial completes. */
  const DefaultQuality: int := 50

  /** The search window: the loop variables `lo` and `hi`. */
  datatype Window = Window(lo: int, hi: int)

  /** The window before the first trial. */
  const Start := Window(1, 95)

  /**
   * The quality tried in window `w`: Python's `(lo + hi) // 2`. Dafny's `/`
   * rounds down for a positive divisor, as Python's `//` does.
   */
  function Mid(w: Window): int {
    (w.lo + w.hi) / 2
  }

  /** The loop goes on after a trial: a file was produced and its size is not the target. */
  predicate Continues(outcome: Option<nat>, target: nat) {
    outcome.Some? && outcome.value != target
  }

  /** A file too large lowers `hi` below the quality tried; one too small raises `lo` above it. */
  function Narrow(w: Window, size: nat, target: nat): (r: Window)
    requires size != target
    ensures InRange(w) ==> InRange(r)
    ensures r.lo <= Mid(w) ==> r.hi < Mid(w)
    ensures size > target ==> r.lo == w.lo && r.hi < Mid(w)
    ensures size < target ==> r.hi == w.hi && Mid(w) < r.lo
  {
    if size > target then Window(w.lo, Mid(w) - 1) else Window(Mid(w) + 1, w.hi)
  }

  /** The bounds the loop variables keep: `lo` in 1..96 and `hi` in -1..95. */
  predicate InRange(w: Window) {
    1 <= w.lo <= 96 && -1 <= w.hi <= 95
  }

  /**
   * Reference schedule: the qualities the loop tries, in order, from window
   * `w` with `n` iterations left. Nothing compares `lo` with `hi`; the loop
   * ends only after `n` trials, at an exact size match, or at a trial that
   * produced no file.
   */
  function TrialsFrom(trial: int -> Option<nat>, target: nat, w: Window, n: nat): (r: seq<int>)
    ensures |r| <= n
    ensures n > 0 ==> |r| > 0 && r[0] == Mid(w)
    decreases n
  {
    if n == 0 then []
    else
      var q := Mid(w);
      var outcome := trial(q);
      if Continues(outcome, target) then [q] + TrialsFrom(trial, target, Narrow(w, outcome.value, target), n - 1)
      else [q]
  }

  /**
   * The schedule from an in-range window: between 1 and `n` trials, each
   * quality in 0..95, every trial but the last continued the loop, and the
   * last one stopped it unless the iteration bound did.
   */
  lemma {:induction false} TrialsShape(trial: int -> Option<nat>, target: nat, w: Window, n: nat)
    requires InRange(w) && n > 0
    ensures var t := TrialsFrom(trial, target, w, n);
      && 1 <= |t| <= n
      && t[0] == Mid(w)
      && (forall i :: 0 <= i < |t| ==> 0 <= t[i] <= 95)
      && (forall i :: 0 <= i < |t| - 1 ==> Continues(trial(t[i]), target))
      && (|t| < n ==> !Continues(trial(t[|t| - 1]), target))
    decreases n
  {
    var q := Mid(w);
    var outcome := trial(q);
    if Continues(outcome, target) && n > 1 {
      var w' := Narrow(w, outcome.value, target);
      assert InRange(w');
      TrialsShape(trial, target, w', n - 1);
      var rest := TrialsFrom(trial, target, w', n - 1);
      var t := TrialsFrom(trial, target, w, n);
      assert t == [q] + rest;
      assert forall i :: 1 <= i < |t| ==> t[i] == rest[i - 1];
    }
  }

  /** Trial `k` of `tried` produced a file. */
  predicate Completed(trial: int -> Option<nat>, tried: seq<int>, k: int) {
    0 <= k < |tried| && trial(tried[k]).Some?
  }

  /** How far the size of completed trial `k` is from the target. */
  function DiffAt(trial: int -> Option<nat>, target: nat, tried: seq<int>, k: int): nat
    requires Completed(trial, tried, k)
  {
    Distance(trial(tried[k]).value, target)
  }

  /**
   * Trial `k` is the earliest completed trial whose size is nearest the
   * target: no completed trial is nearer, and every earlier completed
   * trial is strictly farther (the update uses a strict `<`).
   */
  ghost predicate EarliestNearest(trial: int -> Option<nat>, target: nat, tried: seq<int>, k: int) {
    && Completed(trial, tried, k)
    && (forall j :: Completed(trial, tried, j) ==> DiffAt(trial, target, tried, k) <= DiffAt(trial, target, tried, j))
    && (forall j :: 0 <= j < k && Completed(trial, tried, j) ==> DiffAt(trial, target, tried, k) < DiffAt(trial, target, tried, j))
  }

  /** `q` is the quality the search keeps after trying `tried`. */
  ghost predicate BestQuality(trial: int -> Option<nat>, target: nat, tried: seq<int>, q: int) {
    if exists k :: Completed(trial, tried, k) then
      exists k :: EarliestNearest(trial, target, tried, k) && q == tried[k]
    else
      q == DefaultQuality
  }

  /**
   * The loop's view of the schedule: `done` followed by what remains from
   * window `w` makes up `full`; one more trial moves the split point.
   */
  lemma ScheduleAdvance(trial: int -> Option<nat>, target: nat, full: seq<int>, done: seq<int>, w: Window, n: nat)
    requires n > 0
    requires done + TrialsFrom(trial, target, w, n) == full
    ensures Continues(trial(Mid(w)), target) ==>
      (done + [Mid(w)]) + TrialsFrom(trial, target, Narrow(w, trial(Mid(w)).value, target), n - 1) == full
    ensures !Continues(trial(Mid(w)), target) ==> done + [Mid(w)] == full
  {
  }

  /** The best quality seen so far and its distance from the target (`None`: infinite). */
  datatype Best = Best(quality: int, diff: Option<nat>)

  /**
   * The running best after the trials `tried`, updated from left to right:
   * a completed trial replaces the best only when it is strictly nearer.
   */
  function Track(trial: int -> Option<nat>, target: nat, tried: seq<int>): Best
    decreases |tried|
  {
    if |tried| == 0 then Best(DefaultQuality, None)
    else
      var q := tried[|tried| - 1];
      Update(Track(trial, target, tried[..|tried| - 1]), q, trial(q), target)
  }

  /** Lines 276-279: `if diff < best_diff: best_diff, best_quality = diff, mid`. */
  function Update(b: Best, q: int, outcome: Option<nat>, target: nat): (r: Best)
    ensures outcome.None? ==> r == b
    ensures r == b || r.quality == q
    ensures outcome.Some? ==> r.diff.Some? && r.diff.value <= Distance(outcome.value, target)
    ensures b.diff.Some? ==> r.diff.Some? && r.diff.value <= b.diff.value
    ensures r.quality == q && r != b ==> b.diff.None? || Distance(outcome.value, target) < b.diff.value
    ensures outcome.Some? ==> r.diff == Some(Distance(outcome.value, target)) || r.diff == b.diff
  {
    if outcome.Some? && (b.diff.None? || Distance(outcome.value, target) < b.diff.value)
    then Best(q, Some(Distance(outcome.value, target)))
    else b
  }

  /** After a completed trial the stored distance is the smaller of the old best and this trial's. */
  lemma UpdateStoresMinimum(b: Best, q: int, outcome: Option<nat>, target: nat)
    requires outcome.Some?
    ensures Update(b, q, outcome, target).diff == Some(
      if b.diff.Some? && b.diff.value <= Distance(outcome.value, target) then b.diff.value
      else Distance(outcome.value, target))
  {
  }

  /** Appending one trial updates the running best as the loop body does. */
  lemma TrackStep(trial: int -> Option<nat>, target: nat, prev: seq<int>, q: int)
    ensures Track(trial, target, prev + [q]) == Update(Track(trial, target, prev), q, trial(q), target)
  {
  }

  /**
   * The running best the loop ends with when it starts in window `w` with
   * running best `b` and `n` iterations left: the schedule of `TrialsFrom`
   * with the update of `Update` applied at each trial.
   */
  function Simulate(trial: int -> Option<nat>, target: nat, w: Window, b: Best, n: nat): Best
    decreases n
  {
    if n == 0 then b
    else
      var q := Mid(w);
      var outcome := trial(q);
      var b' := Update(b, q, outcome, target);
      if Continues(outcome, target) then Simulate(trial, target, Narrow(w, outcome.value, target), b', n - 1)
      else b'
  }

  /** The loop's final best is the running best over the whole schedule. */
  lemma {:induction false} SimulateTracks(trial: int -> Option<nat>, target: nat, prev: seq<int>, w: Window, n: nat)
    ensures Simulate(trial, target, w, Track(trial, target, prev), n) == Track(trial, target, prev + TrialsFrom(trial, target, w, n))
    decreases n, 1
  {
    if n == 0 {
      assert TrialsFrom(trial, target, w, n) == [];
      assert prev + [] == prev;
    } else {
      SimulateTracksStep(trial, target, prev, w, n);
    }
  }

  /** The inductive step of `SimulateTracks`: one trial, then the rest of the schedule. */
  lemma {:induction false} SimulateTracksStep(trial: int -> Option<nat>, target: nat, prev: seq<int>, w: Window, n: nat)
    requires n > 0
    ensures Simulate(trial, target, w, Track(trial, target, prev), n) == Track(trial, target, prev + TrialsFrom(trial, target, w, n))
    decreases n, 0
  {
    var q := Mid(w);
    var outcome := trial(q);
    var b := Track(trial, target, prev);
    TrackStep(trial, target, prev, q);
    if Continues(outcome, target) {
      var w' := Narrow(w, outcome.value, target);
      assert Simulate(trial, target, w, b, n) == Simulate(trial, target, w', Track(trial, target, prev + [q]), n - 1);
      SimulateTracks(trial, target, prev + [q], w', n - 1);
      assert TrialsFrom(trial, target, w, n) == [q] + TrialsFrom(trial, target, w', n - 1);
      assert prev + TrialsFrom(trial, target, w, n) == (prev + [q]) + TrialsFrom(trial, target, w', n - 1);
    } else {
      assert Simulate(trial, target, w, b, n) == Track(trial, target, prev + [q]);
      assert TrialsFrom(trial, target, w, n) == [q];
    }
  }

  /** From the starting window, the loop's final best is the running best over the schedule. */
  lemma SimulateFromStart(trial: int -> Option<nat>, target: nat)
    ensures Simulate(trial, target, Start, Best(DefaultQuality, None), MaxTrials)
         == Track(trial, target, TrialsFrom(trial, target, Start, MaxTrials))
  {
    var tried := TrialsFrom(trial, target, Start, MaxTrials);
    assert [] + tried == tried;
    SimulateTracks(trial, target, [], Start, MaxTrials);
  }

  /**
   * The running best is the earliest completed trial nearest the target,
   * with its distance; it stays at quality 50 with an infinite distance
   * while no trial has completed.
   */
  lemma {:induction false} TrackIsEarliestNearest(trial: int -> Option<nat>, target: nat, tried: seq<int>)
    ensures var b := Track(trial, target, tried);
      && (b.diff.None? <==> forall j :: !Completed(trial, tried, j))
      && (b.diff.None? ==> b.quality == DefaultQuality)
      && (b.diff.Some? ==> exists k :: EarliestNearest(trial, target, tried, k) && b.quality == tried[k]
                                        && b.diff.value == DiffAt(trial, target, tried, k))
    decreases |tried|
  {
    if |tried| > 0 {
      var n := |tried| - 1;
      var prev := tried[..n];
      TrackIsEarliestNearest(trial, target, prev);
      forall j | 0 <= j < n
        ensures tried[j] == prev[j]
        ensures Completed(trial, tried, j) == Completed(trial, prev, j)
      {
      }
      forall j | 0 <= j < n && Completed(trial, prev, j)
        ensures DiffAt(trial, target, tried, j) == DiffAt(trial, target, prev, j)
      {
      }
      var b := Track(trial, target, prev);
      var q := tried[n];
      if b.diff.None? {
        forall j | 0 <= j < n
          ensures !Completed(trial, tried, j)
        {
          assert !Completed(trial, prev, j);
        }
        if trial(q).Some? {
          assert EarliestNearest(trial, target, tried, n);
        }
      } else {
        var k :| EarliestNearest(trial, target, prev, k) && b.quality == prev[k] && b.diff.value == DiffAt(trial, target, prev, k);
        assert Completed(trial, tried, k);
        if trial(q).Some? && Distance(trial(q).value, target) < b.diff.value {
          assert EarliestNearest(trial, target, tried, n);
        } else {
          assert EarliestNearest(trial, target, tried, k);
        }
      }
    }
  }

  /**
   * One iteration of the loop of lines 264-286 from window `w` and running
   * best `b`, with `n` iterations left: try `mid = (lo + hi) // 2`, update the
   * best, and stop or narrow the window. `done` is what was tried before; the
   * results keep the loop's view of the reference schedule and final best.
   */
  method Step(trial: int -> Option<nat>, target: nat, ghost schedule: seq<int>, ghost final: Best,
              ghost done: seq<int>, w: Window, b: Best, n: nat)
    returns (mid: int, w': Window, b': Best, stop: bool)
    requires n > 0 && InRange(w)
    requires done + TrialsFrom(trial, target, w, n) == schedule
    requires Simulate(trial, target, w, b, n) == final
    ensures mid == Mid(w) && InRange(w')
    ensures !stop ==> (done + [mid]) + TrialsFrom(trial, target, w', n - 1) == schedule
    ensures !stop ==> Simulate(trial, target, w', b', n - 1) == final
    ensures stop ==> done + [mid] == schedule && b' == final
  {
    mid := (w.lo + w.hi) / 2;
    var outcome := trial(mid);
    ScheduleAdvance(trial, target, schedule, done, w, n);
    b' := Update(b, mid, outcome, target);
    stop := !Continues(outcome, target);
    w' := w;
    if !stop {
      w' := Narrow(w, outcome.value, target);
    }
  }

  /**
   * The loop of lines 264-286: it tries the qualities of the reference
   * schedule and keeps the running best.
   */
  method RunTrials(trial: int -> Option<nat>, target: nat) returns (best: int, tried: seq<int>)
    ensures tried == TrialsFrom(trial, target, Start, MaxTrials)
    ensures Simulate(trial, target, Start, Best(DefaultQuality, None), MaxTrials).quality == best
    ensures Track(trial, target, tried).quality == best
  {
    var lo, hi := 1, 95;
    best := DefaultQuality;
    var bestDiff: Option<nat> := None;  // float('inf')
    tried := [];
    ghost var schedule := TrialsFrom(trial, target, Start, MaxTrials);
    ghost var final := Simulate(trial, target, Start, Best(best, bestDiff), MaxTrials);
    var i := 0;
    var stop := false;
    while i < MaxTrials && !stop
      invariant 0 <= i <= MaxTrials
      invariant InRange(Window(lo, hi))
      invariant !stop ==> tried + TrialsFrom(trial, target, Window(lo, hi), MaxTrials - i) == schedule
      invariant !stop ==> Simulate(trial, target, Window(lo, hi), Best(best, bestDiff), MaxTrials - i) == final
      invariant stop ==> tried == schedule && Best(best, bestDiff) == final
      decreases MaxTrials - i
    {
      var mid, w', b';
      mid, w', b', stop := Step(trial, target, schedule, final, tried, Window(lo, hi), Best(best, bestDiff), MaxTrials - i);
      tried := tried + [mid];
      lo, hi := w'.lo, w'.hi;
      best, bestDiff := b'.quality, b'.diff;
      i := i + 1;
    }
    SimulateFromStart(trial, target);
  }

  /**
   * Lines 260-286: runs the trials of the reference schedule and keeps the
   * quality of the earliest trial nearest the target, or 50 when no trial
   * produced a file. `tried` lists the qualities tried, in order.
   */
  method ChooseQuality(trial: int -> Option<nat>, target: nat) returns (best: int, tried: seq<int>)
    ensures tried == TrialsFrom(trial, target, Start, MaxTrials)
    ensures 1 <= |tried| <= MaxTrials && tried[0] == 48
    ensures forall i :: 0 <= i < |tried| ==> 0 <= tried[i] <= 95
    ensures BestQuality(trial, target, tried, best)
  {
    best, tried := RunTrials(trial, target);
    assert 1 <= |tried| <= MaxTrials && tried[0] == 48 && forall i :: 0 <= i < |tried| ==> 0 <= tried[i] <= 95 by {
      TrialsShape(trial, target, Start, MaxTrials);
    }
    assert BestQuality(trial, target, tried, best) by {
      TrackIsEarliestNearest(trial, target, tried);
    }
  }

  /**
   * What one run of the encoder reports: its exit status, and the size of
   * the file it left behind (`None` when no file exists).
   */
  datatype EncodeRun = EncodeRun(exitStatus: int, size: Option<nat>)

  /** Why the final encode stops the run. */
  datatype EncodeError =
    | EncoderFailed(status: int) // a non-zero exit status (the default `check=True` of `run`, lines 44-50)
    | NoOutput                   // exit status 0 but no file to measure (line 295)

  /**
   * Lines 260-295: the search followed by the final encode at the chosen
   * quality. The trials run the encoder with `check=False` and look only at
   * the file (oracle `trial`); the final encode is a separate call, `final`,
   * whose non-zero exit status stops the run before the file is measured.
   * `quality` is the quality chosen; `r` is the size of the final file.
   */
  method ConvertLogo(trial: int -> Option<nat>, final: int -> EncodeRun, target: nat)
    returns (quality: int, r: Result<nat, EncodeError>)
    ensures BestQuality(trial, target, TrialsFrom(trial, target, Start, MaxTrials), quality)
    ensures r.Success? <==> final(quality).exitStatus == 0 && final(quality).size.Some?
    ensures r.Success? ==> final(quality).size == Some(r.value)
    ensures final(quality).exitStatus != 0 ==> r == Failure(EncoderFailed(final(quality).exitStatus))
    ensures final(quality).exitStatus == 0 && final(quality).size.None? ==> r == Failure(NoOutput)
  {
    var tried;
    quality, tried := ChooseQuality(trial, target);
    var run := final(quality);
    if run.exitStatus != 0 {
      return quality, Failure(EncoderFailed(run.exitStatus));
    }
    if run.size.None? {
      return quality, Failure(NoOutput);
    }
    return quality, Success(run.size.value);
  }

  /**
   * When every file comes out too large, `hi` falls below `lo` after six
   * trials and the loop keeps trying quality 0 until the bound of ten.
   */
  lemma AlwaysTooLarge(target: nat)
    ensures TrialsFrom(_ => Some(target + 1), target, Start, MaxTrials) == [48, 24, 12, 6, 3, 1, 0, 0, 0, 0]
  {
  }
}
