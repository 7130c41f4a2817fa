/** The observable timeline of a photo session. Timers are not run: every
    awaited `setTimeout` becomes a `Wait(ms)` step, every `setActiveCountdown`
    a `Show(value)` step, every `captureFrame` call a `Capture(outcome)` step,
    and the hand-over to the compositor a `Compose` step. The functions below
    say which timeline a session produces; the lemmas say what that timeline
    shows and how long it takes. */
module Timeline {
  import opened Types
  import opened Constants
  import opened Canvas2D

  datatype Step =
    | Show(count: int)
    | Wait(ms: nat)
    | Overlay(shown: bool)
    | Capture(outcome: Option<Raster>)
    | Compose(photos: seq<Raster>, layout: LayoutType)

  const TICK_MS: nat := 1000
  const FLASH_MS: nat := 100
  const SETTLE_MS: nat := 50
  const SHUTTER_MS: nat := 150
  const PAUSE_MS: nat := 1000

  /** The countdown ticks still to come when the loop variable has gone from
      `d` down to `s`: each tick waits a second, then shows one less. */
  function Ticks(d: int, s: int): seq<Step>
    decreases d - s
  {
    if s >= d then [] else Ticks(d, s + 1) + [Wait(TICK_MS), Show(s)]
  }

  /** The delay between the countdown reaching zero and the capture. */
  function Shutter(flash: bool): seq<Step>
  {
    if flash then [Overlay(true), Wait(FLASH_MS), Overlay(false), Wait(SETTLE_MS)]
    else [Wait(SHUTTER_MS)]
  }

  /** What precedes a capture: show `d`, count down to zero, wait for the shutter. */
  function Prelude(d: int, flash: bool): seq<Step>
  {
    [Show(d)] + Ticks(d, 0) + Shutter(flash)
  }

  /** One shot: the prelude, then the capture. */
  function Shot(d: int, flash: bool, outcome: Option<Raster>): seq<Step>
  {
    Prelude(d, flash) + [Capture(outcome)]
  }

  /** The pause after shot `i`: a second, except after the last shot. */
  function Pause(i: nat): seq<Step>
  {
    if i < PHOTOS_PER_SESSION - 1 then [Wait(PAUSE_MS)] else []
  }

  /** One pass of the session loop for shot `i`: the shot, then its pause if the capture succeeded. */
  function Turn(d: int, flash: bool, i: nat, outcome: Option<Raster>): seq<Step>
  {
    Shot(d, flash, outcome) + (if outcome.Some? then Pause(i) else [])
  }

  /** The shots whose capture outcomes are `outs`, each successful one followed by its pause. */
  function Shots(d: int, flash: bool, outs: seq<Option<Raster>>): seq<Step>
  {
    if outs == [] then []
    else
      var i := |outs| - 1;
      Shots(d, flash, outs[..i]) + Turn(d, flash, i, outs[i])
  }

  /** How many of the outcomes are reached: all up to and including the first failure. */
  function Attempted(outs: seq<Option<Raster>>): (n: nat)
    ensures n <= |outs| && (n == 0 <==> outs == [])
    ensures forall k :: 0 <= k < n - 1 ==> outs[k].Some?
    ensures n < |outs| ==> outs[n - 1].None?
    ensures n == |outs| && n > 0 && outs[n - 1].Some? ==> forall k :: 0 <= k < |outs| ==> outs[k].Some?
  {
    if outs == [] then 0
    else if outs[0].None? then 1
    else 1 + Attempted(outs[1..])
  }

  predicate AllCaptured(outs: seq<Option<Raster>>)
  {
    forall k :: 0 <= k < |outs| ==> outs[k].Some?
  }

  /** The photos of successful captures, in capture order. */
  function Photos(outs: seq<Option<Raster>>): (r: seq<Raster>)
    ensures |r| <= |outs|
    ensures AllCaptured(outs) ==> |r| == |outs| && forall k :: 0 <= k < |outs| ==> r[k] == outs[k].value
  {
    if outs == [] then []
    else
      var i := |outs| - 1;
      Photos(outs[..i]) + (if outs[i].Some? then [outs[i].value] else [])
  }

  /** The whole timeline of a session that was allowed to start: its shots up to
      the first failed capture, then, when every capture succeeded, one
      hand-over of the photos to the compositor with the layout. */
  function Session(d: int, flash: bool, layout: LayoutType, outcomes: seq<Option<Raster>>): seq<Step>
  {
    var n := Attempted(outcomes);
    Shots(d, flash, outcomes[..n]) +
      (if AllCaptured(outcomes) then [Compose(Photos(outcomes), layout)] else [])
  }

  /** The countdown values a timeline shows, in order. */
  function Shown(t: seq<Step>): seq<int>
  {
    if t == [] then [] else (if t[0].Show? then [t[0].count] else []) + Shown(t[1..])
  }

  /** The milliseconds a timeline spends waiting. */
  function Elapsed(t: seq<Step>): nat
  {
    if t == [] then 0 else (if t[0].Wait? then t[0].ms else 0) + Elapsed(t[1..])
  }

  /** The capture outcomes a timeline records, in order. */
  function Captures(t: seq<Step>): seq<Option<Raster>>
  {
    if t == [] then [] else (if t[0].Capture? then [t[0].outcome] else []) + Captures(t[1..])
  }

  /** The compositor hand-overs a timeline records, in order. */
  function Compositions(t: seq<Step>): seq<Step>
  {
    if t == [] then [] else (if t[0].Compose? then [t[0]] else []) + Compositions(t[1..])
  }

  /** `d, d-1, ..., 0`. */
  function Countdown(d: nat): (r: seq<int>)
    ensures |r| == d + 1
    ensures forall k :: 0 <= k <= d ==> r[k] == d - k
  {
    seq(d + 1, k => d - k)
  }

  /** The four measures distribute over concatenation. */
  lemma {:induction false} MeasuresAppend(a: seq<Step>, b: seq<Step>)
    ensures Shown(a + b) == Shown(a) + Shown(b)
    ensures Elapsed(a + b) == Elapsed(a) + Elapsed(b)
    ensures Captures(a + b) == Captures(a) + Captures(b)
    ensures Compositions(a + b) == Compositions(a) + Compositions(b)
  {
    if a != [] {
      var ab := a + b;
      assert ab[0] == a[0] && ab[1..] == a[1..] + b;
      MeasuresAppend(a[1..], b);
      var sh := if a[0].Show? then [a[0].count] else [];
      assert Shown(ab) == sh + Shown(a[1..] + b);
      assert Shown(a) == sh + Shown(a[1..]);
      assert sh + (Shown(a[1..]) + Shown(b)) == (sh + Shown(a[1..])) + Shown(b);
      var ca := if a[0].Capture? then [a[0].outcome] else [];
      assert Captures(ab) == ca + Captures(a[1..] + b);
      assert Captures(a) == ca + Captures(a[1..]);
      assert ca + (Captures(a[1..]) + Captures(b)) == (ca + Captures(a[1..])) + Captures(b);
      var co := if a[0].Compose? then [a[0]] else [];
      assert Compositions(ab) == co + Compositions(a[1..] + b);
      assert Compositions(a) == co + Compositions(a[1..]);
      assert co + (Compositions(a[1..]) + Compositions(b)) == (co + Compositions(a[1..])) + Compositions(b);
    } else {
      assert a + b == b;
    }
  }

  /** The measures of a one-step timeline. */
  lemma MeasuresOne(x: Step)
    ensures Shown([x]) == (if x.Show? then [x.count] else [])
    ensures Elapsed([x]) == (if x.Wait? then x.ms else 0)
    ensures Captures([x]) == (if x.Capture? then [x.outcome] else [])
    ensures Compositions([x]) == (if x.Compose? then [x] else [])
  {
    assert [x][1..] == [];
  }

  /** The measures of a two-step timeline. */
  lemma MeasuresTwo(x: Step, y: Step)
    ensures Shown([x, y]) == Shown([x]) + Shown([y]) && Elapsed([x, y]) == Elapsed([x]) + Elapsed([y])
    ensures Captures([x, y]) == Captures([x]) + Captures([y])
    ensures Compositions([x, y]) == Compositions([x]) + Compositions([y])
  {
    assert [x, y] == [x] + [y];
    MeasuresAppend([x], [y]);
  }

  /** The ticks from `d` down to `s` show `d-1, ..., s` and take a second each. */
  lemma {:induction false} TicksMeasures(d: int, s: int)
    requires 0 <= s <= d
    decreases d - s
    ensures Shown(Ticks(d, s)) == seq(d - s, k => d - 1 - k)
    ensures Elapsed(Ticks(d, s)) == TICK_MS * (d - s)
    ensures Captures(Ticks(d, s)) == [] && Compositions(Ticks(d, s)) == []
  {
    if s < d {
      TicksMeasures(d, s + 1);
      MeasuresAppend(Ticks(d, s + 1), [Wait(TICK_MS), Show(s)]);
      MeasuresTwo(Wait(TICK_MS), Show(s));
      MeasuresOne(Wait(TICK_MS));
      MeasuresOne(Show(s));
    }
  }

  /** The shutter delay is 150 ms with or without the flash, and shows and captures nothing. */
  lemma ShutterMeasures(flash: bool)
    ensures Shown(Shutter(flash)) == [] && Elapsed(Shutter(flash)) == SHUTTER_MS
    ensures Captures(Shutter(flash)) == [] && Compositions(Shutter(flash)) == []
  {
    if flash {
      var x, y := [Overlay(true), Wait(FLASH_MS)], [Overlay(false), Wait(SETTLE_MS)];
      assert Shutter(flash) == x + y;
      MeasuresAppend(x, y);
      MeasuresTwo(Overlay(true), Wait(FLASH_MS));
      MeasuresTwo(Overlay(false), Wait(SETTLE_MS));
      MeasuresOne(Overlay(true));
      MeasuresOne(Wait(FLASH_MS));
      MeasuresOne(Overlay(false));
      MeasuresOne(Wait(SETTLE_MS));
    } else {
      MeasuresOne(Wait(SHUTTER_MS));
    }
  }

  /** Showing `d` and counting down shows `d, ..., 0` and takes a second per tick. */
  lemma CountdownMeasures(d: nat)
    ensures Shown([Show(d)] + Ticks(d, 0)) == Countdown(d)
    ensures Elapsed([Show(d)] + Ticks(d, 0)) == TICK_MS * d
    ensures Captures([Show(d)] + Ticks(d, 0)) == [] && Compositions([Show(d)] + Ticks(d, 0)) == []
  {
    TicksMeasures(d, 0);
    MeasuresOne(Show(d));
    MeasuresAppend([Show(d)], Ticks(d, 0));
    CountdownFirst(d);
  }

  /** The countdown from `d` is `d` followed by the values the ticks show. */
  lemma CountdownFirst(d: nat)
    ensures [d] + seq(d, k => d - 1 - k) == Countdown(d)
  {
    var shown := [d] + seq(d, k => d - 1 - k);
    assert forall k :: 0 <= k <= d ==> shown[k] == Countdown(d)[k];
  }

  /** A shot with countdown `d` shows exactly `d, d-1, ..., 0` before its capture,
      and takes `1000·d + 150` ms whether the flash is on (100 + 50) or off (150). */
  lemma ShotMeasures(d: nat, flash: bool, outcome: Option<Raster>)
    ensures Shown(Shot(d, flash, outcome)) == Countdown(d)
    ensures Elapsed(Shot(d, flash, outcome)) == TICK_MS * d + SHUTTER_MS
    ensures Captures(Shot(d, flash, outcome)) == [outcome]
    ensures Compositions(Shot(d, flash, outcome)) == []
  {
    var ab := [Show(d)] + Ticks(d, 0);
    var c := Shutter(flash);
    var e := [Capture(outcome)];
    CountdownMeasures(d);
    ShutterMeasures(flash);
    MeasuresOne(Capture(outcome));
    MeasuresAppend(ab, c);
    MeasuresAppend(ab + c, e);
  }

  /** A successful shot and the pause after it. */
  lemma ShotAndPauseMeasures(d: nat, flash: bool, photo: Raster, i: nat)
    ensures Shown(Shot(d, flash, Some(photo)) + Pause(i)) == Countdown(d)
    ensures Elapsed(Shot(d, flash, Some(photo)) + Pause(i)) ==
              ShotTime(d) + (if i < PHOTOS_PER_SESSION - 1 then PAUSE_MS else 0)
    ensures Captures(Shot(d, flash, Some(photo)) + Pause(i)) == [Some(photo)]
    ensures Compositions(Shot(d, flash, Some(photo)) + Pause(i)) == []
  {
    ShotMeasures(d, flash, Some(photo));
    MeasuresAppend(Shot(d, flash, Some(photo)), Pause(i));
    MeasuresOne(Wait(PAUSE_MS));
    assert Pause(i) == [] || Pause(i) == [Wait(PAUSE_MS)];
  }

  /** The time one shot takes, countdown and shutter. */
  function ShotTime(d: nat): nat
  {
    TICK_MS * d + SHUTTER_MS
  }

  /** The pauses that follow `n` successful shots. */
  function Pauses(n: nat): nat
  {
    if n < PHOTOS_PER_SESSION then n else PHOTOS_PER_SESSION - 1
  }

  /** `n` copies of `s`, one after another. */
  function Repeat(s: seq<int>, n: nat): (r: seq<int>)
    ensures |r| == |s| * n
  {
    if n == 0 then [] else Repeat(s, n - 1) + s
  }

  /** Shots that all succeed show the countdown once per shot, record their
      photos in order and never hand anything to the compositor. */
  lemma {:induction false} ShotsMeasures(d: nat, flash: bool, outs: seq<Option<Raster>>)
    requires AllCaptured(outs)
    ensures Shown(Shots(d, flash, outs)) == Repeat(Countdown(d), |outs|)
    ensures Captures(Shots(d, flash, outs)) == outs
    ensures Compositions(Shots(d, flash, outs)) == []
  {
    if outs != [] {
      var i := |outs| - 1;
      assert outs[..i] + [outs[i]] == outs;
      ShotsMeasures(d, flash, outs[..i]);
      var a := Shots(d, flash, outs[..i]);
      var b := Turn(d, flash, i, outs[i]);
      assert b == Shot(d, flash, outs[i]) + Pause(i);
      ShotAndPauseMeasures(d, flash, outs[i].value, i);
      MeasuresAppend(a, b);
      assert Shots(d, flash, outs) == a + b;
    }
  }

  /** An arithmetic rearrangement step for `ShotsElapsed` only; it models
      nothing of the booth. Kept apart so that the nonlinear product stays out
      of that lemma's context. */
  lemma Distribute(i: nat, x: nat)
    ensures (i + 1) * x == i * x + x
  {
  }

  /** Shots that all succeed take each shot's time plus a pause after each of
      the first three. */
  lemma {:induction false} ShotsElapsed(d: nat, flash: bool, outs: seq<Option<Raster>>)
    requires AllCaptured(outs)
    ensures Elapsed(Shots(d, flash, outs)) == |outs| * ShotTime(d) + PAUSE_MS * Pauses(|outs|)
  {
    if outs != [] {
      var i := |outs| - 1;
      ShotsElapsed(d, flash, outs[..i]);
      var a := Shots(d, flash, outs[..i]);
      var b := Turn(d, flash, i, outs[i]);
      assert b == Shot(d, flash, outs[i]) + Pause(i);
      ShotAndPauseMeasures(d, flash, outs[i].value, i);
      MeasuresAppend(a, b);
      assert Shots(d, flash, outs) == a + b;
      Distribute(i, ShotTime(d));
    }
  }

  /** A session whose every capture succeeds shows `d, ..., 0` before each of
      its PHOTOS_PER_SESSION captures, records them in order, and hands exactly
      those photos to the compositor exactly once, with the layout. */
  lemma SuccessfulSession(d: nat, flash: bool, layout: LayoutType, outcomes: seq<Option<Raster>>)
    requires |outcomes| == PHOTOS_PER_SESSION && AllCaptured(outcomes)
    ensures Shown(Session(d, flash, layout, outcomes)) == Repeat(Countdown(d), PHOTOS_PER_SESSION)
    ensures Captures(Session(d, flash, layout, outcomes)) == outcomes
    ensures Compositions(Session(d, flash, layout, outcomes)) == [Compose(Photos(outcomes), layout)]
  {
    AttemptedAll(outcomes);
    ShotsMeasures(d, flash, outcomes);
    MeasuresAppend(Shots(d, flash, outcomes), [Compose(Photos(outcomes), layout)]);
    MeasuresOne(Compose(Photos(outcomes), layout));
  }

  /** A session whose every capture succeeds waits `4·(1000·d + 150) + 3·1000` ms in all. */
  lemma SuccessfulSessionElapsed(d: nat, flash: bool, layout: LayoutType, outcomes: seq<Option<Raster>>)
    requires |outcomes| == PHOTOS_PER_SESSION && AllCaptured(outcomes)
    ensures Elapsed(Session(d, flash, layout, outcomes)) == 4 * (TICK_MS * d + SHUTTER_MS) + 3 * PAUSE_MS
  {
    AttemptedAll(outcomes);
    ShotsElapsed(d, flash, outcomes);
    MeasuresAppend(Shots(d, flash, outcomes), [Compose(Photos(outcomes), layout)]);
    MeasuresOne(Compose(Photos(outcomes), layout));
  }

  /** When every capture succeeds, every one is attempted. */
  lemma {:induction false} AttemptedAll(outcomes: seq<Option<Raster>>)
    requires AllCaptured(outcomes)
    ensures Attempted(outcomes) == |outcomes| && outcomes[..Attempted(outcomes)] == outcomes
  {
    if outcomes != [] {
      AttemptedAll(outcomes[1..]);
    }
  }

  /** The first failed capture is the last one attempted. */
  lemma {:induction false} AttemptedUpToFailure(outcomes: seq<Option<Raster>>, k: nat)
    requires k < |outcomes| && outcomes[k].None? && forall j :: 0 <= j < k ==> outcomes[j].Some?
    ensures Attempted(outcomes) == k + 1 && !AllCaptured(outcomes)
  {
    if k > 0 {
      AttemptedUpToFailure(outcomes[1..], k - 1);
    }
  }

  /** A session whose capture number `k` fails (the earlier ones succeeding)
      records exactly `k + 1` captures and never hands anything to the compositor. */
  lemma FailedSession(d: nat, flash: bool, layout: LayoutType, outcomes: seq<Option<Raster>>, k: nat)
    requires |outcomes| == PHOTOS_PER_SESSION && k < |outcomes|
    requires outcomes[k].None? && forall j :: 0 <= j < k ==> outcomes[j].Some?
    ensures Captures(Session(d, flash, layout, outcomes)) == outcomes[..k + 1]
    ensures Compositions(Session(d, flash, layout, outcomes)) == []
  {
    var pre := outcomes[..k];
    assert pre + [outcomes[k]] == outcomes[..k + 1];
    FailedSessionSteps(d, flash, layout, outcomes, k);
    assert AllCaptured(pre);
    ShotsMeasures(d, flash, pre);
    ShotMeasures(d, flash, outcomes[k]);
    MeasuresAppend(Shots(d, flash, pre), Shot(d, flash, outcomes[k]));
  }

  /** A session whose capture number `k` is its first failure consists of the
      `k` successful shots and the failed one, with nothing after it. */
  lemma FailedSessionSteps(d: int, flash: bool, layout: LayoutType, outcomes: seq<Option<Raster>>, k: nat)
    requires k < |outcomes| && outcomes[k].None? && forall j :: 0 <= j < k ==> outcomes[j].Some?
    ensures Session(d, flash, layout, outcomes) == Shots(d, flash, outcomes[..k]) + Shot(d, flash, outcomes[k])
  {
    AttemptedUpToFailure(outcomes, k);
    var taken := outcomes[..k + 1];
    assert taken[..k] == outcomes[..k];
    assert taken[k] == outcomes[k];
    assert Shots(d, flash, taken) == Shots(d, flash, outcomes[..k]) + Turn(d, flash, k, outcomes[k]);
    assert Turn(d, flash, k, outcomes[k]) == Shot(d, flash, outcomes[k]) + [];
    assert Session(d, flash, layout, outcomes) == Shots(d, flash, taken) + [];
  }
}
