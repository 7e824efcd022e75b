/**
  Pointer sampler, motion scheduler and trail renderer of the page script:
  every pointer move is appended to a bounded history, at most one animation
  frame is pending at a time, and the frame callback places the trail markers
  by sampling that history at a fixed stride.
 */
module CursorTrail {
  import opened Wrappers

  /** Number of trail markers. */
  const TRAIL_LENGTH: nat := 12
  /** History entries between two consecutive markers. */
  const STRIDE: nat := 5
  /** Length above which the oldest sample is dropped. */
  const HISTORY_CAPACITY: nat := TRAIL_LENGTH * 6

  /** One recorded pointer position; `timestamp` is the clock value handed in by the caller. */
  datatype Sample = Sample(x: int, y: int, timestamp: int)

  /**
    What the script has written to one trail marker: the position of its last
    translate() and whether its opacity is above zero. A placed marker has
    opacity 1 - 0.08 * i, which is above zero for every index up to 12; the
    script has TRAIL_LENGTH markers, so `visible` is exact for them, while
    lemmas stated for longer marker sequences treat later indices alike.
   */
  datatype Marker = Marker(x: int, y: int, visible: bool)

  // ---------------------------------------------------------------------------
  // Pointer sampler: push, then shift once if over capacity
  // ---------------------------------------------------------------------------

  function Record(history: seq<Sample>, s: Sample): (r: seq<Sample>)
    ensures |r| > 0 && r[|r| - 1] == s
    ensures |history| < HISTORY_CAPACITY ==> r == history + [s]
    ensures |history| >= HISTORY_CAPACITY ==> r == history[1..] + [s]
    ensures |history| <= HISTORY_CAPACITY ==> |r| <= HISTORY_CAPACITY
  {
    var pushed := history + [s];
    if |pushed| > HISTORY_CAPACITY then pushed[1..] else pushed
  }

  /** The history after recording `moves` one after another. */
  function RecordAll(history: seq<Sample>, moves: seq<Sample>): seq<Sample>
    decreases |moves|
  {
    if moves == [] then history else RecordAll(Record(history, moves[0]), moves[1..])
  }

  /** The last `n` elements of `s` (all of `s` when it is shorter). */
  function Newest(s: seq<Sample>, n: nat): (r: seq<Sample>)
    ensures |r| == Min(n, |s|)
    ensures r == s[|s| - |r|..]
  {
    if |s| <= n then s else s[|s| - n..]
  }

  /** Taking the newest `n` first and appending more keeps the same newest `n`. */
  lemma NewestOfNewest(a: seq<Sample>, b: seq<Sample>, n: nat)
    ensures Newest(Newest(a, n) + b, n) == Newest(a + b, n)
  {
    if |a| > n {
      var a' := a[|a| - n..];
      assert a + b == a[..|a| - n] + (a' + b);
      if |a' + b| > n {
        assert (a + b)[|a + b| - n..] == (a' + b)[|a' + b| - n..];
      }
    }
  }

  /**
    Recording a run of moves into a history that respects the bound yields
    exactly the newest HISTORY_CAPACITY samples of everything seen.
   */
  lemma {:induction false} RecordAllKeepsNewest(history: seq<Sample>, moves: seq<Sample>)
    requires |history| <= HISTORY_CAPACITY
    ensures RecordAll(history, moves) == Newest(history + moves, HISTORY_CAPACITY)
    decreases |moves|
  {
    if moves == [] {
      assert history + moves == history;
    } else {
      var h1 := Record(history, moves[0]);
      assert h1 == Newest(history + [moves[0]], HISTORY_CAPACITY);
      RecordAllKeepsNewest(h1, moves[1..]);
      assert [moves[0]] + moves[1..] == moves;
      NewestThenMore(history, [moves[0]], moves[1..], h1, RecordAll(h1, moves[1..]));
    }
  }

  /** From an empty history, any run of moves leaves at most 72 samples: the newest ones. */
  lemma HistoryBound(moves: seq<Sample>)
    ensures |RecordAll([], moves)| <= HISTORY_CAPACITY
    ensures RecordAll([], moves) == Newest(moves, HISTORY_CAPACITY)
  {
    RecordAllKeepsNewest([], moves);
    assert [] + moves == moves;
  }

  // ---------------------------------------------------------------------------
  // Trail renderer: marker i reads history[L - 1 - STRIDE * i] or is hidden
  // ---------------------------------------------------------------------------

  /**
    The history index marker `i` reads, when the two-sided guard admits it.
    The guard's upper half never rejects anything: the index is always below
    the length, so visibility depends only on `STRIDE * i < length`.
   */
  function SampleIndex(length: nat, i: nat): (r: Option<nat>)
    ensures r.Some? <==> STRIDE * i < length
    ensures r.Some? ==> r.value < length && r.value + STRIDE * i == length - 1
  {
    var k := length - 1 - i * STRIDE;
    if k >= 0 && k < length then Some(k) else None
  }

  /** Marker `i` after one trail update: placed on its sample, or hidden where it was. */
  function Render(prev: Marker, history: seq<Sample>, i: nat): (m: Marker)
    ensures m.visible <==> STRIDE * i < |history|
    ensures m.visible ==>
      m.x == history[|history| - 1 - STRIDE * i].x && m.y == history[|history| - 1 - STRIDE * i].y
    ensures !m.visible ==> m.x == prev.x && m.y == prev.y
  {
    match SampleIndex(|history|, i)
    case Some(k) => Marker(history[k].x, history[k].y, true)
    case None => prev.(visible := false)
  }

  /** All markers after one trail update. */
  function Rendered(prev: seq<Marker>, history: seq<Sample>): (r: seq<Marker>)
    ensures |r| == |prev|
    ensures forall i :: 0 <= i < |r| ==> r[i] == Render(prev[i], history, i)
  {
    seq(|prev|, i requires 0 <= i < |prev| => Render(prev[i], history, i))
  }

  /** Number of visible markers in `ms`. */
  function VisibleCount(ms: seq<Marker>): nat
  {
    if ms == [] then 0 else VisibleCount(ms[..|ms| - 1]) + (if ms[|ms| - 1].visible then 1 else 0)
  }

  function Min(a: int, b: int): int { if a <= b then a else b }

  /**
    A trail shorter than its full spread shows fewer markers instead of
    stacking them: the visible ones are exactly the first ⌈L / STRIDE⌉
    markers (at most all of them), and a hidden marker is never followed by a
    visible one.
   */
  lemma {:induction false} VisibleMarkersArePrefix(prev: seq<Marker>, history: seq<Sample>)
    ensures VisibleCount(Rendered(prev, history)) == Min(|prev|, (|history| + STRIDE - 1) / STRIDE)
    ensures forall i, j :: 0 <= i <= j < |prev| && Rendered(prev, history)[j].visible ==>
      Rendered(prev, history)[i].visible
    decreases |prev|
  {
    var r := Rendered(prev, history);
    if prev != [] {
      var n := |prev| - 1;
      var front := prev[..n];
      VisibleMarkersArePrefix(front, history);
      assert r[..n] == Rendered(front, history);
      var c := (|history| + STRIDE - 1) / STRIDE;
      assert STRIDE * n < |history| <==> n < c;
    }
  }

  /** With 10 samples only markers 0 and 1 show, on samples 9 and 4. */
  lemma TenSamplesShowTwoMarkers(prev: seq<Marker>, history: seq<Sample>)
    requires |prev| == TRAIL_LENGTH && |history| == 10
    ensures Rendered(prev, history)[0] == Marker(history[9].x, history[9].y, true)
    ensures Rendered(prev, history)[1] == Marker(history[4].x, history[4].y, true)
    ensures forall i :: 2 <= i < TRAIL_LENGTH ==> !Rendered(prev, history)[i].visible
    ensures VisibleCount(Rendered(prev, history)) == 2
  {
    VisibleMarkersArePrefix(prev, history);
  }

  // ---------------------------------------------------------------------------
  // Motion scheduler: the abstract state and its two events
  // ---------------------------------------------------------------------------

  /** Opacity 1 - 0.15 * i given when marker i is created is above zero iff 15 * i < 100. */
  function InitialMarker(i: nat): (m: Marker)
    ensures m.x == 0 && m.y == 0
    ensures m.visible <==> i <= 6
  {
    Marker(0, 0, 15 * i < 100)
  }

  /** Last pointer position, history, pending-frame flag and the markers' styles. */
  datatype Motion = Motion(
    mouseX: int, mouseY: int,
    history: seq<Sample>,
    framePending: bool,
    markers: seq<Marker>)

  ghost predicate Bounded(m: Motion)
  {
    |m.history| <= HISTORY_CAPACITY && |m.markers| == TRAIL_LENGTH
  }

  function Start(): (m: Motion)
    ensures Bounded(m) && m.history == [] && !m.framePending
    ensures m.mouseX == 0 && m.mouseY == 0
    ensures forall i :: 0 <= i < |m.markers| ==> m.markers[i].x == 0 && m.markers[i].y == 0
    ensures forall i :: 0 <= i < |m.markers| ==> (m.markers[i].visible <==> i <= 6)
  {
    Motion(0, 0, [], false, seq(TRAIL_LENGTH, i requires 0 <= i => InitialMarker(i)))
  }

  /** A pointer move: record the sample and mark a frame as pending. */
  function Move(m: Motion, x: int, y: int, now: int): (r: Motion)
    ensures r.mouseX == x && r.mouseY == y && r.framePending
    ensures |r.history| > 0 && r.history[|r.history| - 1] == Sample(x, y, now)
    ensures |m.history| < HISTORY_CAPACITY ==> r.history == m.history + [Sample(x, y, now)]
    ensures |m.history| >= HISTORY_CAPACITY ==> r.history == m.history[1..] + [Sample(x, y, now)]
    ensures r.markers == m.markers
    ensures Bounded(m) ==> Bounded(r)
  {
    m.(mouseX := x, mouseY := y, history := Record(m.history, Sample(x, y, now)), framePending := true)
  }

  /** The animation-frame callback: redraw the trail from the history, clear the flag. */
  function Frame(m: Motion): (r: Motion)
    ensures !r.framePending && r.history == m.history && r.mouseX == m.mouseX && r.mouseY == m.mouseY
    ensures |r.markers| == |m.markers|
    ensures forall i :: 0 <= i < |r.markers| ==> (r.markers[i].visible <==> STRIDE * i < |m.history|)
    ensures forall i :: 0 <= i < |r.markers| && STRIDE * i < |m.history| ==>
      r.markers[i].x == m.history[|m.history| - 1 - STRIDE * i].x &&
      r.markers[i].y == m.history[|m.history| - 1 - STRIDE * i].y
    ensures Bounded(m) ==> Bounded(r)
  {
    m.(markers := Rendered(m.markers, m.history), framePending := false)
  }

  datatype MotionEvent = PointerMove(x: int, y: int, now: int) | AnimationFrame

  function Step(m: Motion, e: MotionEvent): Motion
  {
    match e
    case PointerMove(x, y, now) => Move(m, x, y, now)
    case AnimationFrame => Frame(m)
  }

  function Run(m: Motion, es: seq<MotionEvent>): Motion
    decreases |es|
  {
    if es == [] then m else Run(Step(m, es[0]), es[1..])
  }

  /** The platform only calls back a frame that was requested and not yet delivered. */
  predicate Delivered(m: Motion, es: seq<MotionEvent>)
    decreases |es|
  {
    es == [] || ((es[0].AnimationFrame? ==> m.framePending) && Delivered(Step(m, es[0]), es[1..]))
  }

  /** requestAnimationFrame calls made along `es`: one per move that finds no frame pending. */
  function Requests(m: Motion, es: seq<MotionEvent>): nat
    decreases |es|
  {
    if es == [] then 0
    else (if es[0].PointerMove? && !m.framePending then 1 else 0) + Requests(Step(m, es[0]), es[1..])
  }

  function Frames(es: seq<MotionEvent>): nat
  {
    if es == [] then 0 else (if es[0].AnimationFrame? then 1 else 0) + Frames(es[1..])
  }

  /** The samples of the moves in `es`, in order. */
  function MovesOf(es: seq<MotionEvent>): seq<Sample>
  {
    if es == [] then []
    else EventSamples(es[0]) + MovesOf(es[1..])
  }

  function Flag(b: bool): nat { if b then 1 else 0 }

  /**
    Coalescing: every requested frame is either delivered or still the one
    pending, so a burst of moves between two frames asks for one frame only.
   */
  lemma {:induction false} FramesAreCoalesced(m: Motion, es: seq<MotionEvent>)
    requires Delivered(m, es)
    ensures Requests(m, es) + Flag(m.framePending) == Frames(es) + Flag(Run(m, es).framePending)
    decreases |es|
  {
    if es != [] {
      FramesAreCoalesced(Step(m, es[0]), es[1..]);
    }
  }

  /** A burst of moves with no frame in between requests exactly one frame when none was pending. */
  lemma BurstRequestsOneFrame(m: Motion, es: seq<MotionEvent>)
    requires es != [] && forall k :: 0 <= k < |es| ==> es[k].PointerMove?
    ensures Requests(m, es) == Flag(!m.framePending)
    ensures Run(m, es).framePending
  {
    assert Delivered(m, es) by { MovesAreDelivered(m, es); }
    FramesAreCoalesced(m, es);
    NoFramesInMoves(es);
    assert Run(m, es).framePending by { MovesLeavePending(m, es); }
  }

  lemma {:induction false} MovesAreDelivered(m: Motion, es: seq<MotionEvent>)
    requires forall k :: 0 <= k < |es| ==> es[k].PointerMove?
    ensures Delivered(m, es)
    decreases |es|
  {
    if es != [] {
      MovesAreDelivered(Step(m, es[0]), es[1..]);
    }
  }

  lemma {:induction false} NoFramesInMoves(es: seq<MotionEvent>)
    requires forall k :: 0 <= k < |es| ==> es[k].PointerMove?
    ensures Frames(es) == 0
    decreases |es|
  {
    if es != [] {
      NoFramesInMoves(es[1..]);
    }
  }

  lemma {:induction false} MovesLeavePending(m: Motion, es: seq<MotionEvent>)
    requires es != [] && forall k :: 0 <= k < |es| ==> es[k].PointerMove?
    ensures Run(m, es).framePending
    decreases |es|
  {
    if |es| > 1 {
      MovesLeavePending(Step(m, es[0]), es[1..]);
    }
  }

  /** The samples an event contributes: one for a move, none for a frame. */
  function EventSamples(e: MotionEvent): seq<Sample>
  {
    match e
    case PointerMove(x, y, now) => [Sample(x, y, now)]
    case AnimationFrame => []
  }

  lemma StepKeepsNewest(m: Motion, e: MotionEvent)
    requires Bounded(m)
    ensures Bounded(Step(m, e))
    ensures Step(m, e).history == Newest(m.history + EventSamples(e), HISTORY_CAPACITY)
  {
    if e.AnimationFrame? {
      assert m.history + EventSamples(e) == m.history;
    }
  }

  /**
    Along any event sequence the bound holds and the history is the newest
    HISTORY_CAPACITY samples of the old history followed by every move.
   */
  lemma {:induction false} RunKeepsNewest(m: Motion, es: seq<MotionEvent>)
    requires Bounded(m)
    ensures Bounded(Run(m, es))
    ensures Run(m, es).history == Newest(m.history + MovesOf(es), HISTORY_CAPACITY)
    decreases |es|
  {
    if es == [] {
      assert m.history + MovesOf(es) == m.history;
    } else {
      var m1 := Step(m, es[0]);
      StepKeepsNewest(m, es[0]);
      RunKeepsNewest(m1, es[1..]);
      assert MovesOf(es) == EventSamples(es[0]) + MovesOf(es[1..]);
      NewestThenMore(m.history, EventSamples(es[0]), MovesOf(es[1..]), m1.history, Run(m1, es[1..]).history);
    }
  }

  lemma NewestThenMore(h: seq<Sample>, first: seq<Sample>, rest: seq<Sample>, h1: seq<Sample>, out: seq<Sample>)
    requires h1 == Newest(h + first, HISTORY_CAPACITY)
    requires out == Newest(h1 + rest, HISTORY_CAPACITY)
    ensures out == Newest(h + (first + rest), HISTORY_CAPACITY)
  {
    NewestOfNewest(h + first, rest, HISTORY_CAPACITY);
    assert (h + first) + rest == h + (first + rest);
  }

  /** The frame after a move draws the first marker on that move's position (last write wins). */
  lemma FrameShowsLatest(m: Motion, x: int, y: int, now: int)
    requires Bounded(m)
    ensures Frame(Move(m, x, y, now)).markers[0] == Marker(x, y, true)
    ensures !Frame(Move(m, x, y, now)).framePending
  {
  }

  // ---------------------------------------------------------------------------
  // The script's module-level state, updated in place
  // ---------------------------------------------------------------------------

  class Pointer {
    var mouseX: int
    var mouseY: int
    var cursorHistory: seq<Sample>
    /** `animationFrameId` is non-null exactly while a frame is pending. */
    var framePending: bool
    /** The trail marker elements, created once and reused. */
    const arrows: array<Marker>

    ghost predicate Valid()
      reads this
    {
      arrows.Length == TRAIL_LENGTH && |cursorHistory| <= HISTORY_CAPACITY
    }

    function State(): Motion
      reads this, arrows
    {
      Motion(mouseX, mouseY, cursorHistory, framePending, arrows[..])
    }

    /** Module-level initial values and the marker-creation loop. */
    constructor ()
      ensures Valid() && fresh(arrows)
      ensures State() == Start()
    {
      var a := new Marker[TRAIL_LENGTH];
      var i := 0;
      while i < TRAIL_LENGTH
        invariant 0 <= i <= TRAIL_LENGTH
        invariant forall k :: 0 <= k < i ==> a[k] == InitialMarker(k)
      {
        a[i] := InitialMarker(i);
        i := i + 1;
      }
      mouseX, mouseY := 0, 0;
      cursorHistory := [];
      framePending := false;
      arrows := a;
      new;
      assert arrows[..] == Start().markers;
    }

    /** Record the move; request a frame unless one is already pending. */
    method HandleMouseMove(x: int, y: int, now: int) returns (requested: bool)
      requires Valid()
      modifies this
      ensures Valid()
      ensures requested == !old(framePending)
      ensures State() == Move(old(State()), x, y, now)
    {
      mouseX := x;
      mouseY := y;
      cursorHistory := cursorHistory + [Sample(mouseX, mouseY, now)];
      if |cursorHistory| > HISTORY_CAPACITY {
        cursorHistory := cursorHistory[1..];
      }
      requested := !framePending;
      if requested {
        framePending := true;
      }
    }

    /** Place every marker from the current history. */
    method UpdateCursorTrail()
      requires Valid()
      modifies arrows
      ensures arrows[..] == Rendered(old(arrows[..]), cursorHistory)
    {
      var index := 0;
      while index < arrows.Length
        invariant 0 <= index <= arrows.Length
        invariant forall k :: 0 <= k < index ==> arrows[k] == Render(old(arrows[k]), cursorHistory, k)
        invariant forall k :: index <= k < arrows.Length ==> arrows[k] == old(arrows[k])
      {
        var historyIndex := |cursorHistory| - 1 - index * STRIDE;
        if historyIndex >= 0 && historyIndex < |cursorHistory| {
          var pos := cursorHistory[historyIndex];
          arrows[index] := Marker(pos.x, pos.y, true);
        } else {
          arrows[index] := arrows[index].(visible := false);
        }
        index := index + 1;
      }
    }

    /** The requested frame: redraw the trail, then clear the pending flag. */
    method OnAnimationFrame()
      requires Valid()
      modifies this, arrows
      ensures Valid()
      ensures State() == Frame(old(State()))
    {
      UpdateCursorTrail();
      framePending := false;
    }
  }
}
