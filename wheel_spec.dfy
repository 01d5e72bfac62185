// The values the wheel works on and the functions that specify one animation
// frame of its state machine (wom.js, class Wheel).

module WheelSpec {

  /** The six states of the wheel (STATE_START = 0 ... STATE_STOPPED = 5). */
  datatype State = Start | Spinning | StartFade | Fading | PickVictim | Stopped

  /** A drawable tile: an opaque handle to one of the page's images. */
  datatype Tile = Tile(handle: nat)

  datatype Option<T> = None | Some(value: T)

  /** What one drawing call put on the canvas: a tile of the ring, rotated by
      `degrees`, or the victim drawn over the whole canvas. */
  datatype Draw = RingTile(tile: Tile, degrees: real) | Whole(tile: Tile)

  /** How the victim's index is chosen: the value `draw` returned by the random
      number source (`Math.random`, in [0, 1)), or always the first tile, the
      alternative the source keeps commented out. */
  datatype Choice = First | Random(draw: real)

  /** A choice whose draw lies where `Math.random` puts it. */
  type Pick = c: Choice | c.Random? ==> 0.0 <= c.draw < 1.0 witness First

  /** The canvas opacity in hundredths: 100 is opacity 1. */
  const Opaque: int := 100
  /** How much one fading frame lowers the opacity: 0.01. */
  const FadeStep: int := 1

  /** The part of the wheel's state that the transition rule reads and writes. */
  datatype Snapshot = Snapshot(state: State, images: seq<Tile>, victim: Option<Tile>, opacity: int)

  /** What one frame does: the new snapshot, and whether it asks for another frame. */
  datatype Outcome = Outcome(next: Snapshot, again: bool)

  predicate NoDup<T(==)>(s: seq<T>) {
    forall i, j :: 0 <= i < j < |s| ==> s[i] != s[j]
  }

  // ---------------------------------------------------------------------
  // Button gating

  /** The button may be pressed exactly when tiles remain and the wheel is idle. */
  predicate ButtonEnabled(poolSize: nat, s: State) {
    poolSize > 0 && (s == Start || s == Stopped)
  }

  // ---------------------------------------------------------------------
  // Victim selection

  /** `Math.floor(Math.random() * n)`, or 0 for the sequential alternative. */
  function VictimIndex(c: Pick, n: nat): (i: nat)
    ensures n > 0 ==> i < n
    ensures c.First? ==> i == 0
    ensures n == 0 ==> i == 0
  {
    match c
    case First => 0
    case Random(draw) =>
      var x := draw * n as real;
      ProductNonNegative(draw, n as real);
      if n == 0 then 0
      else
        ProductBelow(draw, n as real);
        x.Floor
  }

  /** Each index of a non-empty pool is picked by exactly the draws in a
      slice of width `1 / n` of [0, 1), so every tile is equally likely. */
  lemma VictimSlice(d: real, n: nat, i: nat)
    requires 0.0 <= d < 1.0 && 0 < n && i < n
    ensures VictimIndex(Random(d), n) == i <==> i as real <= d * n as real < (i + 1) as real
  {}

  lemma ProductNonNegative(a: real, b: real)
    requires 0.0 <= a && 0.0 <= b
    ensures 0.0 <= a * b
  {}

  lemma ProductBelow(a: real, b: real)
    requires 0.0 <= a < 1.0 && 0.0 < b
    ensures a * b < b
  {}

  /** `splice(i, 1)` on the pool: the tiles without the one at index `i`. */
  function RemoveAt<T>(s: seq<T>, i: nat): (r: seq<T>)
    requires i < |s|
    ensures |r| == |s| - 1
    ensures r[..i] + [s[i]] + r[i..] == s
  {
    var r := s[..i] + s[i + 1..];
    assert r[..i] == s[..i] && r[i..] == s[i + 1..];
    assert s == s[..i] + [s[i]] + s[i + 1..];
    r
  }

  // ---------------------------------------------------------------------
  // Geometry of the ring

  /** `(timestamp / 4) % 360`: the rotation of the first tile, in degrees. */
  function Offset(timestamp: real): (deg: real)
    requires 0.0 <= timestamp
    ensures 0.0 <= deg < 360.0
    ensures timestamp < 1440.0 ==> deg == timestamp / 4.0
  {
    var q := timestamp / 4.0;
    q - 360.0 * (q / 360.0).Floor as real
  }

  /** The rotation repeats every 1440 time units (a full turn of 360 degrees
      at a quarter degree per unit); with the first turn, this fixes
      `Offset` for every timestamp. */
  lemma OffsetTurns(t: real)
    requires 0.0 <= t
    ensures Offset(t + 1440.0) == Offset(t)
  {
    var q := t / 4.0;
    assert (t + 1440.0) / 4.0 == q + 360.0;
    assert ((q + 360.0) / 360.0).Floor == (q / 360.0).Floor + 1;
  }

  /** The rotation of slot `k` of `n` equal slots, starting at `offset`. */
  function SlotAngle(offset: real, k: nat, n: nat): real {
    if n == 0 then offset else offset + k as real * (360.0 / n as real)
  }

  /** What drawing the first `m` tiles of the ring puts on the canvas. */
  function RingPrefix(tiles: seq<Tile>, offset: real, m: nat): seq<Draw>
    requires m <= |tiles|
  {
    if m == 0 then []
    else RingPrefix(tiles, offset, m - 1) + [RingTile(tiles[m - 1], SlotAngle(offset, m - 1, |tiles|))]
  }

  /** What drawing the whole ring puts on the canvas. */
  function Ring(tiles: seq<Tile>, offset: real): seq<Draw> {
    RingPrefix(tiles, offset, |tiles|)
  }

  /** The tiles a sequence of drawing calls shows, in drawing order. */
  function Shown(frame: seq<Draw>): seq<Tile> {
    if frame == [] then [] else [frame[0].tile] + Shown(frame[1..])
  }

  // ---------------------------------------------------------------------
  // One frame of the state machine

  /** A frame in PICK_VICTIM needs a tile to pick. */
  predicate CanStep(w: Snapshot) {
    w.state == PickVictim ==> |w.images| > 0
  }

  /** In every state of a spin the pool is non-empty, so that PICK_VICTIM,
      when it comes, has a tile to pick. */
  predicate Armed(w: Snapshot) {
    (w.state == Spinning || w.state == StartFade || w.state == Fading || w.state == PickVictim)
      ==> |w.images| > 0
  }

  /** The transition rule `step` applies on every animation frame. */
  function Next(w: Snapshot, c: Pick): (o: Outcome)
    requires CanStep(w)
    ensures o.again <==> !(w.state == Start || w.state == Stopped)
    ensures w.state != PickVictim ==> o.next.images == w.images && o.next.victim == w.victim
    ensures w.state == PickVictim ==> o.next.state == Stopped && o.next.victim.Some?
    ensures Armed(w) ==> Armed(o.next)
  {
    match w.state
    case Start => Outcome(w, false)
    case Spinning => Outcome(w, true)
    case StartFade => Outcome(w.(opacity := Opaque, state := Fading), true)
    case Fading =>
      var o := w.opacity - FadeStep;
      Outcome(w.(opacity := o, state := if o < 0 then PickVictim else Fading), true)
    case PickVictim =>
      var i := VictimIndex(c, |w.images|);
      Outcome(w.(victim := Some(w.images[i]), images := RemoveAt(w.images, i), state := Stopped), true)
    case Stopped => Outcome(w.(opacity := Opaque), false)
  }

  /** The button's click handler: the wheel starts spinning. */
  function Clicked(w: Snapshot): (r: Snapshot)
    ensures Armed(r) <==> |w.images| > 0
  {
    w.(state := Spinning)
  }

  /** The 5000 ms timer's callback: the wheel starts fading. */
  function TimedOut(w: Snapshot): (r: Snapshot)
    ensures Armed(r) <==> |w.images| > 0
  {
    w.(state := StartFade)
  }

  /** What the canvas shows after a frame in the state of `w`, given what it
      showed before and the frame's rotation. */
  function Canvas(w: Snapshot, before: seq<Draw>, offset: real): seq<Draw>
    requires w.state == Stopped ==> w.victim.Some?
  {
    match w.state
    case Start => Ring(w.images, offset)
    case Spinning => Ring(w.images, offset)
    case Fading => Ring(w.images, offset)
    case StartFade => before
    case PickVictim => before
    case Stopped => [Whole(w.victim.value)]
  }
}
