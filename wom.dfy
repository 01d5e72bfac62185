// The wheel itself (wom.js, class Wheel): an object whose state machine runs
// once per animation frame. The canvas is recorded as the list of drawing
// calls made since it was last cleared; the button as its `disabled` flag.

module Wom {
  import opened WheelSpec
  import WheelRuns

  /** `pool` and `picked` hold each tile of `tiles` once between them. */
  ghost predicate Partitioned(pool: seq<Tile>, picked: seq<Tile>, tiles: seq<Tile>) {
    NoDup(pool) && NoDup(picked) &&
    (forall t :: t in picked ==> t !in pool) &&
    multiset(pool) + multiset(picked) == multiset(tiles)
  }

  /** Moving the tile at `i` from the pool to the end of the picked tiles
      keeps the partition. */
  lemma PickKeepsPartition(pool: seq<Tile>, picked: seq<Tile>, tiles: seq<Tile>, i: nat)
    requires Partitioned(pool, picked, tiles) && i < |pool|
    ensures Partitioned(RemoveAt(pool, i), picked + [pool[i]], tiles)
  {
    var rest := RemoveAt(pool, i);
    var x := pool[i];
    WheelRuns.RemoveAtMultiset(pool, i);
    WheelRuns.RemoveAtDistinct(pool, i);
    assert x !in picked;
    var p := picked + [x];
    forall a, b | 0 <= a < b < |p| ensures p[a] != p[b] {
      if b == |picked| {
        assert p[a] == picked[a] && p[a] in picked;
      } else {
        assert p[a] == picked[a] && p[b] == picked[b];
      }
    }
    forall t | t in p ensures t !in rest {
      if t == x {
      } else {
        assert t in picked;
      }
    }
    assert multiset(p) == multiset(picked) + multiset{x};
  }

  class Wheel {
    var state: State
    /** The tiles not yet picked, in page order. */
    var images: seq<Tile>
    /** The most recently picked tile. */
    var victim: Option<Tile>
    /** The canvas opacity, in hundredths. */
    var opacity: int
    var buttonDisabled: bool
    /** The drawing calls made on the canvas since it was last cleared. */
    var frame: seq<Draw>

    /** The tiles the wheel was built with. */
    ghost const tiles: seq<Tile>
    /** The victims picked so far, in order. */
    ghost var picked: seq<Tile>

    /** The pool and the victims always make up the tiles the wheel was built
        with, each tile once: a picked tile never returns to the pool. The
        victim shown when stopped is the last one picked. */
    ghost predicate Valid()
      reads this
    {
      Partitioned(images, picked, tiles) &&
      (state == Stopped ==> victim.Some?) &&
      (victim.Some? ==> |picked| > 0 && victim.value == picked[|picked| - 1])
    }

    /** The state the transition rule reads and writes. */
    function Snap(): Snapshot
      reads this
    {
      Snapshot(state, images, victim, opacity)
    }

    /** A wheel over the page's images, which are distinct elements, in
        the START state with an empty canvas at full opacity. The button is
        left as the page set it until the first frame. */
    constructor(pool: seq<Tile>)
      requires NoDup(pool)
      ensures Valid()
      ensures state == Start && images == pool && victim == None && opacity == Opaque
      ensures tiles == pool && picked == [] && frame == []
    {
      state := Start;
      images := pool;
      victim := None;
      opacity := Opaque;
      frame := [];
      tiles := pool;
      picked := [];
    }

    /** The button's click handler: the wheel spins. Nothing guards against
        a click while a spin is already under way. */
    method Click()
      modifies this`state
      ensures state == Spinning
      ensures Snap() == Clicked(old(Snap()))
    {
      state := Spinning;
    }

    /** The callback of the 5000 ms timer a click arms: the wheel fades. */
    method TimerFired()
      modifies this`state
      ensures state == StartFade
      ensures Snap() == TimedOut(old(Snap()))
    {
      state := StartFade;
    }

    /** Disables the button unless tiles remain and the wheel is idle. */
    method SetButtonState()
      modifies this`buttonDisabled
      ensures buttonDisabled == !ButtonEnabled(|images|, state)
    {
      if |images| < 1 {
        buttonDisabled := true;
        return;
      }
      if state == Start {
        buttonDisabled := false;
        return;
      }
      if state == Stopped {
        buttonDisabled := false;
        return;
      }
      buttonDisabled := true;
    }

    method ClearCanvas()
      modifies this`frame
      ensures frame == []
    {
      frame := [];
    }

    /** Draws every tile of the pool, in pool order, the first at `offset`
        degrees and each next one a further `360 / |images|` degrees round. */
    method DrawTiles(offset: real)
      modifies this`frame
      ensures frame == old(frame) + Ring(images, offset)
    {
      var n := |images|;
      var increment := if n == 0 then 0.0 else 360.0 / n as real;
      var angle := offset;
      for k := 0 to n
        invariant frame == old(frame) + RingPrefix(images, offset, k)
        invariant angle == SlotAngle(offset, k, n)
      {
        frame := frame + [RingTile(images[k], angle)];
        angle := angle + increment;
      }
    }

    /** Clears the canvas and draws the ring at `offset`. */
    method Redraw(offset: real)
      modifies this`frame
      ensures frame == Ring(images, offset)
    {
      ClearCanvas();
      DrawTiles(offset);
    }

    /** Takes the tile at the chosen index out of the pool and keeps it as
        the victim; the other tiles stay in the pool, in their order. */
    method ChooseVictim(choice: Pick)
      requires Valid() && |images| > 0
      modifies this`images, this`victim, this`picked
      ensures Valid()
      ensures var i := VictimIndex(choice, |old(images)|);
        victim == Some(old(images)[i]) && images == RemoveAt(old(images), i)
      ensures picked == old(picked) + [victim.value]
    {
      var i := VictimIndex(choice, |images|);
      var tile := images[i];
      PickKeepsPartition(images, picked, tiles, i);
      victim := Some(tile);
      images := RemoveAt(images, i);
      picked := picked + [tile];
    }

    /** One animation frame: sets the button, then acts on the state. The
        result says whether the frame asks for another one. */
    method Step(timestamp: real, choice: Pick) returns (again: bool)
      requires Valid() && 0.0 <= timestamp
      requires state == PickVictim ==> |images| > 0
      modifies this
      ensures Valid()
      ensures buttonDisabled == !ButtonEnabled(|old(images)|, old(state))
      ensures Snap() == Next(old(Snap()), choice).next
      ensures again == Next(old(Snap()), choice).again
      ensures frame == Canvas(old(Snap()), old(frame), Offset(timestamp))
      ensures picked == if old(state) == PickVictim then old(picked) + [victim.value] else old(picked)
    {
      SetButtonState();
      var offset := Offset(timestamp);

      if state == Start {
        Redraw(offset);
        return false;
      }

      if state == Spinning {
        Redraw(offset);
        return true;
      }

      if state == StartFade {
        opacity := Opaque;
        state := Fading;
        return true;
      }

      if state == Fading {
        opacity := opacity - FadeStep;
        Redraw(offset);
        if opacity < 0 {
          state := PickVictim;
        }
        return true;
      }

      if state == PickVictim {
        ChooseVictim(choice);
        state := Stopped;
        return true;
      }

      // STOPPED: show the victim over the whole canvas, restore the opacity.
      ClearCanvas();
      frame := frame + [Whole(victim.value)];
      opacity := Opaque;
      return false;
    }
  }
}
