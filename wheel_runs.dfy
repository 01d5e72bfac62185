// Properties of the pool, of the ring layout and of runs of frames: what the
// wheel promises over a fade, over one spin cycle and over many.

module WheelRuns {
  import opened WheelSpec

  // ---------------------------------------------------------------------
  // The pool

  /** Removing the tile at `i` takes out exactly that tile: the pool's
      contents are the rest plus the removed tile. */
  lemma RemoveAtMultiset(s: seq<Tile>, i: nat)
    requires i < |s|
    ensures multiset(RemoveAt(s, i)) + multiset{s[i]} == multiset(s)
  {
    var r := RemoveAt(s, i);
    assert s == r[..i] + [s[i]] + r[i..];
    assert r == r[..i] + r[i..];
  }

  /** In a pool without duplicates, the removed tile is gone and the rest
      stay distinct. */
  lemma RemoveAtDistinct(s: seq<Tile>, i: nat)
    requires i < |s| && NoDup(s)
    ensures NoDup(RemoveAt(s, i)) && s[i] !in RemoveAt(s, i)
  {
    var r := RemoveAt(s, i);
    assert r == s[..i] + s[i + 1..];
    forall a, b | 0 <= a < b < |r| ensures r[a] != r[b] {
      var a' := if a < i then a else a + 1;
      var b' := if b < i then b else b + 1;
      assert r[a] == s[a'] && r[b] == s[b'];
    }
    forall j | 0 <= j < |r| ensures r[j] != s[i] {
      var j' := if j < i then j else j + 1;
      assert r[j] == s[j'] && j' != i;
    }
  }

  // ---------------------------------------------------------------------
  // The ring

  /** The ring draws every tile of the pool once, in pool order: tile `k`
      is the `k`-th drawing call and sits in slot `k` of `|tiles|` slots. */
  lemma {:induction false} RingPrefixAt(tiles: seq<Tile>, offset: real, m: nat)
    requires m <= |tiles|
    ensures |RingPrefix(tiles, offset, m)| == m
    ensures forall k :: 0 <= k < m ==>
      RingPrefix(tiles, offset, m)[k] == RingTile(tiles[k], SlotAngle(offset, k, |tiles|))
  {
    if m > 0 {
      RingPrefixAt(tiles, offset, m - 1);
    }
  }

  lemma RingAt(tiles: seq<Tile>, offset: real)
    ensures |Ring(tiles, offset)| == |tiles|
    ensures forall k :: 0 <= k < |tiles| ==>
      Ring(tiles, offset)[k] == RingTile(tiles[k], SlotAngle(offset, k, |tiles|))
  {
    RingPrefixAt(tiles, offset, |tiles|);
  }

  lemma {:induction false} ShownAt(frame: seq<Draw>)
    ensures |Shown(frame)| == |frame|
    ensures forall k :: 0 <= k < |frame| ==> Shown(frame)[k] == frame[k].tile
  {
    if frame != [] {
      ShownAt(frame[1..]);
    }
  }

  /** The tiles the ring shows are exactly the pool, in order. */
  lemma RingShowsPool(tiles: seq<Tile>, offset: real)
    ensures Shown(Ring(tiles, offset)) == tiles
  {
    RingAt(tiles, offset);
    ShownAt(Ring(tiles, offset));
  }

  /** What a frame leaves on the canvas: the ring shows the pool in START,
      SPINNING and FADING; START_FADE and PICK_VICTIM leave the canvas as it
      was; STOPPED shows the victim alone, over the whole canvas. */
  lemma CanvasShows(w: Snapshot, before: seq<Draw>, offset: real)
    requires w.state == Stopped ==> w.victim.Some?
    ensures (w.state == Start || w.state == Spinning || w.state == Fading) ==>
      Shown(Canvas(w, before, offset)) == w.images
    ensures (w.state == StartFade || w.state == PickVictim) ==> Canvas(w, before, offset) == before
    ensures w.state == Stopped ==> Canvas(w, before, offset) == [Whole(w.victim.value)]
  {
    RingShowsPool(w.images, offset);
  }

  /** The slots are equal: neighbours are `360 / n` degrees apart, and one
      slot past the last is a full turn from the first. */
  lemma SlotsSplitTurn(offset: real, k: nat, n: nat)
    requires 0 < n
    ensures SlotAngle(offset, k + 1, n) == SlotAngle(offset, k, n) + 360.0 / n as real
    ensures SlotAngle(offset, n, n) == offset + 360.0
  {
    var d := 360.0 / n as real;
    assert n as real * d == 360.0;
  }

  // ---------------------------------------------------------------------
  // Runs of frames

  /** The snapshot after `n` frames, each with choice `c`. */
  function Steps(w: Snapshot, n: nat, c: Pick): (r: Snapshot)
    requires Armed(w)
    ensures Armed(r)
    decreases n
  {
    if n == 0 then w else Steps(Next(w, c).next, n - 1, c)
  }

  lemma {:induction false} StepsAdd(w: Snapshot, a: nat, b: nat, c: Pick)
    requires Armed(w)
    ensures Steps(w, a + b, c) == Steps(Steps(w, a, c), b, c)
    decreases a
  {
    if a > 0 {
      StepsAdd(Next(w, c).next, a - 1, b, c);
    }
  }

  /** START, SPINNING and STOPPED are self-loops: START and SPINNING change
      nothing, STOPPED only restores full opacity. */
  lemma SelfLoops(w: Snapshot, c: Pick)
    ensures w.state == Start ==> Next(w, c) == Outcome(w, false)
    ensures w.state == Spinning ==> Next(w, c) == Outcome(w, true)
    ensures w.state == Stopped ==> Next(w, c) == Outcome(w.(opacity := Opaque), false)
  {}

  /** However many frames the wheel spins, its snapshot does not change. */
  lemma {:induction false} SpinningHolds(w: Snapshot, n: nat, c: Pick)
    requires w.state == Spinning && Armed(w)
    ensures Steps(w, n, c) == w
  {
    if n > 0 {
      SpinningHolds(w, n - 1, c);
    }
  }

  /** START_FADE always moves to FADING at full opacity; PICK_VICTIM always
      moves to STOPPED, taking the chosen tile out of the pool. */
  lemma ForcedMoves(w: Snapshot, c: Pick)
    requires CanStep(w)
    ensures w.state == StartFade ==> Next(w, c).next == w.(state := Fading, opacity := Opaque)
    ensures w.state == PickVictim ==>
      var i := VictimIndex(c, |w.images|);
      i < |w.images| &&
      Next(w, c).next == w.(state := Stopped, victim := Some(w.images[i]), images := RemoveAt(w.images, i))
  {}

  /** The fade: each frame lowers the opacity by 0.01; the wheel stays in
      FADING while the opacity is not below 0 and moves to PICK_VICTIM on
      the first frame that takes it below 0. */
  lemma {:induction false} FadeCountdown(w: Snapshot, k: nat, c: Pick)
    requires w.state == Fading && Armed(w)
    requires 0 <= w.opacity && k <= w.opacity + 1
    ensures k <= w.opacity ==> Steps(w, k, c) == w.(opacity := w.opacity - k)
    ensures k == w.opacity + 1 ==> Steps(w, k, c) == w.(opacity := -1, state := PickVictim)
  {
    if k > 0 {
      FadeCountdown(w, k - 1, c);
      StepsAdd(w, k - 1, 1, c);
      var u := Steps(w, k - 1, c);
      assert Steps(u, 1, c) == Next(u, c).next;
    }
  }

  /** From START_FADE, 101 frames at 0.01 each bring the opacity from 1 to
      below 0 and the wheel to PICK_VICTIM; after 100 it is still fading. */
  lemma FadeTakes(w: Snapshot, c: Pick)
    requires w.state == StartFade && Armed(w)
    ensures Steps(w, 1 + Opaque, c) == w.(state := Fading, opacity := 0)
    ensures Steps(w, 2 + Opaque, c) == w.(state := PickVictim, opacity := -1)
  {
    var f := Next(w, c).next;
    assert Steps(w, 1, c) == f;
    StepsAdd(w, 1, Opaque, c);
    StepsAdd(w, 1, Opaque + 1, c);
    FadeCountdown(f, Opaque, c);
    FadeCountdown(f, Opaque + 1, c);
  }

  // ---------------------------------------------------------------------
  // Spin cycles

  /** The number of frames from the timer's firing to the wheel standing
      still: START_FADE, 101 FADING, PICK_VICTIM and one STOPPED frame. */
  const CycleFrames: nat := 1 + (Opaque + 1) + 1 + 1

  /** What a whole cycle does, summed up: the tile at the chosen index
      becomes the victim and leaves the pool, and the wheel stands STOPPED
      at full opacity. */
  function Spun(w: Snapshot, c: Pick): Snapshot
    requires |w.images| > 0
  {
    var i := VictimIndex(c, |w.images|);
    Snapshot(Stopped, RemoveAt(w.images, i), Some(w.images[i]), Opaque)
  }

  /** A full spin cycle: a click, `spins` spinning frames, the timer, and
      the frames up to the first STOPPED frame. From an enabled button it
      leaves the wheel STOPPED at full opacity with one tile fewer: the
      victim is the tile at the chosen index, and the pool is the old pool
      without it. No further frame is requested. */
  function Cycle(w: Snapshot, spins: nat, c: Pick): (r: Snapshot)
    requires ButtonEnabled(|w.images|, w.state)
    ensures r == Spun(w, c)
    ensures !Next(r, c).again
  {
    SpinningHolds(Clicked(w), spins, c);
    CycleEffect(w, c);
    Steps(TimedOut(Steps(Clicked(w), spins, c)), CycleFrames, c)
  }

  /** The frames of a cycle from the timer's firing on end in `Spun`. */
  lemma CycleEffect(w: Snapshot, c: Pick)
    requires ButtonEnabled(|w.images|, w.state)
    ensures Steps(TimedOut(Clicked(w)), CycleFrames, c) == Spun(w, c)
  {
    var t := TimedOut(Clicked(w));
    FadeTakes(t, c);
    StepsAdd(t, 2 + Opaque, 2, c);
    var p := t.(state := PickVictim, opacity := -1);
    assert Steps(p, 2, c) == Spun(w, c) by {
      var s := Next(p, c).next;
      assert Steps(p, 2, c) == Steps(s, 1, c);
      assert Steps(s, 1, c) == Next(s, c).next;
    }
  }

  /** The snapshot after one whole cycle per choice in `cs`. */
  function Cycles(w: Snapshot, cs: seq<Pick>): (r: Snapshot)
    requires |cs| <= |w.images|
    ensures |r.images| == |w.images| - |cs|
    ensures cs != [] ==> r.state == Stopped && r.victim.Some?
    decreases |cs|
  {
    if cs == [] then w else Cycles(Spun(w, cs[0]), cs[1..])
  }

  /** The victims of those cycles, in the order they were picked. */
  function Victims(w: Snapshot, cs: seq<Pick>): seq<Tile>
    requires |cs| <= |w.images|
    decreases |cs|
  {
    if cs == [] then []
    else
      var v := Spun(w, cs[0]);
      [v.victim.value] + Victims(v, cs[1..])
  }

  /** Over any sequence of cycles, the victims and the remaining pool
      together are exactly the original pool. */
  lemma {:induction false} VictimsLeavePool(w: Snapshot, cs: seq<Pick>)
    requires |cs| <= |w.images|
    ensures multiset(Victims(w, cs)) + multiset(Cycles(w, cs).images) == multiset(w.images)
    decreases |cs|
  {
    if cs != [] {
      var i := VictimIndex(cs[0], |w.images|);
      CyclesUnfold(w, cs);
      VictimsLeavePool(Spun(w, cs[0]), cs[1..]);
      RemoveAtMultiset(w.images, i);
    }
  }

  /** From distinct tiles, a picked tile is never offered again: no tile is
      picked twice, and none is both picked and left in the pool. */
  lemma VictimsNeverReturn(w: Snapshot, cs: seq<Pick>)
    requires |cs| <= |w.images| && NoDup(w.images)
    ensures NoDup(Victims(w, cs) + Cycles(w, cs).images)
  {
    var all := Victims(w, cs) + Cycles(w, cs).images;
    VictimsLeavePool(w, cs);
    assert multiset(all) == multiset(w.images);
    NoDupCounts(w.images);
    CountsNoDup(all);
  }

  /** In a sequence without duplicates, each element occurs once. */
  lemma {:induction false} NoDupCounts(s: seq<Tile>)
    requires NoDup(s)
    ensures forall x :: multiset(s)[x] <= 1
  {
    if s != [] {
      var t := s[1..];
      assert s == [s[0]] + t;
      assert NoDup(t) by {
        forall a, b | 0 <= a < b < |t| ensures t[a] != t[b] {
          assert t[a] == s[a + 1] && t[b] == s[b + 1];
        }
      }
      NoDupCounts(t);
      assert s[0] !in t by {
        forall j | 0 <= j < |t| ensures t[j] != s[0] {
          assert t[j] == s[j + 1];
        }
      }
    }
  }

  /** A sequence in which each element occurs at most once has no duplicates. */
  lemma CountsNoDup(s: seq<Tile>)
    requires forall x :: multiset(s)[x] <= 1
    ensures NoDup(s)
  {
    forall a, b | 0 <= a < b < |s| ensures s[a] != s[b] {
      var left, right := s[..b], s[b..];
      assert s == left + right;
      assert s[b] in right && s[a] in left;
      assert multiset(s)[s[b]] == multiset(left)[s[b]] + multiset(right)[s[b]];
      assert s[b] !in left;
    }
  }

  lemma SplitHead(s: seq<Tile>, k: nat)
    requires 0 < k <= |s|
    ensures s[..k] == [s[0]] + s[1..][..k - 1]
    ensures s[k..] == s[1..][k - 1..]
  {}

  /** One cycle, then the rest. */
  lemma CyclesUnfold(w: Snapshot, cs: seq<Pick>)
    requires 0 < |cs| <= |w.images|
    ensures var v := Spun(w, cs[0]);
      v.victim.Some? && |cs| - 1 <= |v.images| &&
      Victims(w, cs) == [v.victim.value] + Victims(v, cs[1..]) &&
      Cycles(w, cs) == Cycles(v, cs[1..])
  {}

  lemma RemoveFirst(s: seq<Tile>)
    requires |s| > 0
    ensures RemoveAt(s, 0) == s[1..]
  {
    var r := RemoveAt(s, 0);
    assert [s[0]] + r == s;
    assert r == s[1..];
  }

  /** `k` sequential choices. */
  function Firsts(k: nat): (cs: seq<Pick>)
    ensures |cs| == k
  {
    if k == 0 then [] else [First] + Firsts(k - 1)
  }

  /** With the sequential choice, cycles pick the tiles in their original
      order. */
  lemma {:induction false} SequentialOrder(w: Snapshot, k: nat)
    requires k <= |w.images|
    ensures Victims(w, Firsts(k)) == w.images[..k]
    decreases k
  {
    if k > 0 {
      SequentialFirst(w, k);
      SequentialOrder(Spun(w, First), k - 1);
      SplitHead(w.images, k);
    }
  }

  /** With the sequential choice, the tiles not yet picked stay in the pool
      in their original order. */
  lemma {:induction false} SequentialPool(w: Snapshot, k: nat)
    requires k <= |w.images|
    ensures Cycles(w, Firsts(k)).images == w.images[k..]
    decreases k
  {
    if k > 0 {
      SequentialFirst(w, k);
      SequentialPool(Spun(w, First), k - 1);
      SplitHead(w.images, k);
    }
  }

  /** A sequential cycle picks the first tile and leaves the rest. */
  lemma SequentialFirst(w: Snapshot, k: nat)
    requires 0 < k <= |w.images|
    ensures Spun(w, First).images == w.images[1..]
    ensures Victims(w, Firsts(k)) == [w.images[0]] + Victims(Spun(w, First), Firsts(k - 1))
    ensures Cycles(w, Firsts(k)) == Cycles(Spun(w, First), Firsts(k - 1))
  {
    RemoveFirst(w.images);
    var cs := Firsts(k);
    assert cs[0] == First && cs[1..] == Firsts(k - 1);
    CyclesUnfold(w, cs);
  }

  /** Once every tile has been picked, the wheel is STOPPED with an empty
      pool and the button stays disabled. */
  lemma ExhaustedPoolDisables(w: Snapshot, cs: seq<Pick>)
    requires 0 < |cs| == |w.images|
    ensures Cycles(w, cs).images == [] && Cycles(w, cs).state == Stopped
    ensures !ButtonEnabled(|Cycles(w, cs).images|, Cycles(w, cs).state)
  {}
}
