/** One step of the simulation (`step` in init.c): every sprite either
    approaches the viewer by one step, recycling to the back when it would
    pass through the screen, or is panned by one step in one direction; then
    its screen rectangle is recomputed. */
module Stepper {
  import opened Config
  import opened Sprites

  /** Direction codes of `step`; any other byte leaves the real fields alone. */
  const Approach: Byte := 0
  const MoveUp: Byte := 1
  const MoveDown: Byte := 2
  const MoveLeft: Byte := 3
  const MoveRight: Byte := 4

  /** The pan that undoes a pan. */
  function Opposite(d: Byte): (o: Byte)
    requires MoveUp <= d <= MoveRight
    ensures MoveUp <= o <= MoveRight && o != d
  {
    if d == MoveUp then MoveDown
    else if d == MoveDown then MoveUp
    else if d == MoveLeft then MoveRight
    else MoveLeft
  }

  /** The real-space update of one sprite for one direction: the `switch` in
      `step`, which has no default case. */
  function Advance(s: Sprite, d: Byte): (r: Sprite)
    // nothing but the real position ever changes
    ensures r.tex == s.tex && r.dest == s.dest
    ensures r.wreal == s.wreal && r.hreal == s.hreal
    // approaching moves one step closer, or exactly to the recycle depth, and never pans
    ensures d == Approach && s.zreal > StepSize ==> r.zreal == s.zreal - StepSize
    ensures d == Approach && s.zreal <= StepSize ==> r.zreal == RecycleDepth
    ensures d == Approach ==> r.zreal > 0 && r.xreal == s.xreal && r.yreal == s.yreal
    // a pan never changes the depth and moves along exactly one axis
    ensures d != Approach ==> r.zreal == s.zreal
    ensures d != MoveUp && d != MoveDown ==> r.yreal == s.yreal
    ensures d != MoveLeft && d != MoveRight ==> r.xreal == s.xreal
    ensures d == MoveUp ==> r.yreal == s.yreal + StepSize
    ensures d == MoveDown ==> r.yreal == s.yreal - StepSize
    ensures d == MoveLeft ==> r.xreal == s.xreal + StepSize
    ensures d == MoveRight ==> r.xreal == s.xreal - StepSize
    // a byte past the last direction changes nothing
    ensures d > MoveRight ==> r == s
  {
    if d == Approach then
      s.(zreal := if s.zreal - StepSize > 0 then s.zreal - StepSize else RecycleDepth)
    else if d == MoveUp then s.(yreal := s.yreal + StepSize)
    else if d == MoveDown then s.(yreal := s.yreal - StepSize)
    else if d == MoveLeft then s.(xreal := s.xreal + StepSize)
    else if d == MoveRight then s.(xreal := s.xreal - StepSize)
    else s
  }

  /** A sprite can be stepped in direction `d` when the depth it will be
      projected at is not zero. */
  predicate Steppable(s: Sprite, d: Byte)
  {
    d == Approach || s.zreal != 0
  }

  /** One sprite's part of `step`: advance, then re-project. */
  function StepSprite(s: Sprite, d: Byte): (r: Sprite)
    requires Steppable(s, d)
    ensures r.zreal != 0 && r.dest == Project(r)
    ensures r.(dest := s.dest) == Advance(s, d)
  {
    var a := Advance(s, d);
    a.(dest := Project(a))
  }

  /** `step(d)`: every sprite of the store stepped, in place and in order. */
  function Step(store: seq<Sprite>, d: Byte): (r: seq<Sprite>)
    requires forall i :: 0 <= i < |store| ==> Steppable(store[i], d)
    ensures |r| == |store|
    ensures forall i :: 0 <= i < |r| ==> r[i] == StepSprite(store[i], d)
  {
    seq(|store|, i requires 0 <= i < |store| => StepSprite(store[i], d))
  }

  /** A live sprite lies strictly in front of the screen and no further back
      than the recycle depth. */
  predicate Live(s: Sprite)
  {
    0 < s.zreal <= RecycleDepth
  }

  /** A sprite on the depth grid: its depth is a whole number of steps. */
  predicate OnGrid(s: Sprite)
  {
    s.zreal % StepSize == 0
  }

  /** The invariant of a running sprite field: the store has its configured
      size, every sprite is live and on the depth grid, and every cached screen
      rectangle matches its sprite's real-space fields. */
  predicate ValidStore(store: seq<Sprite>)
  {
    && |store| == NumSprites
    && forall i :: 0 <= i < |store| ==>
         Live(store[i]) && OnGrid(store[i]) && store[i].dest == Project(store[i])
  }

  /** A sprite as `main` creates it: depth `(rand() % 50 + 1) * WINDOWWIDTH`,
      position `(±rand() % WINDOWWIDTH) * 20` and `(±rand() % WINDOWHEIGHT) * 20`,
      a non-negative extent, and a screen rectangle projected from those. */
  predicate InitialSprite(s: Sprite)
  {
    && WindowWidth <= s.zreal <= 50 * WindowWidth && s.zreal % WindowWidth == 0
    && -(WindowWidth - 1) * 20 <= s.xreal <= (WindowWidth - 1) * 20 && s.xreal % 20 == 0
    && -(WindowHeight - 1) * 20 <= s.yreal <= (WindowHeight - 1) * 20 && s.yreal % 20 == 0
    && s.wreal >= 0 && s.hreal >= 0
    && s.dest == Project(s)
  }

  predicate InitialStore(store: seq<Sprite>)
  {
    |store| == NumSprites && forall i :: 0 <= i < |store| ==> InitialSprite(store[i])
  }

  /** A sprite as created is live and on the depth grid: a whole number of
      window widths is a whole number of steps. */
  lemma InitialSpriteLive(s: Sprite)
    requires InitialSprite(s)
    ensures Live(s) && OnGrid(s)
  {
    var k := s.zreal / WindowWidth;
    assert s.zreal == k * WindowWidth;
    assert k * WindowWidth == (k * 14) * StepSize;
  }

  /** The store `main` builds satisfies the running invariant. */
  lemma InitialStoreValid(store: seq<Sprite>)
    requires InitialStore(store)
    ensures ValidStore(store)
  {
    forall i | 0 <= i < |store|
      ensures Live(store[i]) && OnGrid(store[i])
    {
      InitialSpriteLive(store[i]);
    }
  }

  /** Advancing keeps a sprite live and on the depth grid. */
  lemma AdvanceLive(s: Sprite, d: Byte)
    requires Live(s) && OnGrid(s)
    ensures Live(Advance(s, d)) && OnGrid(Advance(s, d))
  {
    if d == Approach && s.zreal > StepSize {
      assert (s.zreal - StepSize) % StepSize == s.zreal % StepSize;
    }
  }

  /** One sprite's step keeps it live and on the grid. */
  lemma StepSpriteLive(s: Sprite, d: Byte)
    requires Live(s) && OnGrid(s)
    ensures Live(StepSprite(s, d)) && OnGrid(StepSprite(s, d))
  {
    AdvanceLive(s, d);
    assert StepSprite(s, d).zreal == Advance(s, d).zreal;
  }

  /** `step` keeps the running invariant, whatever the direction: the depth
      stays in (0, RecycleDepth] and on the grid, and every rectangle is fresh. */
  lemma StepPreservesValid(store: seq<Sprite>, d: Byte)
    requires ValidStore(store)
    ensures ValidStore(Step(store, d))
  {
    var r := Step(store, d);
    forall i | 0 <= i < |r|
      ensures Live(r[i]) && OnGrid(r[i])
    {
      StepSpriteLive(store[i], d);
    }
  }

  /** A run of steps, one direction after another, over the whole store. */
  function Run(store: seq<Sprite>, ds: seq<Byte>): (r: seq<Sprite>)
    requires ValidStore(store)
    ensures ValidStore(r)
    decreases |ds|
  {
    if ds == [] then store
    else
      StepPreservesValid(store, ds[0]);
      Run(Step(store, ds[0]), ds[1..])
  }

  /** A byte past the last direction only re-projects: on a store whose
      rectangles are already fresh, `step` then changes nothing at all. */
  lemma StepOutOfRange(store: seq<Sprite>, d: Byte)
    requires ValidStore(store) && d > MoveRight
    ensures Step(store, d) == store
  {
    var r := Step(store, d);
    forall i | 0 <= i < |store|
      ensures r[i] == store[i]
    {
      assert Advance(store[i], d) == store[i];
    }
  }

  /** A pan followed by the opposite pan restores the sprite exactly,
      cached rectangle included. */
  lemma PanInverse(s: Sprite, d: Byte)
    requires MoveUp <= d <= MoveRight
    requires s.zreal != 0 && s.dest == Project(s)
    ensures StepSprite(StepSprite(s, d), Opposite(d)) == s
  {
    var a := StepSprite(s, d);
    var b := StepSprite(a, Opposite(d));
    assert b.(dest := s.dest) == s;
  }

  /** The same for the whole store: `step(1)` then `step(2)` restores every
      sprite, and so do `step(2)` then `step(1)`, `step(3)` then `step(4)` and
      `step(4)` then `step(3)`. */
  lemma StepPanInverse(store: seq<Sprite>, d: Byte)
    requires ValidStore(store) && MoveUp <= d <= MoveRight
    ensures Step(Step(store, d), Opposite(d)) == store
  {
    var a := Step(store, d);
    StepPreservesValid(store, d);
    var b := Step(a, Opposite(d));
    forall i | 0 <= i < |store|
      ensures b[i] == store[i]
    {
      PanInverse(store[i], d);
    }
  }

  /** The real-space effect of a sequence of steps on one sprite. */
  function AdvanceAll(s: Sprite, ds: seq<Byte>): (r: Sprite)
    ensures r.tex == s.tex && r.dest == s.dest
    ensures r.wreal == s.wreal && r.hreal == s.hreal
    decreases |ds|
  {
    if ds == [] then s else AdvanceAll(Advance(s, ds[0]), ds[1..])
  }

  /** Pans only: every byte is one of the four pan directions. */
  predicate PansOnly(ds: seq<Byte>)
  {
    forall i :: 0 <= i < |ds| ==> MoveUp <= ds[i] <= MoveRight
  }

  /** How many more times `plus` occurs in `ds` than `minus`. */
  function Net(ds: seq<Byte>, plus: Byte, minus: Byte): int
  {
    multiset(ds)[plus] as int - multiset(ds)[minus] as int
  }

  /** Pans compose additively: whatever their order, a sequence of pans moves
      a sprite by one step per Left less one per Right along x and one per Up
      less one per Down along y, and never changes its depth. */
  lemma {:induction false} PanDisplacement(s: Sprite, ds: seq<Byte>)
    requires PansOnly(ds)
    ensures AdvanceAll(s, ds).xreal
      == s.xreal + StepSize * Net(ds, MoveLeft, MoveRight)
    ensures AdvanceAll(s, ds).yreal
      == s.yreal + StepSize * Net(ds, MoveUp, MoveDown)
    ensures AdvanceAll(s, ds).zreal == s.zreal
    decreases |ds|
  {
    if ds != [] {
      var a := Advance(s, ds[0]);
      PanDisplacement(a, ds[1..]);
      assert ds == [ds[0]] + ds[1..];
      assert multiset(ds) == multiset{ds[0]} + multiset(ds[1..]);
    }
  }

  /** Hence the order in which pans are interleaved does not matter. */
  lemma PanOrderIrrelevant(s: Sprite, ds: seq<Byte>, es: seq<Byte>)
    requires PansOnly(ds) && multiset(ds) == multiset(es)
    ensures AdvanceAll(s, ds) == AdvanceAll(s, es)
  {
    assert PansOnly(es) by {
      forall j | 0 <= j < |es|
        ensures MoveUp <= es[j] <= MoveRight
      {
        assert es[j] in multiset(ds);
      }
    }
    PanDisplacement(s, ds);
    PanDisplacement(s, es);
  }

  /** `n` copies of one direction. */
  function Repeat(d: Byte, n: nat): (ds: seq<Byte>)
    ensures |ds| == n
    decreases n
  {
    if n == 0 then [] else [d] + Repeat(d, n - 1)
  }

  /** The grid depth `n` approaches after depth `z`: counting depth in steps
      from 1 to CycleLength, it is the count less `n`, wrapped round the cycle. */
  function DepthAfter(z: int, n: nat): int
  {
    ((z / StepSize - 1 - n) % CycleLength + 1) * StepSize
  }

  /** The depth cycle of a live sprite on the grid: counting depth in steps
      from 1 to CycleLength, each approach lowers it by one and the nearest
      depth wraps round to the farthest, so after `n` approaches the depth is
      the original one less `n`, modulo the cycle. The position never moves. */
  lemma {:induction false} DepthCycle(s: Sprite, n: nat)
    requires Live(s) && OnGrid(s)
    ensures AdvanceAll(s, Repeat(Approach, n)).zreal
      == DepthAfter(s.zreal, n)
    ensures AdvanceAll(s, Repeat(Approach, n)).xreal == s.xreal
    ensures AdvanceAll(s, Repeat(Approach, n)).yreal == s.yreal
    decreases n
  {
    var k := s.zreal / StepSize;
    assert s.zreal == k * StepSize;
    if n == 0 {
      assert (k - 1) % CycleLength == k - 1;
    } else {
      var a := Advance(s, Approach);
      AdvanceLive(s, Approach);
      DepthCycle(a, n - 1);
      assert Repeat(Approach, n)[1..] == Repeat(Approach, n - 1);
      if s.zreal > StepSize {
        assert a.zreal / StepSize == k - 1;
      } else {
        assert k == 1;
        assert a.zreal / StepSize == CycleLength;
        assert (CycleLength - 1 - (n - 1)) % CycleLength == (k - 1 - n) % CycleLength;
      }
    }
  }

  /** Shifting by a whole cycle does not change a residue. */
  lemma ModCycle(a: int)
    ensures (a - CycleLength) % CycleLength == a % CycleLength
  {
    assert CycleLength == 700;
  }

  /** The depth orbit is periodic: a further full cycle of approaches
      brings every live sprite on the grid back to the depth it had. */
  lemma DepthPeriod(s: Sprite, n: nat)
    requires Live(s) && OnGrid(s)
    ensures AdvanceAll(s, Repeat(Approach, n + CycleLength as nat)).zreal
      == AdvanceAll(s, Repeat(Approach, n)).zreal
  {
    DepthCycle(s, n);
    DepthCycle(s, n + CycleLength as nat);
    ModCycle(s.zreal / StepSize - 1 - n);
    assert DepthAfter(s.zreal, n + CycleLength as nat) == DepthAfter(s.zreal, n);
  }

  /** The cached rectangle plays no part in the real-space update. */
  lemma {:induction false} AdvanceAllIgnoresDest(s: Sprite, x: Rect, ds: seq<Byte>)
    ensures AdvanceAll(s.(dest := x), ds) == AdvanceAll(s, ds).(dest := x)
    decreases |ds|
  {
    if ds != [] {
      assert Advance(s.(dest := x), ds[0]) == Advance(s, ds[0]).(dest := x);
      AdvanceAllIgnoresDest(Advance(s, ds[0]), x, ds[1..]);
    }
  }

  /** A run of steps over the store acts on each sprite independently: sprite
      `i` ends with the real-space fields of `AdvanceAll` applied to it alone. */
  lemma {:induction false} RunPointwise(store: seq<Sprite>, ds: seq<Byte>, i: int)
    requires ValidStore(store) && 0 <= i < |store|
    ensures Run(store, ds)[i].(dest := store[i].dest) == AdvanceAll(store[i], ds)
    decreases |ds|
  {
    if ds != [] {
      StepPreservesValid(store, ds[0]);
      var next := Step(store, ds[0]);
      RunPointwise(next, ds[1..], i);
      AdvanceAllIgnoresDest(Advance(store[i], ds[0]), next[i].dest, ds[1..]);
      assert next[i] == Advance(store[i], ds[0]).(dest := next[i].dest);
    }
  }

  /** Any interleaving of pan steps, such as two motion tasks running side by
      side, moves every sprite of the store by their net count along each axis. */
  lemma InterleavedPans(store: seq<Sprite>, ds: seq<Byte>, i: int)
    requires ValidStore(store) && 0 <= i < |store| && PansOnly(ds)
    ensures Run(store, ds)[i].xreal == store[i].xreal + StepSize * Net(ds, MoveLeft, MoveRight)
    ensures Run(store, ds)[i].yreal == store[i].yreal + StepSize * Net(ds, MoveUp, MoveDown)
    ensures Run(store, ds)[i].zreal == store[i].zreal
  {
    RunPointwise(store, ds, i);
    PanDisplacement(store[i], ds);
  }

  /** The real position and depth of sprite `i` after a run are those of
      `AdvanceAll` applied to that sprite alone. */
  lemma RunPosition(store: seq<Sprite>, ds: seq<Byte>, i: int)
    requires ValidStore(store) && 0 <= i < |store|
    ensures Run(store, ds)[i].zreal == AdvanceAll(store[i], ds).zreal
    ensures Run(store, ds)[i].xreal == AdvanceAll(store[i], ds).xreal
    ensures Run(store, ds)[i].yreal == AdvanceAll(store[i], ds).yreal
  {
    RunPointwise(store, ds, i);
  }

  /** `n` frames of forward drift move every sprite of the store round its
      depth cycle by `n` steps and leave its position alone. */
  lemma DriftFrames(store: seq<Sprite>, n: nat, i: int)
    requires ValidStore(store) && 0 <= i < |store|
    ensures Run(store, Repeat(Approach, n))[i].zreal
      == DepthAfter(store[i].zreal, n)
    ensures Run(store, Repeat(Approach, n))[i].xreal == store[i].xreal
    ensures Run(store, Repeat(Approach, n))[i].yreal == store[i].yreal
  {
    RunPosition(store, Repeat(Approach, n), i);
    DepthCycle(store[i], n);
  }

  /** `n` copies of `d` hold `n` of `d` and none of anything else. */
  lemma {:induction false} RepeatCount(d: Byte, n: nat, e: Byte)
    ensures multiset(Repeat(d, n))[e] == if e == d then n else 0
    decreases n
  {
    if n > 0 {
      RepeatCount(d, n - 1, e);
      assert multiset(Repeat(d, n)) == multiset{d} + multiset(Repeat(d, n - 1));
    }
  }
}
