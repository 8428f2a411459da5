/** The sprite record and the perspective projection from real space to the
    screen (`Sprite` and `real_to_screen` in init.c). */
module Sprites {
  import opened Config
  import opened Arith

  /** A screen rectangle, as an `SDL_Rect`. */
  datatype Rect = Rect(x: int, y: int, w: int, h: int)

  /** One sprite: an opaque texture handle, the cached screen rectangle
      `dest`, the real-space depth and position, and the real-space extent. */
  datatype Sprite = Sprite(
    tex: nat,
    dest: Rect,
    zreal: int,
    xreal: int,
    yreal: int,
    hreal: int,
    wreal: int)

  /** The `double` quotient `v * WINDOWHEIGHT / z`, computed exactly. */
  function Scaled(v: int, z: int): real
    requires z != 0
  {
    (v as real) * (WindowHeight as real) / (z as real)
  }

  /** The screen rectangle of a sprite: a perspective divide by the depth with
      the window height as the scale on both axes, centred on the window, each
      coordinate truncated toward zero when it is stored in the `int` field.
      It reads only the real-space fields; the previous `dest` plays no part. */
  function Project(s: Sprite): Rect
    requires s.zreal != 0
  {
    var z := s.zreal;
    Rect(
      x := Trunc(Scaled(s.xreal, z) + (WindowWidth / 2) as real),
      y := Trunc(Scaled(s.yreal, z) + (WindowHeight / 2) as real),
      w := Trunc(Scaled(s.wreal, z)),
      h := Trunc(Scaled(s.hreal, z)))
  }

  /** The projection in integer terms: each field is the C integer quotient
      of the scaled coordinate, plus the half-window offset times the depth,
      by the depth. */
  lemma ProjectQuotients(s: Sprite)
    requires s.zreal != 0
    ensures Project(s).w == CDiv(s.wreal * WindowHeight, s.zreal)
    ensures Project(s).h == CDiv(s.hreal * WindowHeight, s.zreal)
    ensures Project(s).y == CDiv(s.yreal * WindowHeight + (WindowHeight / 2) * s.zreal, s.zreal)
    ensures Project(s).x == CDiv(s.xreal * WindowHeight + (WindowWidth / 2) * s.zreal, s.zreal)
  {
    var z := s.zreal;
    ProjectedQuotient(s.wreal, 0, z);
    ProjectedQuotient(s.hreal, 0, z);
    ProjectedQuotient(s.yreal, WindowHeight / 2, z);
    ProjectedQuotient(s.xreal, WindowWidth / 2, z);
  }

  /** The offset quotient `v * H / z + c`, truncated, is the C quotient of
      `v * H + c * z` by `z`. */
  lemma ProjectedQuotient(v: int, c: int, z: int)
    requires z != 0
    ensures Trunc(Scaled(v, z) + c as real) == CDiv(v * WindowHeight + c * z, z)
  {
    var n := v * WindowHeight + c * z;
    assert (n as real) / (z as real) == Scaled(v, z) + c as real by {
      DivSplit(c, z, v * WindowHeight);
      assert n == c * z + v * WindowHeight;
    }
    TruncQuotient(n, z);
  }

  /** At depth equal to the window height the projection is the identity on
      the extent and shifts the position to the window centre. */
  lemma ProjectAtFocalDepth(s: Sprite)
    requires s.zreal == WindowHeight
    ensures Project(s) == Rect(s.xreal + WindowWidth / 2, s.yreal + WindowHeight / 2, s.wreal, s.hreal)
  {
    ProjectQuotients(s);
    CDivExact(s.wreal, WindowHeight);
    CDivExact(s.hreal, WindowHeight);
    CDivExact(s.yreal + WindowHeight / 2, WindowHeight);
    CDivExact(s.xreal + WindowWidth / 2, WindowHeight);
    assert s.yreal * WindowHeight + (WindowHeight / 2) * WindowHeight == (s.yreal + WindowHeight / 2) * WindowHeight;
    assert s.xreal * WindowHeight + (WindowWidth / 2) * WindowHeight == (s.xreal + WindowWidth / 2) * WindowHeight;
  }

  /** A 100 by 50 sprite on the axis at depth 800 lands centred, at its own size. */
  lemma ProjectExample(tex: nat, old_dest: Rect)
    ensures Project(Sprite(tex, old_dest, 800, 0, 0, 50, 100)) == Rect(700, 400, 100, 50)
  {
    ProjectAtFocalDepth(Sprite(tex, old_dest, 800, 0, 0, 50, 100));
  }
}
