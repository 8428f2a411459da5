/** The key-event dispatch of the animation loop in `main`, with the
    lock-guarded active key of `get_active_key`/`set_active_key` as a plain
    field. Starting and cancelling a motion thread become emitted actions. */
module Controller {

  /** A pan direction, numbered as the active key and as `step` number them. */
  datatype Dir = Up | Down | Left | Right {
    function Code(): (c: int)
      ensures 1 <= c <= 4
    {
      match this
      case Up => 1
      case Down => 2
      case Left => 3
      case Right => 4
    }
  }

  /** The active key: none, otherwise the direction last started. */
  datatype ActiveKey = NoKey | Key(dir: Dir) {
    /** The `uint8_t active_key` byte: 0 for none, else the direction's code.
        Distinct keys have distinct bytes. */
    function Code(): (c: int)
      ensures 0 <= c <= 4
      ensures c == 0 <==> NoKey?
      ensures forall d: Dir :: c == d.Code() <==> this == Key(d)
    {
      match this
      case NoKey => 0
      case Key(d) => d.Code()
    }
  }

  /** SDL scancodes of the keys the loop handles. */
  const ScancodeA: nat := 4
  const ScancodeD: nat := 7
  const ScancodeS: nat := 22
  const ScancodeW: nat := 26
  const ScancodeRight: nat := 79
  const ScancodeLeft: nat := 80
  const ScancodeDown: nat := 81
  const ScancodeUp: nat := 82

  datatype Binding = Unbound | Bound(dir: Dir)

  /** The direction a scancode is bound to: W and Up, S and Down, A and Left,
      D and Right; every other key is unbound. */
  function KeyBinding(code: nat): (b: Binding)
    ensures b == Bound(Up) <==> code == ScancodeW || code == ScancodeUp
    ensures b == Bound(Down) <==> code == ScancodeS || code == ScancodeDown
    ensures b == Bound(Left) <==> code == ScancodeA || code == ScancodeLeft
    ensures b == Bound(Right) <==> code == ScancodeD || code == ScancodeRight
  {
    if code == ScancodeW || code == ScancodeUp then Bound(Up)
    else if code == ScancodeS || code == ScancodeDown then Bound(Down)
    else if code == ScancodeA || code == ScancodeLeft then Bound(Left)
    else if code == ScancodeD || code == ScancodeRight then Bound(Right)
    else Unbound
  }

  /** An event from SDL's queue; any other event type is ignored by the loop. */
  datatype Event = Quit | KeyDown(code: nat) | KeyUp(code: nat) | OtherEvent

  /** What the loop asks of the thread library: create the motion thread of a
      direction, or cancel the thread last created for it. */
  datatype Action = Start(dir: Dir) | Cancel(dir: Dir)

  /** The state the dispatch reads and writes. */
  datatype Control = Control(active: ActiveKey, quit: bool)

  /** The cancellations a key-up of a direction issues. The Left case has no
      `break`, so it falls through into the Right case. */
  function ReleaseCancels(d: Dir): (acts: seq<Action>)
    ensures |acts| >= 1 && acts[0] == Cancel(d)
    ensures forall j :: 0 <= j < |acts| ==> acts[j].Cancel?
    ensures d == Left ==> acts == [Cancel(Left), Cancel(Right)]
    ensures d != Left ==> acts == [Cancel(d)]
  {
    match d
    case Up => [Cancel(Up)]
    case Down => [Cancel(Down)]
    case Left => [Cancel(Left), Cancel(Right)]  // no `break` after the Left case
    case Right => [Cancel(Right)]
  }

  /** One event of the inner polling loop. */
  function HandleEvent(c: Control, e: Event): (r: (Control, seq<Action>))
    // only a quit event touches the quit flag, and it touches nothing else
    ensures e.Quit? ==> r.0 == c.(quit := true) && r.1 == []
    ensures !e.Quit? ==> r.0.quit == c.quit
    // a key-down of a bound key starts its direction exactly when that is not
    // already the active key, and then makes it the active key
    ensures e.KeyDown? && KeyBinding(e.code).Bound? ==>
      var d := KeyBinding(e.code).dir;
      if c.active != Key(d) then r.0.active == Key(d) && r.1 == [Start(d)]
      else r == (c, [])
    // a key-up never changes the active key and only cancels
    ensures e.KeyUp? ==> r.0 == c
    ensures e.KeyUp? && KeyBinding(e.code).Bound? ==> r.1 == ReleaseCancels(KeyBinding(e.code).dir)
    ensures forall j :: 0 <= j < |r.1| ==> (r.1[j].Cancel? <==> e.KeyUp?)
    // unbound keys and other events change nothing
    ensures (e.KeyDown? || e.KeyUp?) && KeyBinding(e.code).Unbound? ==> r == (c, [])
    ensures e.OtherEvent? ==> r == (c, [])
  {
    match e
    case Quit => (c.(quit := true), [])
    case KeyDown(code) =>
      (match KeyBinding(code)
       case Bound(d) =>
         // `get_active_key() != n`, then `pthread_create` and `set_active_key(n)`
         if c.active.Code() != d.Code() then (c.(active := Key(d)), [Start(d)]) else (c, [])
       case Unbound => (c, []))
    case KeyUp(code) =>
      (match KeyBinding(code)
       case Bound(d) => (c, ReleaseCancels(d))
       case Unbound => (c, []))
    case OtherEvent => (c, [])
  }

  /** A second key-down of the active direction is a no-op: holding a key,
      whose auto-repeat sends key-down after key-down, starts one thread. */
  lemma KeyDownIdempotent(c: Control, code: nat)
    ensures var r := HandleEvent(c, KeyDown(code));
      HandleEvent(r.0, KeyDown(code)) == (r.0, [])
  {
  }

  /** Handling `a + b` is handling `a`, then handling `b` from where `a` left off. */
  lemma {:induction false} HandleEventsAppend(c: Control, a: seq<Event>, b: seq<Event>)
    ensures var (ca, acts_a) := HandleEvents(c, a);
      var (cb, acts_b) := HandleEvents(ca, b);
      HandleEvents(c, a + b) == (cb, acts_a + acts_b)
    decreases |a|
  {
    if a == [] {
      assert a + b == b;
      assert HandleEvents(c, a) == (c, []);
      assert [] + HandleEvents(c, b).1 == HandleEvents(c, b).1;
    } else {
      assert (a + b)[0] == a[0] && (a + b)[1..] == a[1..] + b;
      var (c1, a1) := HandleEvent(c, a[0]);
      HandleEventsAppend(c1, a[1..], b);
      var (ca, acts_a) := HandleEvents(c1, a[1..]);
      var (cb, acts_b) := HandleEvents(ca, b);
      assert a1 + (acts_a + acts_b) == (a1 + acts_a) + acts_b;
    }
  }

  /** The inner polling loop: every pending event, in order. */
  function HandleEvents(c: Control, es: seq<Event>): (r: (Control, seq<Action>))
    // the quit flag ends up set exactly when it was set or some event is a quit
    ensures r.0.quit <==> c.quit || exists j :: 0 <= j < |es| && es[j].Quit?
    // the active key changes only through a key-down
    ensures (forall j :: 0 <= j < |es| ==> !es[j].KeyDown?) ==> r.0.active == c.active
    decreases |es|
  {
    if es == [] then (c, [])
    else
      var (c1, a1) := HandleEvent(c, es[0]);
      var (c2, a2) := HandleEvents(c1, es[1..]);
      assert forall j :: 1 <= j < |es| ==> es[j] == es[1..][j - 1];
      (c2, a1 + a2)
  }

  /** The directions of the `Start` actions, in order. */
  function Starts(acts: seq<Action>): (ds: seq<Dir>)
    ensures |ds| <= |acts|
    ensures (forall j :: 0 <= j < |acts| ==> acts[j].Cancel?) ==> ds == []
    decreases |acts|
  {
    if acts == [] then []
    else if acts[0].Start? then [acts[0].dir] + Starts(acts[1..])
    else Starts(acts[1..])
  }

  lemma {:induction false} StartsAppend(a: seq<Action>, b: seq<Action>)
    ensures Starts(a + b) == Starts(a) + Starts(b)
    decreases |a|
  {
    if a == [] {
      assert a + b == b;
    } else {
      assert (a + b)[0] == a[0];
      assert (a + b)[1..] == a[1..] + b;
      StartsAppend(a[1..], b);
    }
  }

  /** No two consecutive starts are of the same direction, and the first is
      not of the direction that was active before. */
  predicate NoRepeat(before: ActiveKey, ds: seq<Dir>)
    decreases |ds|
  {
    ds == [] || (before != Key(ds[0]) && NoRepeat(Key(ds[0]), ds[1..]))
  }

  /** The active key after a sequence of starts. */
  function LastStarted(before: ActiveKey, ds: seq<Dir>): ActiveKey
  {
    if ds == [] then before else Key(ds[|ds| - 1])
  }

  /** Whatever the events, the loop never starts a direction's thread while
      that direction is the active key, so no direction is started twice in a
      row; and the active key is always the direction last started. */
  lemma {:induction false} StartsNeverRepeat(c: Control, es: seq<Event>)
    ensures NoRepeat(c.active, Starts(HandleEvents(c, es).1))
    ensures HandleEvents(c, es).0.active == LastStarted(c.active, Starts(HandleEvents(c, es).1))
    decreases |es|
  {
    if es != [] {
      var (c1, a1) := HandleEvent(c, es[0]);
      var (c2, a2) := HandleEvents(c1, es[1..]);
      StartsNeverRepeat(c1, es[1..]);
      StartsAppend(a1, a2);
      assert HandleEvents(c, es) == (c2, a1 + a2);
      var s2 := Starts(a2);
      if a1 != [] && a1[0].Start? {
        var d := a1[0].dir;
        assert a1 == [Start(d)];
        assert Starts(a1) == [d];
        assert ([d] + s2)[0] == d && ([d] + s2)[1..] == s2;
        assert s2 != [] ==> ([d] + s2)[|[d] + s2| - 1] == s2[|s2| - 1];
      } else {
        assert Starts(a1) == [] by {
          assert forall j :: 0 <= j < |a1| ==> a1[j].Cancel?;
        }
        assert c1.active == c.active;
        assert Starts(a1) + s2 == s2;
      }
    }
  }

  /** Events of one bound direction's keys only. */
  predicate SingleKey(es: seq<Event>, d: Dir)
  {
    forall j :: 0 <= j < |es| ==>
      (es[j].KeyDown? || es[j].KeyUp?) && KeyBinding(es[j].code) == Bound(d)
  }

  /** Pressing and releasing one direction's keys, in any pattern, starts
      its thread at most once: exactly once if some press comes and the
      direction was not already active, never otherwise, because a release
      does not clear the active key. */
  lemma {:induction false} SingleKeyStartsOnce(c: Control, es: seq<Event>, d: Dir)
    requires SingleKey(es, d)
    ensures Starts(HandleEvents(c, es).1)
      == if c.active != Key(d) && exists j :: 0 <= j < |es| && es[j].KeyDown? then [d] else []
    decreases |es|
  {
    if es != [] {
      var (c1, a1) := HandleEvent(c, es[0]);
      var (c2, a2) := HandleEvents(c1, es[1..]);
      assert HandleEvents(c, es) == (c2, a1 + a2);
      StartsAppend(a1, a2);
      assert SingleKey(es[1..], d);
      SingleKeyStartsOnce(c1, es[1..], d);
      assert (exists j :: 0 <= j < |es| && es[j].KeyDown?)
        <==> es[0].KeyDown? || exists j :: 0 <= j < |es[1..]| && es[1..][j].KeyDown?;
      if es[0].KeyDown? {
        if c.active != Key(d) {
          assert Starts(a1) == [d];
        } else {
          assert a1 == [];
        }
      }
    }
  }

  /** Press, release, press of one key: the release leaves the active key set,
      so the second press starts nothing; only one thread is ever started. */
  lemma PressReleasePress(c: Control, code: nat)
    requires KeyBinding(code).Bound? && c.active != Key(KeyBinding(code).dir)
    ensures var d := KeyBinding(code).dir;
      HandleEvents(c, [KeyDown(code), KeyUp(code), KeyDown(code)])
        == (c.(active := Key(d)), [Start(d)] + ReleaseCancels(d))
  {
    var d := KeyBinding(code).dir;
    var held := c.(active := Key(d));
    var none: seq<Action> := [];
    var press, release := [KeyDown(code)], [KeyUp(code), KeyDown(code)];
    assert press[1..] == [] && release[1..] == press;
    assert HandleEvents(held, press) == (held, none + none);
    assert HandleEvents(held, release) == (held, ReleaseCancels(d) + (none + none));
    assert ReleaseCancels(d) + (none + none) == ReleaseCancels(d);
    var es := [KeyDown(code)] + release;
    assert es[1..] == release;
  }
}
