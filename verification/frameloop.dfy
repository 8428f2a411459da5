/** The animation loop of `main` as a sequence of frames: each frame drains
    the pending events through the dispatch, draws (left to the renderer),
    and drifts every sprite one step toward the viewer; the loop stops after
    the frame in which a quit event arrived. */
module FrameLoop {
  import opened Config
  import opened Sprites
  import opened Stepper
  import opened Controller

  /** Everything one frame reads and writes. */
  datatype World = World(control: Control, store: seq<Sprite>)

  predicate HasQuit(es: seq<Event>)
  {
    exists j :: 0 <= j < |es| && es[j].Quit?
  }

  /** One pass of the `while (!quit)` body: dispatch every polled event, then
      `step(0)`. The quit flag does not cut the frame short. */
  function Frame(w: World, events: seq<Event>): (r: (World, seq<Action>))
    requires ValidStore(w.store)
    ensures ValidStore(r.0.store)
    ensures r.0.control.quit <==> w.control.quit || HasQuit(events)
    // the new state and the thread actions are those of the dispatch of the poll
    ensures (r.0.control, r.1) == HandleEvents(w.control, events)
    ensures forall i :: 0 <= i < |w.store| ==>
      r.0.store[i].(dest := w.store[i].dest) == Advance(w.store[i], Approach)
  {
    var (c, acts) := HandleEvents(w.control, events);
    StepPreservesValid(w.store, Approach);
    (World(c, Step(w.store, Approach)), acts)
  }

  /** The events of successive polls, one after another. */
  function Flatten(polls: seq<seq<Event>>): seq<Event>
  {
    if polls == [] then [] else polls[0] + Flatten(polls[1..])
  }

  /** The loop over successive polls, until quit: the final world, how many
      frames ran, and the thread actions of those frames in order. */
  function RunFrames(w: World, polls: seq<seq<Event>>): (r: (World, nat, seq<Action>))
    requires ValidStore(w.store)
    ensures ValidStore(r.0.store)
    ensures r.1 <= |polls|
    // the loop ends only on quit or when the polls run out
    ensures r.0.control.quit || r.1 == |polls|
    // a world already quitting runs no frame; otherwise no frame but the last saw a quit
    ensures w.control.quit ==> r == (w, 0, [])
    // the quit flag ends set exactly when it was set or a poll of a frame that ran held a quit
    ensures r.0.control.quit <==> w.control.quit || exists k :: 0 <= k < r.1 && HasQuit(polls[k])
    ensures forall k :: 0 <= k < r.1 - 1 ==> !HasQuit(polls[k])
    // the frames together dispatch exactly the events of the polls they drained
    ensures (r.0.control, r.2) == HandleEvents(w.control, Flatten(polls[..r.1]))
    // each frame drifts the field one approach step, whatever the keys did
    ensures r.0.store == Run(w.store, Repeat(Approach, r.1))
    decreases |polls|
  {
    if polls == [] || w.control.quit then (w, 0, [])
    else
      var (next, acts) := Frame(w, polls[0]);
      var (last, n, rest) := RunFrames(next, polls[1..]);
      assert forall k :: 1 <= k < |polls| ==> polls[k] == polls[1..][k - 1];
      assert Repeat(Approach, n + 1)[1..] == Repeat(Approach, n);
      assert next.store == Step(w.store, Approach);
      assert polls[..n + 1][0] == polls[0] && polls[..n + 1][1..] == polls[1..][..n];
      HandleEventsAppend(w.control, polls[0], Flatten(polls[1..][..n]));
      (last, n + 1, acts + rest)
  }

  /** Across frames, as within one, no direction's thread is started twice
      in a row, and the active key ends as the direction last started. */
  lemma RunFramesNeverRepeat(w: World, polls: seq<seq<Event>>)
    requires ValidStore(w.store)
    ensures NoRepeat(w.control.active, Starts(RunFrames(w, polls).2))
    ensures RunFrames(w, polls).0.control.active
      == LastStarted(w.control.active, Starts(RunFrames(w, polls).2))
  {
    var r := RunFrames(w, polls);
    StartsNeverRepeat(w.control, Flatten(polls[..r.1]));
  }

  /** The byte the motion thread of a direction passes to `step` on every
      tick (`move_up` steps 1, `move_down` 2, `move_left` 3, `move_right` 4). */
  function TaskStep(d: Dir): (b: Byte)
    ensures b == d.Code() && MoveUp <= b <= MoveRight
  {
    match d
    case Up => MoveUp
    case Down => MoveDown
    case Left => MoveLeft
    case Right => MoveRight
  }

  /** How far `n` pan steps of a direction shift the world along x and
      along y: moving up or left shifts it the other way, so y or x grows. */
  function ShiftX(d: Dir, n: nat): int
  {
    match d
    case Left => StepSize * n
    case Right => -(StepSize * n)
    case _ => 0
  }

  function ShiftY(d: Dir, n: nat): int
  {
    match d
    case Up => StepSize * n
    case Down => -(StepSize * n)
    case _ => 0
  }

  /** `n` ticks of one motion thread move a sprite `n` steps along the
      thread's axis and leave its depth alone. */
  lemma TaskTicksSprite(s: Sprite, d: Dir, n: nat)
    ensures AdvanceAll(s, Repeat(TaskStep(d), n)).xreal == s.xreal + ShiftX(d, n)
    ensures AdvanceAll(s, Repeat(TaskStep(d), n)).yreal == s.yreal + ShiftY(d, n)
    ensures AdvanceAll(s, Repeat(TaskStep(d), n)).zreal == s.zreal
  {
    var b := TaskStep(d);
    var ds := Repeat(b, n);
    RepeatPans(b, n);
    PanDisplacement(s, ds);
    RepeatCount(b, n, MoveUp);
    RepeatCount(b, n, MoveDown);
    RepeatCount(b, n, MoveLeft);
    RepeatCount(b, n, MoveRight);
    var nx, ny := Net(ds, MoveLeft, MoveRight), Net(ds, MoveUp, MoveDown);
    match d
    case Up => assert nx == 0 && ny == n;
    case Down => assert nx == 0 && ny == -(n as int);
    case Left => assert nx == n && ny == 0;
    case Right => assert nx == -(n as int) && ny == 0;
  }

  /** The same for every sprite of the store. */
  lemma TaskTicks(store: seq<Sprite>, d: Dir, n: nat, i: int)
    requires ValidStore(store) && 0 <= i < |store|
    ensures Run(store, Repeat(TaskStep(d), n))[i].xreal == store[i].xreal + ShiftX(d, n)
    ensures Run(store, Repeat(TaskStep(d), n))[i].yreal == store[i].yreal + ShiftY(d, n)
    ensures Run(store, Repeat(TaskStep(d), n))[i].zreal == store[i].zreal
  {
    RunPosition(store, Repeat(TaskStep(d), n), i);
    TaskTicksSprite(store[i], d, n);
  }

  /** Repeating a pan gives pans only. */
  lemma RepeatPans(b: Byte, n: nat)
    requires MoveUp <= b <= MoveRight
    ensures PansOnly(Repeat(b, n))
  {
    var ds := Repeat(b, n);
    forall j | 0 <= j < |ds|
      ensures MoveUp <= ds[j] <= MoveRight
    {
      RepeatCount(b, n, ds[j]);
      assert ds[j] in multiset(ds);
    }
  }

}
