/** The game's `while running` loop: each iteration paces the frame, drains
    the event queue, samples the keyboard, updates and draws the sprites and
    presents the rectangles that changed; a quit event or Escape clears the
    `running` flag, and the loop then shuts the display down once. The
    pygame side effects are recorded as a log of calls. */
module MainLoop {

  /** pygame's key codes (pygame 2 numbering). */
  const K_ESCAPE: int := 27
  const K_RIGHT: int := 0x4000_004F
  const K_LEFT: int := 0x4000_0050

  /** The frame rate passed to `clock.tick`. */
  const FPS: nat := 60

  /** An input event as the loop tells them apart: window close, a key press, anything else. */
  datatype Event = Quit | KeyDown(key: int) | Other

  datatype Rect = Rect(left: int, top: int, width: int, height: int)

  /** What the environment supplies to one iteration: the batch of events
      the queue holds, the keys held down, and the rectangles the sprite
      group's `draw` reports as changed. */
  datatype Frame = Frame(events: seq<Event>, pressed: set<int>, dirty: seq<Rect>)

  /** The pygame and logging calls the loop makes. */
  datatype Call =
    | Tick(fps: nat)
    | GetEvents
    | GetPressed
    | UpdateSprites
    | DrawSprites
    | PresentRects(rects: seq<Rect>)
    | WarnClosing
    | Shutdown

  /** The events that end the game. */
  predicate IsQuitEvent(e: Event) {
    e.Quit? || (e.KeyDown? && e.key == K_ESCAPE)
  }

  predicate BatchQuits(events: seq<Event>) {
    exists i :: 0 <= i < |events| && IsQuitEvent(events[i])
  }

  /** The index of the first frame whose batch holds a quit event, or `|frames|`. */
  function FirstQuit(frames: seq<Frame>): (n: nat)
    ensures n <= |frames|
    ensures forall i :: 0 <= i < n ==> !BatchQuits(frames[i].events)
    ensures n < |frames| ==> BatchQuits(frames[n].events)
  {
    if frames == [] then 0
    else if BatchQuits(frames[0].events) then 0
    else 1 + FirstQuit(frames[1..])
  }

  /** The calls one iteration makes, in order. */
  function IterationCalls(f: Frame): seq<Call> {
    [Tick(FPS), GetEvents, GetPressed, UpdateSprites, DrawSprites, PresentRects(f.dirty)]
  }

  /** The calls of the iterations run on `frames`, one after another. */
  function LoopCalls(frames: seq<Frame>): seq<Call> {
    if frames == [] then [] else LoopCalls(frames[..|frames| - 1]) + IterationCalls(frames[|frames| - 1])
  }

  /** The calls made after the loop has stopped. */
  function ClosingCalls(): seq<Call> {
    [WarnClosing, Shutdown]
  }

  /** The `for event in pygame.event.get()` loop: every event of the batch is
      looked at, and `running` ends up false exactly when it was already
      false or the batch holds a quit event. `handled` counts the events
      looked at; that it always reaches `|events|` is the loop having no
      `break` on a quit event. */
  method HandleEvents(running: bool, events: seq<Event>) returns (stillRunning: bool, handled: nat)
    ensures stillRunning <==> running && !BatchQuits(events)
    ensures handled == |events|
  {
    stillRunning := running;
    handled := 0;
    for i := 0 to |events|
      invariant stillRunning <==> running && !BatchQuits(events[..i])
      invariant handled == i
    {
      assert events[..i + 1] == events[..i] + [events[i]];
      var event := events[i];
      handled := handled + 1;
      if event.Quit? {
        stillRunning := false;
      } else if event.KeyDown? {
        if event.key == K_ESCAPE {
          stillRunning := false;
        }
      }
    }
    assert events[..|events|] == events;
  }

  /** The main loop run on the frames the environment supplies. The real
      loop runs for as long as no quit event arrives; here it also stops
      when `frames` is used up, and then `running` is still true.
      `iterations` counts the iterations run. */
  method RunLoop(frames: seq<Frame>) returns (iterations: nat, running: bool, calls: seq<Call>)
    ensures running <==> FirstQuit(frames) == |frames|
    ensures iterations == if running then |frames| else FirstQuit(frames) + 1
    ensures !running ==> BatchQuits(frames[iterations - 1].events)
    ensures calls == LoopCalls(frames[..iterations]) + if running then [] else ClosingCalls()
  {
    running := true;
    iterations := 0;
    calls := [];
    while running && iterations < |frames|
      invariant iterations <= |frames|
      invariant running ==> iterations <= FirstQuit(frames)
      invariant !running ==> iterations > 0 && iterations == FirstQuit(frames) + 1
      invariant calls == LoopCalls(frames[..iterations])
      decreases |frames| - iterations
    {
      var frame := frames[iterations];
      calls := calls + [Tick(FPS)];
      calls := calls + [GetEvents];
      var handled;
      running, handled := HandleEvents(running, frame.events);
      calls := calls + [GetPressed];
      if K_LEFT in frame.pressed {
      } else if K_RIGHT in frame.pressed {
      }
      calls := calls + [UpdateSprites];
      calls := calls + [DrawSprites];
      calls := calls + [PresentRects(frame.dirty)];
      assert frames[..iterations + 1][..iterations] == frames[..iterations];
      iterations := iterations + 1;
    }
    if !running {
      calls := calls + ClosingCalls();
    }
  }

  /** The call log of `n` iterations is `n` blocks of six calls, block `k`
      being iteration `k`: tick, drain events, sample keys, update, draw,
      present what draw returned. */
  lemma {:induction false} LoopCallsShape(frames: seq<Frame>, k: nat)
    requires k < |frames|
    ensures |LoopCalls(frames)| == 6 * |frames|
    ensures LoopCalls(frames)[6 * k .. 6 * k + 6] == IterationCalls(frames[k])
    decreases |frames|
  {
    var init := frames[..|frames| - 1];
    LoopCallsLength(init);
    if k < |frames| - 1 {
      LoopCallsShape(init, k);
      assert LoopCalls(frames)[6 * k .. 6 * k + 6] == LoopCalls(init)[6 * k .. 6 * k + 6];
    }
  }

  lemma {:induction false} LoopCallsLength(frames: seq<Frame>)
    ensures |LoopCalls(frames)| == 6 * |frames|
    decreases |frames|
  {
    if frames != [] {
      LoopCallsLength(frames[..|frames| - 1]);
    }
  }

  /** Every iteration updates the sprites exactly once and draws them exactly
      once, and no iteration shuts down. */
  lemma {:induction false} LoopCallsCounts(frames: seq<Frame>)
    ensures multiset(LoopCalls(frames))[UpdateSprites] == |frames|
    ensures multiset(LoopCalls(frames))[DrawSprites] == |frames|
    ensures multiset(LoopCalls(frames))[Shutdown] == 0
    decreases |frames|
  {
    if frames != [] {
      var init, last := frames[..|frames| - 1], frames[|frames| - 1];
      LoopCallsCounts(init);
    }
  }

  /** A loop that has stopped has shut the display down exactly once, as its
      last call. */
  lemma ShutdownOnce(frames: seq<Frame>)
    ensures multiset(LoopCalls(frames) + ClosingCalls())[Shutdown] == 1
  {
    LoopCallsCounts(frames);
  }

  /** The iteration that sees the quit event still updates, draws and
      presents, and only then does the loop close. */
  lemma QuitIterationCompletes(frames: seq<Frame>)
    requires FirstQuit(frames) < |frames|
    ensures var n := FirstQuit(frames) + 1;
            var calls := LoopCalls(frames[..n]) + ClosingCalls();
            BatchQuits(frames[n - 1].events)
            && |calls| == 6 * n + 2
            && calls[6 * n - 3] == UpdateSprites
            && calls[6 * n - 2] == DrawSprites
            && calls[6 * n - 1] == PresentRects(frames[n - 1].dirty)
            && calls[6 * n..] == ClosingCalls()
  {
    var n := FirstQuit(frames) + 1;
    var run := frames[..n];
    LoopCallsShape(run, n - 1);
    var calls := LoopCalls(run) + ClosingCalls();
    assert calls[6 * (n - 1) .. 6 * n] == IterationCalls(run[n - 1]);
  }

  /** The sampled key state has no effect: frames that differ only in the
      keys held down give the same stopping point and the same calls. */
  lemma {:induction false} PressedIrrelevant(a: seq<Frame>, b: seq<Frame>)
    requires |a| == |b|
    requires forall i :: 0 <= i < |a| ==> a[i].events == b[i].events && a[i].dirty == b[i].dirty
    ensures FirstQuit(a) == FirstQuit(b)
    ensures LoopCalls(a) == LoopCalls(b)
    decreases |a|
  {
    if a != [] {
      PressedIrrelevant(a[1..], b[1..]);
      PressedIrrelevant(a[..|a| - 1], b[..|b| - 1]);
    }
  }
}
