/** The main loop of the Life display: the interval and pattern state it keeps,
    and its reaction to each message taken from the message queue.

    The model has two layers.  `Dispatch` is a pure state transformer over
    (grid, interval, pattern) that also returns the calls the loop makes to the
    display and to the timer service, as a list of effects.  `Handle` and
    `RunLoop` are the imperative loop over the display buffer, proved to follow
    `Dispatch` and `Run`.
 */
module MainLoop {
  import opened Patterns
  import opened Life

  datatype Option<T> = None | Some(value: T)

  /** The keys the loop distinguishes; any other key code is ignored. */
  datatype Key = KeyLeft | KeyRight | KeyMiddle | OtherKey(code: int)

  /** A message as the loop decodes it: its event and, for key events, the key. */
  datatype Message =
    | TimerExpired
    | KeyDown(key: Key)
    | KeyRepeat(key: Key)
    | KeyUp(key: Key)
    | OtherEvent(code: int)

  /** The calls the loop makes outside itself: pushing the buffer to the
      display, and restarting the generation timer with a period. */
  datatype Effect = SendScreen(screen: seq<bv8>) | RestartTimer(period: nat)

  /** The loop's state: the display buffer and its two local variables. */
  datatype State = State(grid: seq<bv8>, interval: nat, pattern: nat)

  /** The state after a message and the calls made while handling it. */
  datatype Reaction = Reaction(state: State, effects: seq<Effect>)

  const MinInterval: nat := 50
  const MaxInterval: nat := 1000
  const IntervalIncrement: nat := 50
  const InitialInterval: nat := 150

  /** Where the seeding pattern is stamped: after column 10, two rows down. */
  const SeedLine: nat := 10
  const SeedOffset: nat := 2

  /** The states the loop can be in between messages. */
  predicate Invariant(s: State)
  {
    IsGrid(s.grid)
    && MinInterval <= s.interval <= MaxInterval
    && s.interval % IntervalIncrement == 0
    && s.pattern < |Table|
  }

  /** The buffer after clearing it and stamping pattern `k` at the seed position. */
  function SeedGrid(k: nat): (g: seq<bv8>)
    requires k < |Table|
    ensures IsGrid(g)
  {
    TableBounds(k);
    Stamp(Empty(), Table[k].bitmap, SeedLine, SeedOffset)
  }

  /** The `init` block: clear, stamp the current pattern, send the screen and
      restart the timer with the current interval. */
  function Reseed(s: State): (r: Reaction)
    requires s.pattern < |Table|
    ensures IsGrid(r.state.grid) && r.state.interval == s.interval && r.state.pattern == s.pattern
    ensures |r.effects| <= 2
  {
    var g := SeedGrid(s.pattern);
    Reaction(State(g, s.interval, s.pattern), [SendScreen(g), RestartTimer(s.interval)])
  }

  /** Start-up: the locals' initial values, then a jump to `init`, which seeds
      pattern 0 without advancing it. */
  function Start(): (r: Reaction)
    ensures Invariant(r.state)
  {
    Reseed(State(Empty(), InitialInterval, 0))
  }

  /** A key press or repeat. */
  function OnKey(s: State, k: Key): (r: Reaction)
    requires IsGrid(s.grid)
    ensures IsGrid(r.state.grid)
    ensures r.state.interval != s.interval ==> r.effects == [RestartTimer(r.state.interval)]
    ensures |r.effects| <= 2
  {
    match k
    case KeyLeft =>
      if s.interval > MinInterval then
        var i := s.interval - IntervalIncrement;
        Reaction(s.(interval := i), [RestartTimer(i)])
      else Reaction(s, [])
    case KeyRight =>
      if s.interval < MaxInterval then
        var i := s.interval + IntervalIncrement;
        Reaction(s.(interval := i), [RestartTimer(i)])
      else Reaction(s, [])
    case KeyMiddle =>
      Reseed(s.(pattern := (s.pattern + 1) % |Table|))
    case OtherKey(_) =>
      Reaction(s, [])
  }

  /** One message: a timer expiry advances the grid one generation and sends
      it; a key press and a key repeat are handled alike; everything else is
      ignored. */
  function Dispatch(s: State, m: Message): (r: Reaction)
    requires IsGrid(s.grid)
    ensures IsGrid(r.state.grid)
    ensures |r.effects| <= 2
  {
    match m
    case TimerExpired =>
      var g := Generation(s.grid);
      Reaction(s.(grid := g), [SendScreen(g)])
    case KeyDown(k) => OnKey(s, k)
    case KeyRepeat(k) => OnKey(s, k)
    case KeyUp(_) => Reaction(s, [])
    case OtherEvent(_) => Reaction(s, [])
  }

  /** One poll of the queue: `None` when it was empty, which changes nothing. */
  function Poll(s: State, m: Option<Message>): (r: Reaction)
    requires IsGrid(s.grid)
    ensures IsGrid(r.state.grid)
    ensures |r.effects| <= 2
  {
    match m
    case None => Reaction(s, [])
    case Some(msg) => Dispatch(s, msg)
  }

  /** The result of a run of polls from state `s`, the effects in call order. */
  function Run(s: State, polls: seq<Option<Message>>): (r: Reaction)
    requires Invariant(s)
    ensures Invariant(r.state)
    decreases |polls|
  {
    if |polls| == 0 then Reaction(s, [])
    else
      var before := Run(s, polls[..|polls| - 1]);
      var last := Poll(before.state, polls[|polls| - 1]);
      PollPreserves(before.state, polls[|polls| - 1]);
      Reaction(last.state, before.effects + last.effects)
  }

  // ---------------------------------------------------------------------------
  // Properties of the pure loop.

  /** Start-up seeds pattern 0 with the interval at 150, then sends the screen
      and starts the timer with that interval. */
  lemma StartSeedsGlider()
    ensures Invariant(Start().state)
    ensures Start().state == State(SeedGrid(0), 150, 0)
    ensures Start().effects == [SendScreen(SeedGrid(0)), RestartTimer(150)]
    ensures Table[Start().state.pattern].bitmap == [0x08, 0x04, 0x1c]
  {
    TableShape();
  }

  /** Every message keeps the interval a multiple of 50 within [50, 1000] and
      the pattern index inside the table. */
  lemma DispatchPreserves(s: State, m: Message)
    requires Invariant(s)
    ensures Invariant(Dispatch(s, m).state)
  {
    TableShape();
    if m.TimerExpired? {
      assert IsGrid(Dispatch(s, m).state.grid);
    }
  }

  lemma PollPreserves(s: State, m: Option<Message>)
    requires Invariant(s)
    ensures Invariant(Poll(s, m).state)
  {
    if m.Some? {
      DispatchPreserves(s, m.value);
    }
  }

  /** Every state the loop reaches from start-up satisfies the invariant. */
  lemma RunFromStart(polls: seq<Option<Message>>)
    ensures Invariant(Start().state)
    ensures Invariant(Run(Start().state, polls).state)
  {
    StartSeedsGlider();
  }

  /** Left slows the generations down... */
  lemma LeftKey(s: State, down: bool)
    requires Invariant(s)
    ensures var r := Dispatch(s, if down then KeyDown(KeyLeft) else KeyRepeat(KeyLeft));
      r.state.grid == s.grid && r.state.pattern == s.pattern
      && (if s.interval == MinInterval then r.state.interval == s.interval && r.effects == []
          else r.state.interval == s.interval - 50 && r.effects == [RestartTimer(r.state.interval)])
  {
  }

  /** ...and right speeds them up, each by 50 and within the bounds. */
  lemma RightKey(s: State, down: bool)
    requires Invariant(s)
    ensures var r := Dispatch(s, if down then KeyDown(KeyRight) else KeyRepeat(KeyRight));
      r.state.grid == s.grid && r.state.pattern == s.pattern
      && (if s.interval == MaxInterval then r.state.interval == s.interval && r.effects == []
          else r.state.interval == s.interval + 50 && r.effects == [RestartTimer(r.state.interval)])
  {
  }

  /** The middle key, pressed or repeating, moves to the next pattern, wrapping
      from the last to the first, and reseeds the grid with it: the pattern
      reads back from the columns after column 10, every other column is
      clear, and the timer restarts with the unchanged interval. */
  lemma MiddleKey(s: State, down: bool)
    requires Invariant(s)
    ensures var r := Dispatch(s, if down then KeyDown(KeyMiddle) else KeyRepeat(KeyMiddle));
      var w := Table[r.state.pattern].Columns();
      r.state.pattern == (if s.pattern == 4 then 0 else s.pattern + 1)
      && r.state.interval == s.interval
      && r.state.grid == SeedGrid(r.state.pattern)
      && r.effects == [SendScreen(r.state.grid), RestartTimer(s.interval)]
      && Unstamp(r.state.grid, SeedLine, w, SeedOffset) == Table[r.state.pattern].bitmap
      && (forall i :: 0 <= i < Columns && !(11 <= i <= 10 + w) ==> r.state.grid[i] == 0)
  {
    TableShape();
    var p := (s.pattern + 1) % |Table|;
    SeedReadsBack(p);
  }

  /** Seeding pattern `k` writes its bytes, shifted down two rows, into columns
      11 to 10 + width, all within the grid, with no row lost in the shift. */
  lemma SeedReadsBack(k: nat)
    requires k < |Table|
    ensures 11 + Table[k].Columns() <= 19
    ensures Unstamp(SeedGrid(k), SeedLine, Table[k].Columns(), SeedOffset) == Table[k].bitmap
    ensures forall i :: 0 <= i < Columns && !(11 <= i <= 10 + Table[k].Columns()) ==> SeedGrid(k)[i] == 0
  {
    var b := Table[k].bitmap;
    TableBounds(k);
    forall n | 0 <= n < |b|
      ensures FitsShifted(b[n], SeedOffset)
    {
      FitsBelow40(b[n]);
    }
    StampFrame(Empty(), b, SeedLine, SeedOffset);
  }

  /** A byte below 0x40 keeps all its rows after a shift by two. */
  lemma FitsBelow40(b: bv8)
    requires b <= 0x3f
    ensures FitsShifted(b, 2)
  {
  }

  /** Five middle-key presses return to the same pattern and grid. */
  lemma MiddleCycle(s: State)
    requires Invariant(s)
    ensures var m := KeyDown(KeyMiddle);
      var s5 := Dispatch(Dispatch(Dispatch(Dispatch(Dispatch(s, m).state, m).state, m).state, m).state, m).state;
      s5.pattern == s.pattern && s5.interval == s.interval && s5.grid == SeedGrid(s.pattern)
  {
    TableShape();
  }

  /** A timer expiry replaces the grid by its next generation, in which each
      cell follows B3/S23 on its eight neighbours, and sends it. */
  lemma TimerStep(s: State, x: nat, y: nat)
    requires Invariant(s) && x < Columns && y < Rows
    ensures var r := Dispatch(s, TimerExpired);
      r.state.interval == s.interval && r.state.pattern == s.pattern
      && r.effects == [SendScreen(r.state.grid)]
      && Cell(r.state.grid, x, y) == B3S23(Cell(s.grid, x, y), Neighbours(s.grid, x, y))
  {
    GenerationIsB3S23(s.grid, x, y);
  }

  /** Key releases, other keys, other events and empty polls change nothing
      and call nothing. */
  lemma Ignored(s: State, k: Key, code: int)
    requires Invariant(s)
    ensures Dispatch(s, KeyUp(k)) == Reaction(s, [])
    ensures Dispatch(s, KeyDown(OtherKey(code))) == Reaction(s, [])
    ensures Dispatch(s, KeyRepeat(OtherKey(code))) == Reaction(s, [])
    ensures Dispatch(s, OtherEvent(code)) == Reaction(s, [])
    ensures Poll(s, None) == Reaction(s, [])
  {
  }

  // ---------------------------------------------------------------------------
  // The loop over the display buffer.

  /** `memset(leds, 0, 32)`. */
  method Clear(leds: array<bv8>)
    requires leds.Length == Columns
    modifies leds
    ensures leds[..] == Empty()
  {
    forall i | 0 <= i < Columns {
      leds[i] := 0;
    }
  }

  /** The `init` block on the buffer. */
  method Seed(leds: array<bv8>, pattern: nat, interval: nat) returns (effects: seq<Effect>)
    requires leds.Length == Columns && pattern < |Table|
    modifies leds
    ensures Reseed(State(old(leds[..]), interval, pattern)) == Reaction(State(leds[..], interval, pattern), effects)
  {
    Clear(leds);
    TableBounds(pattern);
    WriteOffset(leds, Table[pattern], SeedLine, SeedOffset);
    effects := [SendScreen(leds[..]), RestartTimer(interval)];
  }

  /** One trip through the switch of the main loop. */
  method Handle(leds: array<bv8>, interval: nat, pattern: nat, m: Message)
    returns (interval': nat, pattern': nat, effects: seq<Effect>)
    requires leds.Length == Columns
    modifies leds
    ensures Dispatch(State(old(leds[..]), interval, pattern), m) == Reaction(State(leds[..], interval', pattern'), effects)
  {
    interval', pattern', effects := interval, pattern, [];
    match m
    case TimerExpired =>
      Step(leds);
      effects := [SendScreen(leds[..])];
    case KeyDown(k) =>
      interval', pattern', effects := HandleKey(leds, interval, pattern, k);
    case KeyRepeat(k) =>
      interval', pattern', effects := HandleKey(leds, interval, pattern, k);
    case KeyUp(_) =>
    case OtherEvent(_) =>
  }

  /** The inner switch on the key of a press or repeat. */
  method HandleKey(leds: array<bv8>, interval: nat, pattern: nat, k: Key)
    returns (interval': nat, pattern': nat, effects: seq<Effect>)
    requires leds.Length == Columns
    modifies leds
    ensures OnKey(State(old(leds[..]), interval, pattern), k) == Reaction(State(leds[..], interval', pattern'), effects)
  {
    interval', pattern', effects := interval, pattern, [];
    match k
    case KeyLeft =>
      if interval > MinInterval {
        interval' := interval - IntervalIncrement;
        effects := [RestartTimer(interval')];
      }
    case KeyRight =>
      if interval < MaxInterval {
        interval' := interval + IntervalIncrement;
        effects := [RestartTimer(interval')];
      }
    case KeyMiddle =>
      pattern' := (pattern + 1) % |Table|;
      effects := Seed(leds, pattern', interval);
    case OtherKey(_) =>
  }

  /** `main` from start-up through a finite run of queue polls: the jump to
      `init`, then one trip through the loop per poll. */
  method RunLoop(leds: array<bv8>, polls: seq<Option<Message>>)
    returns (interval: nat, pattern: nat, effects: seq<Effect>)
    requires leds.Length == Columns
    modifies leds
    ensures var r := Run(Start().state, polls);
      State(leds[..], interval, pattern) == r.state && effects == Start().effects + r.effects
  {
    interval, pattern := InitialInterval, 0;
    effects := Seed(leds, pattern, interval);
    RunFromStart([]);
    var k := 0;
    while k < |polls|
      invariant k <= |polls|
      invariant var r := Run(Start().state, polls[..k]);
        State(leds[..], interval, pattern) == r.state && effects == Start().effects + r.effects
      decreases |polls| - k
    {
      var more: seq<Effect> := [];
      if polls[k].Some? {
        interval, pattern, more := Handle(leds, interval, pattern, polls[k].value);
      }
      assert polls[..k + 1][..k] == polls[..k];
      effects := effects + more;
      k := k + 1;
    }
    assert polls[..k] == polls;
  }
}
