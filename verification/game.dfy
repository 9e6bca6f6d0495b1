/** A run of the game as a sequence of events: input polls, movement ticks
    and growth events, in the order the timers fire them. */
module Game {
  import opened Outcomes
  import opened Grid
  import opened Simulation
  import opened Controls
  import opened Follow

  datatype Event = Press(keys: Keys) | Tick | Feed

  /** Apply the events in order; the first panic ends the run. */
  function Run(s: Snake, evs: seq<Event>): Result<Snake>
    decreases |evs|
  {
    if |evs| == 0 then Ok(s)
    else
      var next := match evs[0]
        case Press(k) => Ok(Input(s, k))
        case Tick => Movement(s)
        case Feed => Grow(s);
      match next
      case Panic(f) => Panic(f)
      case Ok(s') => Run(s', evs[1..])
  }

  /** Number of growth events in a run. */
  function Feeds(evs: seq<Event>): nat {
    if |evs| == 0 then 0 else (if evs[0].Feed? then 1 else 0) + Feeds(evs[1..])
  }

  /** The head history of a run: every tick adds the new head in front. */
  ghost function Hist(s: Snake, evs: seq<Event>, hist: seq<Pos>): seq<Pos>
    decreases |evs|
  {
    if |evs| == 0 then hist
    else match evs[0]
      case Press(k) => Hist(Input(s, k), evs[1..], hist)
      case Feed => if Grow(s).Ok? then Hist(Grow(s).value, evs[1..], hist) else hist
      case Tick =>
        if Movement(s).Ok?
        then Hist(Movement(s).value, evs[1..], [Movement(s).value.head] + hist)
        else hist
  }

  /** Length equals segment count after any run, and the `length - 1` of
      the movement tick never underflows. */
  lemma {:induction false} RunKeepsValid(s: Snake, evs: seq<Event>)
    requires Valid(s)
    ensures Run(s, evs) != Panic(LengthUnderflow)
    ensures Run(s, evs).Ok? ==> Valid(Run(s, evs).value)
    decreases |evs|
  {
    if |evs| > 0 {
      match evs[0]
      case Press(k) =>
        InputKeepsValid(s, k);
        RunKeepsValid(Input(s, k), evs[1..]);
      case Tick =>
        MovementSafe(s);
        if Movement(s).Ok? {
          MovementKeepsValid(s);
          RunKeepsValid(Movement(s).value, evs[1..]);
        }
      case Feed =>
        if Grow(s).Ok? {
          GrowKeepsValid(s);
          RunKeepsValid(Grow(s).value, evs[1..]);
        }
    }
  }

  /** Growth is the only thing that changes the length, by one each time. */
  lemma {:induction false} RunCountsFeeds(s: Snake, evs: seq<Event>)
    requires Run(s, evs).Ok?
    ensures Run(s, evs).value.length == s.length + Feeds(evs)
    decreases |evs|
  {
    if |evs| > 0 {
      match evs[0]
      case Press(k) => RunCountsFeeds(Input(s, k), evs[1..]);
      case Tick => RunCountsFeeds(Movement(s).value, evs[1..]);
      case Feed => RunCountsFeeds(Grow(s).value, evs[1..]);
    }
  }

  /** Along any run, every segment stays where the head was
      `length - countdown` ticks before. */
  lemma {:induction false} RunKeepsTrail(s: Snake, evs: seq<Event>, hist: seq<Pos>)
    requires Trail(s, hist)
    requires Run(s, evs).Ok?
    ensures Trail(Run(s, evs).value, Hist(s, evs, hist))
    decreases |evs|
  {
    if |evs| > 0 {
      match evs[0]
      case Press(k) =>
        TrailInput(s, k, hist);
        RunKeepsTrail(Input(s, k), evs[1..], hist);
      case Tick =>
        TrailMovement(s, hist);
        RunKeepsTrail(Movement(s).value, evs[1..], [Movement(s).value.head] + hist);
      case Feed =>
        TrailGrow(s, hist);
        RunKeepsTrail(Grow(s).value, evs[1..], hist);
    }
  }

  /** From the start: one growth puts a segment on the origin with
      countdown 1; the next tick moves only the head; the tick after that
      makes the segment jump to (1, 0) as the head reaches (2, 0). */
  lemma GrowThenTwoTicks()
    ensures Run(Init(), [Feed, Tick]) == Ok(Snake(Pos(1, 0), Right, 1, [Segment(Pos(0, 0), 0)]))
    ensures Run(Init(), [Feed, Tick, Tick]) == Ok(Snake(Pos(2, 0), Right, 1, [Segment(Pos(1, 0), 0)]))
  {
    var s1 := Snake(Pos(0, 0), Right, 1, [Segment(Pos(0, 0), 1)]);
    var s2 := Snake(Pos(1, 0), Right, 1, [Segment(Pos(0, 0), 0)]);
    var s3 := Snake(Pos(2, 0), Right, 1, [Segment(Pos(1, 0), 0)]);
    GrowFromInit();
    assert Movement(s1).value.body == s2.body;
    assert Movement(s2).value.body == s3.body;
    assert Run(s2, [Tick]) == Ok(s3);
    assert Run(s1, [Tick]) == Ok(s2);
    assert [Feed, Tick][1..] == [Tick];
    assert [Feed, Tick, Tick][1..] == [Tick, Tick];
    assert [Tick, Tick][1..] == [Tick];
  }

  lemma GrowFromInit()
    ensures Grow(Init()) == Ok(Snake(Pos(0, 0), Right, 1, [Segment(Pos(0, 0), 1)]))
  {
    assert Grow(Init()).value.body == [Segment(Pos(0, 0), 1)];
  }

  /** Two growths with no tick between spawn two segments on the same cell
      with the same countdown. */
  lemma TwoGrowsStack()
    ensures Run(Init(), [Feed, Feed]) == Ok(Snake(Pos(0, 0), Right, 2, [Segment(Pos(0, 0), 2), Segment(Pos(0, 0), 2)]))
  {
    var s1 := Snake(Pos(0, 0), Right, 1, [Segment(Pos(0, 0), 1)]);
    GrowFromInit();
    assert Grow(s1).value.body == [Segment(Pos(0, 0), 2), Segment(Pos(0, 0), 2)];
    assert [Feed, Feed][1..] == [Feed];
  }

  /** Stacked segments never separate: every event treats equal segments
      alike. */
  lemma {:induction false} StackedStayStacked(s: Snake, evs: seq<Event>, i: nat, j: nat)
    requires i < |s.body| && j < |s.body| && s.body[i] == s.body[j]
    requires Run(s, evs).Ok?
    ensures i < |Run(s, evs).value.body| && j < |Run(s, evs).value.body|
    ensures Run(s, evs).value.body[i] == Run(s, evs).value.body[j]
    decreases |evs|
  {
    if |evs| > 0 {
      match evs[0]
      case Press(k) => StackedStayStacked(Input(s, k), evs[1..], i, j);
      case Tick => StackedStayStacked(Movement(s).value, evs[1..], i, j);
      case Feed => StackedStayStacked(Grow(s).value, evs[1..], i, j);
    }
  }
}
