/** The snake as a pure state machine: a head, a direction, a length and
    the body segments, each with its own follow countdown. One movement
    tick and one growth event are functions from state to outcome. */
module Simulation {
  import opened Ints
  import opened Outcomes
  import opened Grid

  datatype Segment = Segment(pos: Pos, countdown: u64)

  datatype Snake = Snake(head: Pos, dir: Dir, length: u64, body: seq<Segment>)

  /** The single snake the game starts with: at the origin, heading right,
      with no body. */
  function Init(): (s: Snake)
    ensures Valid(s)
    ensures |s.body| == 0 && s.head == Pos(0, 0) && s.dir == Right
  {
    Snake(Pos(0, 0), Right, 0, [])
  }

  /** The invariant: the length counts the segments, and no countdown is
      longer than the snake. */
  predicate Valid(s: Snake) {
    && s.length == |s.body|
    && forall i :: 0 <= i < |s.body| ==> s.body[i].countdown <= s.length
  }

  /** Some segment is due to jump this tick. */
  predicate HasDue(body: seq<Segment>) {
    exists i :: 0 <= i < |body| && body[i].countdown == 0
  }

  /** Some countdown cannot be incremented without leaving u64. */
  predicate HasMaxCountdown(body: seq<Segment>) {
    exists i :: 0 <= i < |body| && body[i].countdown == U64_MAX
  }

  /** One segment during a tick: wait, or jump to where the head is now. */
  function StepSegment(seg: Segment, length: u64, head: Pos): Result<Segment> {
    if seg.countdown > 0 then Ok(Segment(seg.pos, seg.countdown - 1))
    else if length == 0 then Panic(LengthUnderflow)
    else Ok(Segment(MoveTo(seg.pos, head), length - 1))
  }

  /** Every segment stepped against the same length and head. */
  function StepBody(body: seq<Segment>, length: u64, head: Pos): (r: Result<seq<Segment>>)
    ensures r.Panic? <==> length == 0 && HasDue(body)
    ensures r.Panic? ==> r.fault == LengthUnderflow
    ensures r.Ok? ==> |r.value| == |body|
    ensures r.Ok? ==> forall i :: 0 <= i < |body| ==> StepSegment(body[i], length, head) == Ok(r.value[i])
  {
    if |body| == 0 then Ok([])
    else
      match StepSegment(body[0], length, head)
      case Panic(f) => Panic(f)
      case Ok(first) =>
        match StepBody(body[1..], length, head)
        case Panic(f) => Panic(f)
        case Ok(rest) => Ok([first] + rest)
  }

  /** One movement tick: all segments first, against the head position
      from before the tick, then the head steps in its direction. */
  function Movement(s: Snake): (r: Result<Snake>)
    ensures r == Panic(LengthUnderflow) <==> s.length == 0 && HasDue(s.body)
    ensures r == Panic(HeadOverflow) <==> !(s.length == 0 && HasDue(s.body)) && !CanMove(s.head, s.dir)
    ensures r.Panic? ==> r.fault != GrowOverflow
    ensures r.Ok? ==> r.value.length == s.length && r.value.dir == s.dir
    ensures r.Ok? ==> |r.value.body| == |s.body|
    ensures r.Ok? ==> Mv(s.head, s.dir) == Some(r.value.head)
    ensures r.Ok? ==> forall i :: 0 <= i < |s.body| && s.body[i].countdown > 0 ==>
      r.value.body[i].pos == s.body[i].pos && r.value.body[i].countdown == s.body[i].countdown - 1
    ensures r.Ok? ==> forall i :: 0 <= i < |s.body| && s.body[i].countdown == 0 ==>
      r.value.body[i].pos == s.head && r.value.body[i].countdown == s.length - 1
  {
    match StepBody(s.body, s.length, s.head)
    case Panic(f) => Panic(f)
    case Ok(body) =>
      match Mv(s.head, s.dir)
      case None => Panic(HeadOverflow)
      case Some(head) => Ok(Snake(head, s.dir, s.length, body))
  }

  /** Every countdown incremented, as the growth loop does. */
  function BumpBody(body: seq<Segment>): (r: Result<seq<Segment>>)
    ensures r.Panic? <==> HasMaxCountdown(body)
    ensures r.Panic? ==> r.fault == GrowOverflow
    ensures r.Ok? ==> |r.value| == |body|
    ensures r.Ok? ==> forall i :: 0 <= i < |body| ==>
      r.value[i].pos == body[i].pos && r.value[i].countdown == body[i].countdown + 1
  {
    if |body| == 0 then Ok([])
    else if body[0].countdown == U64_MAX then Panic(GrowOverflow)
    else
      match BumpBody(body[1..])
      case Panic(f) => Panic(f)
      case Ok(rest) => Ok([Segment(body[0].pos, body[0].countdown + 1)] + rest)
  }

  /** One growth event: every countdown is delayed by one, a segment is
      spawned on the head with countdown `length + 1`, and the length grows. */
  function Grow(s: Snake): (r: Result<Snake>)
    ensures r.Panic? <==> s.length == U64_MAX || HasMaxCountdown(s.body)
    ensures r.Panic? ==> r.fault == GrowOverflow
    ensures r.Ok? ==> r.value.head == s.head && r.value.dir == s.dir
    ensures r.Ok? ==> r.value.length == s.length + 1
    ensures r.Ok? ==> |r.value.body| == |s.body| + 1
    ensures r.Ok? ==> forall i :: 0 <= i < |s.body| ==>
      r.value.body[i].pos == s.body[i].pos && r.value.body[i].countdown == s.body[i].countdown + 1
    ensures r.Ok? ==> r.value.body[|s.body|] == Segment(s.head, s.length + 1)
  {
    match BumpBody(s.body)
    case Panic(f) => Panic(f)
    case Ok(bumped) =>
      if s.length == U64_MAX then Panic(GrowOverflow)
      else Ok(Snake(s.head, s.dir, s.length + 1, bumped + [Segment(s.head, s.length + 1)]))
  }

  /** With the invariant, the `length - 1` of a due segment never underflows:
      a tick fails only if the head itself leaves the i64 range. */
  lemma MovementSafe(s: Snake)
    requires Valid(s)
    ensures Movement(s) != Panic(LengthUnderflow)
    ensures Movement(s).Ok? <==> CanMove(s.head, s.dir)
  {
  }

  lemma MovementKeepsValid(s: Snake)
    requires Valid(s) && Movement(s).Ok?
    ensures Valid(Movement(s).value)
  {
  }

  /** With the invariant, growth fails only once the length itself is at
      the top of u64. */
  lemma GrowSafe(s: Snake)
    requires Valid(s)
    ensures Grow(s).Panic? <==> s.length == U64_MAX
  {
  }

  lemma GrowKeepsValid(s: Snake)
    requires Valid(s) && Grow(s).Ok?
    ensures Valid(Grow(s).value)
  {
  }

  /** The movement tick as the game runs it: the segments are visited in
      whatever order the entity query yields (`order`, a permutation of the
      body's indices) and updated in place. Because each update reads only
      its own countdown, the length and the head, every order gives the
      same outcome as `Movement`. */
  method MovementInOrder(s: Snake, order: seq<nat>) returns (r: Result<Snake>)
    requires forall k :: 0 <= k < |order| ==> order[k] < |s.body|
    requires forall k, l :: 0 <= k < l < |order| ==> order[k] != order[l]
    requires forall i :: 0 <= i < |s.body| ==> i in order
    ensures r == Movement(s)
  {
    var body := s.body;
    var k := 0;
    while k < |order|
      invariant 0 <= k <= |order|
      invariant |body| == |s.body|
      invariant forall i :: 0 <= i < |body| && i in order[..k] ==>
        StepSegment(s.body[i], s.length, s.head) == Ok(body[i])
      invariant forall i :: 0 <= i < |body| && i !in order[..k] ==> body[i] == s.body[i]
    {
      var i := order[k];
      assert i !in order[..k];
      var step := StepSegment(body[i], s.length, s.head);
      if step.Panic? {
        assert s.length == 0 && HasDue(s.body);
        return Panic(step.fault);
      }
      body := body[i := step.value];
      assert order[..k + 1] == order[..k] + [i];
      k := k + 1;
    }
    assert order[..k] == order;
    var stepped := StepBody(s.body, s.length, s.head);
    assert stepped.value == body;
    match Mv(s.head, s.dir)
    case None => r := Panic(HeadOverflow);
    case Some(head) => r := Ok(Snake(head, s.dir, s.length, body));
  }
}
