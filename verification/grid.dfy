/** Directions and grid positions, and the single-cell head step. */
module Grid {
  import opened Ints
  import opened Outcomes

  datatype Dir = Right | Up | Left | Down

  datatype Pos = Pos(x: i64, y: i64)

  /** Column change of one step in `d`. */
  function DX(d: Dir): int {
    match d
    case Right => 1
    case Left => -1
    case _ => 0
  }

  /** Row change of one step in `d`; rows grow downwards, so Up is -1. */
  function DY(d: Dir): int {
    match d
    case Down => 1
    case Up => -1
    case _ => 0
  }

  function Abs(n: int): nat {
    if n < 0 then -n else n
  }

  /** The step from `p` in `d` stays inside the i64 range. */
  predicate CanMove(p: Pos, d: Dir) {
    I64_MIN <= p.x + DX(d) <= I64_MAX && I64_MIN <= p.y + DY(d) <= I64_MAX
  }

  /** One step of the head. There is no grid bound and no wrap-around: the
      step fails only where the coordinate arithmetic itself overflows. */
  function Mv(p: Pos, d: Dir): (r: Option<Pos>)
    ensures r.Some? <==> CanMove(p, d)
    ensures r.Some? ==> r.value.x == p.x + DX(d) && r.value.y == p.y + DY(d)
    ensures r.Some? ==> (r.value.x == p.x) != (r.value.y == p.y)
    ensures r.Some? ==> Abs(r.value.x - p.x) + Abs(r.value.y - p.y) == 1
  {
    match d
    case Right => if p.x < I64_MAX then Some(Pos(p.x + 1, p.y)) else None
    case Up => if p.y > I64_MIN then Some(Pos(p.x, p.y - 1)) else None
    case Left => if p.x > I64_MIN then Some(Pos(p.x - 1, p.y)) else None
    case Down => if p.y < I64_MAX then Some(Pos(p.x, p.y + 1)) else None
  }

  /** Copying a position: the old coordinates are forgotten entirely. */
  function MoveTo(p: Pos, to: Pos): (r: Pos)
    ensures r.x == to.x && r.y == to.y
  {
    Pos(to.x, to.y)
  }

  function Opposite(d: Dir): Dir {
    match d
    case Right => Left
    case Left => Right
    case Up => Down
    case Down => Up
  }

  /** A step is undone by a step the other way, so no step clamps. (Wrap is
      ruled out by the exact coordinates in the ensures of `Mv`.) */
  lemma MvThenOpposite(p: Pos, d: Dir)
    requires Mv(p, d).Some?
    ensures Mv(Mv(p, d).value, Opposite(d)) == Some(p)
  {
  }

  /** Two different directions never lead to the same cell. */
  lemma MvDistinguishesDirections(p: Pos, d: Dir, e: Dir)
    requires Mv(p, d).Some? && Mv(p, e).Some?
    requires Mv(p, d) == Mv(p, e)
    ensures d == e
  {
  }
}
