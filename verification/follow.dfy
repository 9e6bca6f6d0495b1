/** Why the countdowns make the body follow the head.

    Let `hist` be the head's positions, newest first: `hist[0]` is where the
    head is now and `hist[k]` where it was `k` ticks ago. Then a segment
    with countdown `c` sits exactly where the head was `length - c` ticks
    ago. Ticks push a new head onto `hist`; growth and input leave it. */
module Follow {
  import opened Grid
  import opened Simulation
  import opened Controls

  ghost predicate Trail(s: Snake, hist: seq<Pos>) {
    && |hist| > 0
    && hist[0] == s.head
    && s.length == |s.body|
    && forall i :: 0 <= i < |s.body| ==>
         && s.body[i].countdown <= s.length
         && s.length - s.body[i].countdown < |hist|
         && s.body[i].pos == hist[s.length - s.body[i].countdown]
  }

  lemma TrailInit()
    ensures Trail(Init(), [Init().head])
  {
  }

  /** A tick keeps the trail: a waiting segment is one tick further behind
      with one less to wait; a jumping segment lands where the head was
      just before its move, which is now one tick back, with `length - 1`
      left to wait. */
  lemma TrailMovement(s: Snake, hist: seq<Pos>)
    requires Trail(s, hist) && Movement(s).Ok?
    ensures Trail(Movement(s).value, [Movement(s).value.head] + hist)
  {
  }

  /** Growth keeps the trail: the extra delay on every old segment is
      matched by the extra length, and the new segment sits on the head. */
  lemma TrailGrow(s: Snake, hist: seq<Pos>)
    requires Trail(s, hist) && Grow(s).Ok?
    ensures Trail(Grow(s).value, hist)
  {
  }

  lemma TrailInput(s: Snake, k: Keys, hist: seq<Pos>)
    requires Trail(s, hist)
    ensures Trail(Input(s, k), hist)
  {
  }

  /** The trail invariant includes the length invariant. */
  lemma TrailImpliesValid(s: Snake, hist: seq<Pos>)
    requires Trail(s, hist)
    ensures Valid(s)
  {
  }
}
