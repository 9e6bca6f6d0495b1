/** Keyboard input: the four arrow keys held at an input poll pick at most
    one direction, which then replaces the snake's direction outright. */
module Controls {
  import opened Outcomes
  import opened Grid
  import opened Simulation

  /** Which of the arrow keys are held. */
  datatype Keys = Keys(up: bool, down: bool, left: bool, right: bool)

  /** The key match: a lone vertical key wins over anything horizontal; then
      a lone horizontal key; otherwise (nothing, or both of an axis) none. */
  function KeysToDir(k: Keys): (r: Option<Dir>)
    ensures k.up != k.down ==> r == Some(if k.up then Up else Down)
    ensures k.up == k.down && k.left != k.right ==> r == Some(if k.left then Left else Right)
    ensures r.None? <==> k.up == k.down && k.left == k.right
  {
    match (k.up, k.down, k.left, k.right)
    case (true, false, _, _) => Some(Up)
    case (false, true, _, _) => Some(Down)
    case (_, _, true, false) => Some(Left)
    case (_, _, false, true) => Some(Right)
    case _ => None
  }

  /** The input poll: a picked direction overwrites the snake's, with no
      check against reversing; everything else is untouched. */
  function Input(s: Snake, k: Keys): (r: Snake)
    ensures r.head == s.head && r.length == s.length && r.body == s.body
    ensures KeysToDir(k).Some? ==> r.dir == KeysToDir(k).value
    ensures KeysToDir(k).None? ==> r == s
  {
    match KeysToDir(k)
    case Some(d) => s.(dir := d)
    case None => s
  }

  /** Every direction can be chosen, each by exactly one held key. */
  lemma EveryDirReachable(d: Dir)
    ensures KeysToDir(Keys(d == Up, d == Down, d == Left, d == Right)) == Some(d)
  {
  }

  /** Pressing the key opposite to the current heading turns the snake
      straight round: nothing rejects a reversal. */
  lemma ReversalAccepted(s: Snake)
    ensures Input(s, Keys(s.dir == Down, s.dir == Up, s.dir == Right, s.dir == Left)).dir == Opposite(s.dir)
  {
  }

  lemma InputKeepsValid(s: Snake, k: Keys)
    requires Valid(s)
    ensures Valid(Input(s, k))
  {
  }
}
