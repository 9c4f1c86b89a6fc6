/**
 A single square of the Game of Life board: the committed `state` of the
 cell and the staged `nextState` that the board computes before committing.
 Live is `true`, dead is `false`.
 */
module Square {

  datatype GameSquare = GameSquare(state: bool, nextState: bool)

  /** A square whose staged value agrees with its committed one. */
  predicate Committed(q: GameSquare) {
    q.state == q.nextState
  }

  /** The one-argument constructor: both fields start at `s`. */
  function Make(s: bool): (q: GameSquare)
    ensures q.state == s
    ensures Committed(q)
  {
    GameSquare(s, s)
  }

  /** The no-argument constructor: a dead square, delegating to `Make(false)`. */
  function MakeDead(): (q: GameSquare)
    ensures !q.state && !q.nextState
  {
    Make(false)
  }

  /** Stages the opposite of the current state and returns the staged value
      together with the updated square. */
  function ShiftState(q: GameSquare): (r: (GameSquare, bool))
    ensures r.1 == !q.state
    ensures r.0.nextState == r.1
    ensures r.0.state == q.state
    ensures !Committed(r.0)
  {
    var q' := q.(nextState := !q.state);
    (q', q'.nextState)
  }

  /** Commits the staged value: the current state becomes `nextState`. */
  function UpdateState(q: GameSquare): (r: GameSquare)
    ensures r.state == q.nextState
    ensures r.nextState == q.nextState
    ensures Committed(r)
  {
    q.(state := GetNextState(q))
  }

  function GetState(q: GameSquare): (r: bool)
    ensures r == q.state
  {
    q.state
  }

  /** Overwrites the current state, leaving the staged value alone. */
  function SetState(q: GameSquare, s: bool): (r: GameSquare)
    ensures GetState(r) == s
    ensures GetNextState(r) == GetNextState(q)
  {
    q.(state := s)
  }

  function GetNextState(q: GameSquare): (r: bool)
    ensures r == q.nextState
  {
    q.nextState
  }

  /** Overwrites the staged value, leaving the current state alone. */
  function SetNextState(q: GameSquare, s: bool): (r: GameSquare)
    ensures GetNextState(r) == s
    ensures GetState(r) == GetState(q)
  {
    q.(nextState := s)
  }

  /** The glyph used when drawing the board: "X" for live, a blank for dead. */
  function ToString(q: GameSquare): (r: string)
    ensures |r| == 1
    ensures r == "X" <==> q.state
    ensures r == " " <==> !q.state
  {
    if q.state then "X" else " "
  }

  /** Committing is idempotent: a second commit right after the first changes nothing. */
  lemma UpdateStateIdempotent(q: GameSquare)
    ensures UpdateState(UpdateState(q)) == UpdateState(q)
  {
  }

  /** Staging the flip and committing it negates the state; doing so twice
      restores the original square's state. */
  lemma ShiftThenUpdateFlips(q: GameSquare)
    ensures UpdateState(ShiftState(q).0).state == !q.state
    ensures UpdateState(ShiftState(UpdateState(ShiftState(q).0)).0).state == q.state
  {
  }

  /** The accessors read back what the setters wrote and nothing else moves. */
  lemma AccessorLaws(q: GameSquare, s: bool)
    ensures GetState(SetState(q, s)) == s
    ensures GetNextState(SetState(q, s)) == GetNextState(q)
    ensures GetNextState(SetNextState(q, s)) == s
    ensures GetState(SetNextState(q, s)) == GetState(q)
    ensures SetState(q, GetState(q)) == q
    ensures SetNextState(q, GetNextState(q)) == q
    ensures SetState(SetNextState(q, s), s) == Make(s)
  {
  }

  /** The drawn glyph depends on the current state only, and tells live from dead. */
  lemma ToStringDistinguishes(a: GameSquare, b: GameSquare)
    ensures ToString(a) == ToString(b) <==> a.state == b.state
  {
  }
}
