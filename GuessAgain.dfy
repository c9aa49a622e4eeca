/**
 The exponent guessing game. A secret base is fixed; each turn the target is
 base^exponent and the player tries to name it exactly. After a wrong guess the
 exponent drops by one when it is above 1 and the guess lands within the
 gliding tolerance of the target, and rises by one otherwise; rising past 12
 ends the game.
 At most 50 turns are played; input that is not a number costs no turn.
 */
module GuessAgain {
  import opened Guesses
  import Ritual

  const MinBase := 1
  const MaxBase := 100
  const MaxExponent := 12
  const MaxTurns := 50
  /** The tolerance window opens at 5% and widens to at most 25%. */
  const BasePercent := 5
  const CapPercent := 25

  /** This game's gliding tolerance: 5% of the target at exponent 1, two points more per step, capped at 25%, at least 10. */
  function GlidingTolerance(target: int, exponent: int): (tol: int)
    ensures tol >= Ritual.MinTolerance
    ensures target >= 0 ==>
      tol == Max(10, target * Min(25, 5 + 2 * (exponent - 1)) / 100)
  {
    Ritual.GlidingTolerance(target, exponent, BasePercent, CapPercent)
  }

  /** The window does not shrink as the exponent climbs, and stops growing from exponent 11 on. */
  lemma ToleranceGlides(target: int, e1: int, e2: int)
    requires target >= 0 && e1 <= e2
    ensures GlidingTolerance(target, e1) <= GlidingTolerance(target, e2)
    ensures e1 >= 11 ==> GlidingTolerance(target, e1) == GlidingTolerance(target, e2)
  {
    Ritual.ToleranceMonotone(target, e1, e2, BasePercent, CapPercent);
    if e1 >= 11 {
      Ritual.ToleranceSaturates(target, e1, e2, BasePercent, CapPercent);
    }
  }

  /** A target of 100 at exponent 1 gets a 5-unit window, which the floor lifts to 10. */
  lemma ToleranceAtHundred()
    ensures Ritual.Percent(1, BasePercent, CapPercent) == 5
    ensures GlidingTolerance(100, 1) == 10
  {
  }

  datatype Status = Playing | Won | CapReached

  /** What the player is told: bad input, a win, or a miss with its distance, the window and the new exponent. */
  datatype Reply = InvalidInput | Correct | Wrong(close: bool, diff: nat, tolerance: int, exponent: nat)

  /** The turn counter as the source's loop keeps it (from 1), the exponent and how the game stands. */
  datatype GameState = GameState(turn: nat, exponent: nat, status: Status)

  const Start := GameState(1, 1, Playing)

  predicate Finished(st: GameState) {
    st.status != Playing || st.turn > MaxTurns
  }

  /** Valid guesses used so far: every completed turn, plus the one that ended the game. */
  function Spent(st: GameState): int {
    st.turn - 1 + (if st.status == Playing then 0 else 1)
  }

  /** Every state of a game: the exponent is within [1, 12] unless the cap was just broken. */
  predicate Valid(st: GameState) {
    && 1 <= st.turn <= MaxTurns + 1
    && (st.status != Playing ==> st.turn <= MaxTurns)
    && (st.status == CapReached <==> st.exponent == MaxExponent + 1)
    && (st.status != CapReached ==> 1 <= st.exponent <= MaxExponent)
  }

  /** One line of input handled by the game loop. */
  function Step(base: int, st: GameState, input: Input): (res: (GameState, Reply))
    ensures input.Invalid? ==> res == (st, InvalidInput)
    ensures res.1 == Correct <==> input == Num(Ritual.Pow(base, st.exponent))
    ensures res.1 == Correct ==> res.0 == st.(status := Won)
    ensures input.Num? && input.n != Ritual.Pow(base, st.exponent) ==> res.1.Wrong?
    ensures res.1.Wrong? ==>
      && input.Num?
      && res.1.diff == Abs(input.n - Ritual.Pow(base, st.exponent))
      && res.1.tolerance == GlidingTolerance(Ritual.Pow(base, st.exponent), st.exponent)
    ensures res.1.Wrong? ==> (res.1.close <==> st.exponent > 1 && res.1.diff <= res.1.tolerance)
    ensures res.1.Wrong? ==>
      res.0.exponent == res.1.exponent == if res.1.close then st.exponent - 1 else st.exponent + 1
    ensures res.1.Wrong? && res.0.exponent > MaxExponent ==>
      res.0 == st.(exponent := res.0.exponent, status := CapReached)
    ensures res.1.Wrong? && res.0.exponent <= MaxExponent ==>
      res.0 == st.(turn := st.turn + 1, exponent := res.0.exponent)
  {
    match input
    case Invalid => (st, InvalidInput)
    case Num(guess) =>
      var target := Ritual.Pow(base, st.exponent);
      if guess == target then (st.(status := Won), Correct)
      else
        var tolerance := GlidingTolerance(target, st.exponent);
        var diff := Abs(guess - target);
        var next := Ritual.Shift(st.exponent, diff, tolerance);
        var reply := Wrong(next < st.exponent, diff, tolerance, next);
        if next > MaxExponent then (st.(exponent := next, status := CapReached), reply)
        else (st.(turn := st.turn + 1, exponent := next), reply)
  }

  /** From exponent 1 a wrong guess always raises the exponent to 2. */
  lemma WrongAtOneRises(base: int, st: GameState, guess: int)
    requires st.exponent == 1 && st.status == Playing && guess != Ritual.Pow(base, 1)
    ensures Step(base, st, Num(guess)).0.exponent == 2
    ensures Step(base, st, Num(guess)).0.status == Playing
  {
  }

  function Run(base: int, st: GameState, inputs: seq<Input>): (res: (GameState, seq<Reply>))
    ensures |res.1| <= |inputs|
    decreases |inputs|
  {
    if Finished(st) || inputs == [] then (st, [])
    else
      var (next, reply) := Step(base, st, inputs[0]);
      var rest := Run(base, next, inputs[1..]);
      (rest.0, [reply] + rest.1)
  }

  lemma RunUnfold(base: int, st: GameState, inputs: seq<Input>, k: nat)
    requires k < |inputs| && !Finished(st)
    ensures Run(base, st, inputs[k..])
         == (Run(base, Step(base, st, inputs[k]).0, inputs[k + 1..]).0,
             [Step(base, st, inputs[k]).1] + Run(base, Step(base, st, inputs[k]).0, inputs[k + 1..]).1)
  {
    assert inputs[k..][0] == inputs[k];
    assert inputs[k..][1..] == inputs[k + 1..];
  }

  /** One turn keeps the state valid and spends a guess exactly when the input was a number. */
  lemma StepValid(base: int, st: GameState, input: Input)
    requires Valid(st) && !Finished(st)
    ensures Valid(Step(base, st, input).0)
    ensures Spent(Step(base, st, input).0) == Spent(st) + (if input.Num? then 1 else 0)
    ensures Step(base, st, input).0.status == Won <==> Step(base, st, input).1 == Correct
  {
  }

  /**
   Over a whole game: the state stays valid (exponent within [1, 12] while
   playing, 13 exactly when the cap ended the game); the valid guesses used,
   never more than 50, are exactly the numbers read; and the game is won
   exactly when some reply was Correct.
   */
  lemma {:induction false} RunValid(base: int, st: GameState, inputs: seq<Input>)
    requires Valid(st)
    ensures Valid(Run(base, st, inputs).0)
    ensures Spent(Run(base, st, inputs).0) == Spent(st) + NumCount(inputs[..|Run(base, st, inputs).1|])
    ensures Spent(Run(base, st, inputs).0) <= MaxTurns
    ensures Run(base, st, inputs).0.status == Won <==> st.status == Won || Correct in Run(base, st, inputs).1
    ensures |Run(base, st, inputs).1| < |inputs| ==> Finished(Run(base, st, inputs).0)
    decreases |inputs|
  {
    if Finished(st) || inputs == [] {
      assert inputs[..0] == [];
    } else {
      var next := Step(base, st, inputs[0]).0;
      StepValid(base, st, inputs[0]);
      RunValid(base, next, inputs[1..]);
      var n := |Run(base, next, inputs[1..]).1|;
      assert inputs[..n + 1] == [inputs[0]] + inputs[1..][..n];
      assert ([inputs[0]] + inputs[1..][..n])[1..] == inputs[1..][..n];
    }
  }

  /**
   One pass through the body of the game loop: the target and its window
   recomputed from the exponent, then the guess judged and, after a miss, the
   exponent moved in place and the cap checked.
   */
  method Turn(base: int, turn: nat, exponent: nat, input: Input)
    returns (turn': nat, exponent': nat, status': Status, reply: Reply)
    ensures Step(base, GameState(turn, exponent, Playing), input)
         == (GameState(turn', exponent', status'), reply)
  {
    turn', exponent', status' := turn, exponent, Playing;
    var currentTarget := Ritual.Pow(base, exponent);
    var tolerance := GlidingTolerance(currentTarget, exponent);
    if input.Invalid? {
      // no turn is charged for unreadable input
      reply := InvalidInput;
    } else if input.n == currentTarget {
      status' := Won;
      reply := Correct;
    } else {
      var diff := Abs(input.n - currentTarget);
      var close := exponent > 1 && diff <= tolerance;
      if close {
        exponent' := exponent - 1;
      } else {
        exponent' := exponent + 1;
      }
      reply := Wrong(close, diff, tolerance, exponent');
      if exponent' > MaxExponent {
        status' := CapReached;
      } else {
        turn' := turn + 1;
      }
    }
  }

  /**
   The game loop as the source runs it: the target and its window recomputed
   from the exponent each turn, the exponent moved in place after a miss, and
   the game cut short once the exponent passes the cap. The source draws the
   base uniformly from [MinBase, MaxBase]; here it is a parameter, and nothing
   below depends on its range.
   */
  method Play(base: int, inputs: seq<Input>)
    returns (status: Status, turn: nat, exponent: nat, replies: seq<Reply>)
    ensures (status, turn, exponent)
         == (var fin := Run(base, Start, inputs).0; (fin.status, fin.turn, fin.exponent))
    ensures replies == Run(base, Start, inputs).1
    ensures status == CapReached <==> exponent == MaxExponent + 1
    ensures status != CapReached ==> 1 <= exponent <= MaxExponent
    ensures turn - 1 + (if status == Playing then 0 else 1) == NumCount(inputs[..|replies|]) <= MaxTurns
    ensures status == Won <==> Correct in replies
  {
    status, turn, exponent, replies := Playing, 1, 1, [];
    var k := 0;
    assert inputs[0..] == inputs;
    assert GameState(turn, exponent, status) == Start;
    assert [] + Run(base, Start, inputs).1 == Run(base, Start, inputs).1;
    while turn <= MaxTurns && status == Playing && k < |inputs|
      invariant k <= |inputs|
      invariant Valid(GameState(turn, exponent, status))
      invariant Run(base, Start, inputs)
             == (Run(base, GameState(turn, exponent, status), inputs[k..]).0,
                 replies + Run(base, GameState(turn, exponent, status), inputs[k..]).1)
      decreases |inputs| - k
    {
      ghost var pre := GameState(turn, exponent, status);
      RunUnfold(base, pre, inputs, k);
      StepValid(base, pre, inputs[k]);
      var reply;
      turn, exponent, status, reply := Turn(base, turn, exponent, inputs[k]);
      ghost var rest := Run(base, GameState(turn, exponent, status), inputs[k + 1..]).1;
      ConcatAssoc(replies, [reply], rest);
      replies := replies + [reply];
      k := k + 1;
    }
    RunValid(base, Start, inputs);
  }
}
