/**
 The brutal oracle: five turns to name the master number 42. Every wrong guess
 draws "omens" read off the guess itself, and moves a hidden ritual exponent
 over a secret base: down by one when it is above 1 and the guess lands within
 the gliding tolerance of base^exponent, up by one otherwise, then clamped to
 [1, 12]. The ritual never decides the game; only guessing 42 wins.
 */
module Numerology {
  import opened Guesses
  import Ritual

  const MasterNumber := 42
  const MaxTurns := 5
  const MaxExponent := 12
  /** The tolerance window opens at 4% and widens to at most 22%. */
  const BasePercent := 4
  const CapPercent := 22

  /** This game's gliding tolerance: 4% of the target at exponent 1, two points more per step, capped at 22%, at least 10. */
  function GlidingTolerance(target: int, exponent: int): (tol: int)
    ensures tol >= Ritual.MinTolerance
    ensures target >= 0 ==>
      tol == Max(10, target * Min(22, 4 + 2 * (exponent - 1)) / 100)
  {
    Ritual.GlidingTolerance(target, exponent, BasePercent, CapPercent)
  }

  /** The window does not shrink as the exponent climbs, and stops growing from exponent 10 on. */
  lemma ToleranceGlides(target: int, e1: int, e2: int)
    requires target >= 0 && e1 <= e2
    ensures GlidingTolerance(target, e1) <= GlidingTolerance(target, e2)
    ensures e1 >= 10 ==> GlidingTolerance(target, e1) == GlidingTolerance(target, e2)
  {
    Ritual.ToleranceMonotone(target, e1, e2, BasePercent, CapPercent);
    if e1 >= 10 {
      Ritual.ToleranceSaturates(target, e1, e2, BasePercent, CapPercent);
    }
  }

  /** Whether a guess lands within the tolerance of the current ritual target base^exponent. */
  predicate WithinTolerance(base: int, exponent: nat, guess: int)
    ensures Abs(guess - Ritual.Pow(base, exponent)) <= Ritual.MinTolerance ==> WithinTolerance(base, exponent, guess)
  {
    var target := Ritual.Pow(base, exponent);
    Abs(guess - target) <= GlidingTolerance(target, exponent)
  }

  /**
   The exponent after a wrong guess: one lower if it can drop and the guess was
   within tolerance, one higher otherwise, then kept within [1, MaxExponent].
   */
  function NextExponent(base: int, exponent: nat, guess: int): (next: nat)
    ensures 1 <= next <= MaxExponent
    ensures exponent < MaxExponent ==>
      next == if exponent > 1 && WithinTolerance(base, exponent, guess) then exponent - 1 else exponent + 1
    ensures exponent == MaxExponent && !WithinTolerance(base, exponent, guess) ==> next == MaxExponent
    ensures exponent <= MaxExponent ==>
      next == Min(MaxExponent, Ritual.Shift(exponent, Abs(guess - Ritual.Pow(base, exponent)),
                                            GlidingTolerance(Ritual.Pow(base, exponent), exponent)))
  {
    var currentTarget := Ritual.Pow(base, exponent);
    var tolerance := GlidingTolerance(currentTarget, exponent);
    var diff := Abs(guess - currentTarget);
    var moved: int := Ritual.Shift(exponent, diff, tolerance);
    var floored: int := if moved < 1 then 1 else moved;
    if floored > MaxExponent then MaxExponent else floored
  }

  // ---------------------------------------------------------------- omens

  /** The omens a guess can draw; OnlyStatic is shown when no other one is. */
  datatype Omen = TwoFaces | Balance | RightAngle | Duet | OnlyStatic

  function DigitChar(d: nat): char
    requires d < 10
  {
    (48 + d) as char
  }

  /** The decimal numeral of a natural number, most significant digit first. */
  function NaturalString(n: nat): (s: string)
    ensures |s| >= 1
    ensures forall i :: 0 <= i < |s| ==> '0' <= s[i] <= '9'
    ensures n > 0 ==> s[0] != '0'
    decreases n
  {
    if n < 10 then [DigitChar(n)] else NaturalString(n / 10) + [DigitChar(n % 10)]
  }

  /** The decimal numeral of an integer, with a leading '-' when negative (as ToString writes it). */
  function IntString(x: int): (s: string)
    ensures |s| >= 1
    ensures s[0] == '-' <==> x < 0
    ensures forall i :: 1 <= i < |s| ==> '0' <= s[i] <= '9'
  {
    if x < 0 then "-" + NaturalString(-x) else NaturalString(x)
  }

  /** Whether digit d occurs among the decimal digits of n, computed arithmetically. */
  predicate HasDigit(n: nat, d: nat)
    decreases n
  {
    n % 10 == d || (n >= 10 && HasDigit(n / 10, d))
  }

  /** A digit character occurs in a numeral exactly when the digit occurs in the number. */
  lemma {:induction false} NaturalStringHasDigit(n: nat, d: nat)
    requires d < 10
    ensures DigitChar(d) in NaturalString(n) <==> HasDigit(n, d)
    decreases n
  {
    if n >= 10 {
      NaturalStringHasDigit(n / 10, d);
      assert NaturalString(n) == NaturalString(n / 10) + [DigitChar(n % 10)];
      assert DigitChar(n % 10) == DigitChar(d) <==> n % 10 == d;
    }
  }

  lemma IntStringHasDigit(x: int, d: nat)
    requires d < 10
    ensures DigitChar(d) in IntString(x) <==> HasDigit(Abs(x), d)
  {
    NaturalStringHasDigit(Abs(x), d);
    if x < 0 {
      assert IntString(x) == ['-'] + NaturalString(-x);
    }
  }

  /** The position of an omen in the order the omens are shown. */
  function Rank(omen: Omen): nat {
    match omen
    case TwoFaces => 0
    case Balance => 1
    case RightAngle => 2
    case Duet => 3
    case OnlyStatic => 4
  }

  /**
   The omens a wrong guess draws, in the order they are shown: two faces for a
   two-digit number, balance for an even one, a right angle when the numeral
   contains a 4, a duet when it contains a 2, and static when none applied.
   */
  function Omens(guess: int): (omens: seq<Omen>)
    ensures 1 <= |omens| <= 4
    ensures forall i :: 0 <= i < |omens| - 1 ==> Rank(omens[i]) < Rank(omens[i + 1])
    ensures OnlyStatic in omens <==> omens == [OnlyStatic]
  {
    var s := IntString(guess);
    var twoDigit := (guess >= 10 && guess <= 99) || (guess <= -10 && guess >= -99);
    var even := guess % 2 == 0;
    var has4 := '4' in s;
    var has2 := '2' in s;
    var shown := (if twoDigit then [TwoFaces] else [])
               + (if even then [Balance] else [])
               + (if has4 then [RightAngle] else [])
               + (if has2 then [Duet] else []);
    if |shown| == 0 then [OnlyStatic] else shown
  }

  /** Each omen, stated on the number rather than on its numeral. */
  lemma OmensMeaning(guess: int)
    ensures TwoFaces in Omens(guess) <==> 10 <= Abs(guess) <= 99
    ensures Balance in Omens(guess) <==> guess % 2 == 0
    ensures RightAngle in Omens(guess) <==> HasDigit(Abs(guess), 4)
    ensures Duet in Omens(guess) <==> HasDigit(Abs(guess), 2)
    ensures OnlyStatic in Omens(guess)
        <==> !(10 <= Abs(guess) <= 99) && guess % 2 != 0 && !HasDigit(Abs(guess), 4) && !HasDigit(Abs(guess), 2)
  {
    IntStringHasDigit(guess, 4);
    IntStringHasDigit(guess, 2);
    assert DigitChar(4) == '4' && DigitChar(2) == '2';
  }

  // ---------------------------------------------------------------- the turn loop

  datatype Reply = NotUnderstood | Revealed | Sign(omens: seq<Omen>, slackened: bool)

  /** The turn counter as the source's loop keeps it (from 1), the exponent, and whether 42 was named. */
  datatype RitualState = RitualState(turn: nat, exponent: nat, won: bool)

  const Start := RitualState(1, 1, false)

  predicate Finished(st: RitualState) {
    st.won || st.turn > MaxTurns
  }

  function Spent(st: RitualState): int {
    st.turn - 1 + (if st.won then 1 else 0)
  }

  /** Every state of a game: the exponent has climbed at most one step per completed turn. */
  predicate Valid(st: RitualState) {
    && 1 <= st.exponent <= st.turn <= MaxTurns + 1
    && (st.won ==> st.turn <= MaxTurns)
  }

  function Step(base: int, st: RitualState, input: Input): (res: (RitualState, Reply))
    ensures input.Invalid? ==> res == (st, NotUnderstood)
    ensures res.1 == Revealed <==> input == Num(MasterNumber)
    ensures res.0.won <==> st.won || input == Num(MasterNumber)
    ensures input == Num(MasterNumber) ==> res.0 == st.(won := true)
    ensures input.Num? && input.n != MasterNumber ==>
      res.0 == st.(turn := st.turn + 1, exponent := NextExponent(base, st.exponent, input.n))
      && res.1 == Sign(Omens(input.n), st.exponent > 1 && WithinTolerance(base, st.exponent, input.n))
  {
    match input
    case Invalid => (st, NotUnderstood)
    case Num(guess) =>
      if guess == MasterNumber then (st.(won := true), Revealed)
      else
        var slackened := st.exponent > 1 && WithinTolerance(base, st.exponent, guess);
        (st.(turn := st.turn + 1, exponent := NextExponent(base, st.exponent, guess)),
         Sign(Omens(guess), slackened))
  }

  function Run(base: int, st: RitualState, inputs: seq<Input>): (res: (RitualState, seq<Reply>))
    ensures |res.1| <= |inputs|
    decreases |inputs|
  {
    if Finished(st) || inputs == [] then (st, [])
    else
      var (next, reply) := Step(base, st, inputs[0]);
      var rest := Run(base, next, inputs[1..]);
      (rest.0, [reply] + rest.1)
  }

  lemma RunUnfold(base: int, st: RitualState, inputs: seq<Input>, k: nat)
    requires k < |inputs| && !Finished(st)
    ensures Run(base, st, inputs[k..])
         == (Run(base, Step(base, st, inputs[k]).0, inputs[k + 1..]).0,
             [Step(base, st, inputs[k]).1] + Run(base, Step(base, st, inputs[k]).0, inputs[k + 1..]).1)
  {
    assert inputs[k..][0] == inputs[k];
    assert inputs[k..][1..] == inputs[k + 1..];
  }

  /**
   In a game in progress the exponent is at most the turn number, so it is at
   most 5 when a guess is judged: the clamp to [1, 12] never fires.
   */
  lemma ClampNeverFires(base: int, st: RitualState, guess: int)
    requires Valid(st) && !Finished(st)
    ensures NextExponent(base, st.exponent, guess)
         == Ritual.Shift(st.exponent, Abs(guess - Ritual.Pow(base, st.exponent)),
                         GlidingTolerance(Ritual.Pow(base, st.exponent), st.exponent))
  {
  }

  /** One turn keeps the state valid and spends a guess exactly when the input was a number. */
  lemma StepValid(base: int, st: RitualState, input: Input)
    requires Valid(st) && !Finished(st)
    ensures Valid(Step(base, st, input).0)
    ensures Spent(Step(base, st, input).0) == Spent(st) + (if input.Num? then 1 else 0)
  {
    if input.Num? && input.n != MasterNumber {
      var e := NextExponent(base, st.exponent, input.n);
      assert e <= st.exponent + 1;
    }
  }

  /**
   Over a whole game: the state stays valid, so the exponent never exceeds 6;
   the guesses spent are exactly the numbers read; and the game is won exactly
   when 42 is among them.
   */
  lemma {:induction false} RunValid(base: int, st: RitualState, inputs: seq<Input>)
    requires Valid(st)
    ensures Valid(Run(base, st, inputs).0)
    ensures Run(base, st, inputs).0.exponent <= MaxTurns + 1 < MaxExponent
    ensures Spent(Run(base, st, inputs).0) == Spent(st) + NumCount(inputs[..|Run(base, st, inputs).1|])
    ensures Run(base, st, inputs).0.won <==> st.won || Num(MasterNumber) in inputs[..|Run(base, st, inputs).1|]
    ensures |Run(base, st, inputs).1| < |inputs| ==> Finished(Run(base, st, inputs).0)
    decreases |inputs|
  {
    if Finished(st) || inputs == [] {
      assert inputs[..0] == [];
    } else {
      var next := Step(base, st, inputs[0]).0;
      StepValid(base, st, inputs[0]);
      RunValid(base, next, inputs[1..]);
      var n := |Run(base, next, inputs[1..]).1|;
      assert inputs[..n + 1] == [inputs[0]] + inputs[1..][..n];
      assert ([inputs[0]] + inputs[1..][..n])[1..] == inputs[1..][..n];
    }
  }

  /** Winning, and how many turns it takes, do not depend on the secret base at all. */
  lemma {:induction false} WinIgnoresBase(b1: int, b2: int, s1: RitualState, s2: RitualState, inputs: seq<Input>)
    requires s1.turn == s2.turn && s1.won == s2.won
    ensures Run(b1, s1, inputs).0.won == Run(b2, s2, inputs).0.won
    ensures Run(b1, s1, inputs).0.turn == Run(b2, s2, inputs).0.turn
    ensures |Run(b1, s1, inputs).1| == |Run(b2, s2, inputs).1|
    decreases |inputs|
  {
    if Finished(s1) || inputs == [] {
    } else {
      WinIgnoresBase(b1, b2, Step(b1, s1, inputs[0]).0, Step(b2, s2, inputs[0]).0, inputs[1..]);
    }
  }

  /**
   One pass through the body of the game loop: unreadable input is refused,
   42 reveals the answer, and any other number draws its omens while the ritual
   target and window are recomputed and the exponent is moved and clamped in place.
   */
  method Turn(base: int, turn: nat, exponent: nat, input: Input)
    returns (turn': nat, exponent': nat, won': bool, reply: Reply)
    ensures Step(base, RitualState(turn, exponent, false), input)
         == (RitualState(turn', exponent', won'), reply)
  {
    turn', exponent', won' := turn, exponent, false;
    if input.Invalid? {
      // no turn is charged for unreadable input
      reply := NotUnderstood;
    } else if input.n == MasterNumber {
      won' := true;
      reply := Revealed;
    } else {
      var guess := input.n;
      var omens := Omens(guess);
      var currentTarget := Ritual.Pow(base, exponent);
      var tolerance := GlidingTolerance(currentTarget, exponent);
      var diff := Abs(guess - currentTarget);
      var canDrop := exponent > 1;
      var slackened := canDrop && diff <= tolerance;
      var moved: int := exponent;
      if slackened {
        moved := moved - 1;
      } else {
        moved := moved + 1;
      }
      // clamp into [1, MaxExponent]
      if moved < 1 { moved := 1; }
      if moved > MaxExponent { moved := MaxExponent; }
      exponent' := moved;
      reply := Sign(omens, slackened);
      turn' := turn + 1;
    }
  }

  /**
   The game loop as the source runs it: at most five turns, a turn counter
   that unreadable input does not advance, and a stop as soon as 42 is named.
   */
  method Play(base: int, inputs: seq<Input>)
    returns (won: bool, turn: nat, exponent: nat, replies: seq<Reply>)
    ensures (won, turn, exponent) == (var fin := Run(base, Start, inputs).0; (fin.won, fin.turn, fin.exponent))
    ensures replies == Run(base, Start, inputs).1
    ensures 1 <= exponent <= MaxTurns + 1
    ensures turn - 1 + (if won then 1 else 0) == NumCount(inputs[..|replies|]) <= MaxTurns
    ensures won <==> Num(MasterNumber) in inputs[..|replies|]
  {
    won, turn, exponent, replies := false, 1, 1, [];
    var k := 0;
    assert inputs[0..] == inputs;
    assert RitualState(turn, exponent, won) == Start;
    assert [] + Run(base, Start, inputs).1 == Run(base, Start, inputs).1;
    while turn <= MaxTurns && !won && k < |inputs|
      invariant k <= |inputs|
      invariant Valid(RitualState(turn, exponent, won))
      invariant Run(base, Start, inputs)
             == (Run(base, RitualState(turn, exponent, won), inputs[k..]).0,
                 replies + Run(base, RitualState(turn, exponent, won), inputs[k..]).1)
      decreases |inputs| - k
    {
      ghost var pre := RitualState(turn, exponent, won);
      RunUnfold(base, pre, inputs, k);
      StepValid(base, pre, inputs[k]);
      var reply;
      turn, exponent, won, reply := Turn(base, turn, exponent, inputs[k]);
      ghost var rest := Run(base, RitualState(turn, exponent, won), inputs[k + 1..]).1;
      ConcatAssoc(replies, [reply], rest);
      replies := replies + [reply];
      k := k + 1;
    }
    RunValid(base, Start, inputs);
  }
}
