/**
 The daily number oracle. Each level hides a master number and has a list of
 clues ordered from vaguest to most telling. The player has five guesses; every
 wrong guess gets Higher/Lower feedback, and a guess close enough to the master
 number (relatively, or within 3 in absolute terms) unlocks a stronger clue tier.
 Repeating a guess burns a turn; input that is not a number costs nothing.
 */
module DailyPuzzle {
  import opened Guesses

  /** Guesses allowed per level. */
  const MaxGuesses := 5
  /** A wrong guess within this absolute distance still earns one tier. */
  const MercyDistance := 3

  /** A level as the engine sees it: the hidden number and how many clue tiers it has. */
  datatype Level = Level(masterNumber: int, clueCount: nat)

  /** The scale against which a miss is measured: |answer|, but at least 1. */
  function Denominator(answer: int): (d: nat)
    ensures d >= 1 && d >= Abs(answer)
    ensures d == Abs(answer) || d == 1
  {
    Max(Abs(answer), 1)
  }

  /**
   How close a guess is to the answer, from 0 (100% off or worse) to 1 (exact).
   The score times the denominator is exactly how much of the denominator the
   miss has not used up.
   */
  function RelativeCloseness(guess: int, answer: int): (c: real)
    ensures 0.0 <= c <= 1.0
    ensures c == 1.0 <==> guess == answer
    ensures c == 0.0 <==> Abs(guess - answer) >= Denominator(answer)
    ensures c * Denominator(answer) as real
         == Max(Denominator(answer) - Abs(guess - answer), 0) as real
  {
    var denom := Denominator(answer) as real;
    var diff := Abs(guess - answer) as real;
    var ratio := diff / denom;
    RatioFacts(diff, denom);
    var closeness := 1.0 - ratio;
    if closeness < 0.0 then 0.0
    else if closeness > 1.0 then 1.0
    else closeness
  }

  /** The facts about diff / denom that the closeness score rests on. */
  lemma RatioFacts(diff: real, denom: real)
    requires diff >= 0.0 && denom >= 1.0
    ensures diff / denom >= 0.0
    ensures diff / denom == 0.0 <==> diff == 0.0
    ensures diff / denom >= 1.0 <==> diff >= denom
    ensures (1.0 - diff / denom) * denom == denom - diff
  {
    var r := diff / denom;
    assert r * denom == diff;
    ScaleByPositive(1.0, r, denom);
  }

  /**
   The clue-tier increment a wrong guess earns: 3, 2 or 1 by relative closeness
   (thresholds 0.98, 0.94, 0.88), otherwise 1 by absolute mercy when the miss
   is at most MercyDistance, otherwise nothing.
   */
  function TierGainFromCloseness(relCloseness: real, absDiff: int): (gain: nat)
    ensures gain <= 3
    ensures gain == 3 <==> relCloseness >= 0.98
    ensures gain == 2 <==> 0.94 <= relCloseness < 0.98
    ensures 0.88 <= relCloseness < 0.94 ==> gain == 1
    ensures relCloseness < 0.88 ==> (gain == 1 <==> absDiff <= MercyDistance)
    ensures relCloseness < 0.88 ==> gain <= 1
    ensures gain == 0 <==> relCloseness < 0.88 && absDiff > MercyDistance
  {
    var absoluteMercy := absDiff <= MercyDistance;
    if relCloseness >= 0.98 then 3
    else if relCloseness >= 0.94 then 2
    else if relCloseness >= 0.88 then 1
    else if absoluteMercy then 1
    else 0
  }

  /**
   The tier gain the engine awards a wrong guess at a level: at most 3, and
   nothing exactly when the miss is more than 12% of the denominator and more
   than MercyDistance.
   */
  function GainForGuess(guess: int, answer: int): (gain: nat)
    ensures gain <= 3
    ensures gain == 0 <==> 25 * Abs(guess - answer) > 3 * Denominator(answer) && Abs(guess - answer) > MercyDistance
  {
    ClosenessAtLeast(guess, answer, 88);
    TierGainFromCloseness(RelativeCloseness(guess, answer), Abs(guess - answer))
  }

  /** Multiplying both sides by a positive number keeps an inequality. */
  lemma ScaleByPositive(x: real, y: real, k: real)
    requires k > 0.0
    ensures x <= y <==> x * k <= y * k
  {
    assert y * k - x * k == (y - x) * k;
  }

  /** A relative-closeness threshold of pct percent, restated on integers. */
  lemma ClosenessAtLeast(guess: int, answer: int, pct: int)
    requires 0 < pct <= 100
    ensures RelativeCloseness(guess, answer) >= pct as real / 100.0
        <==> 100 * Abs(guess - answer) <= (100 - pct) * Denominator(answer)
  {
    ScoreThreshold(RelativeCloseness(guess, answer), pct, Denominator(answer), Abs(guess - answer));
  }

  /** A score leaving d - diff of a positive d reaches pct percent exactly when diff is at most (100 - pct)% of d. */
  lemma ScoreThreshold(c: real, pct: int, d: nat, diff: nat)
    requires 0 < pct <= 100 && d >= 1
    requires c * d as real == Max(d - diff, 0) as real
    ensures c >= pct as real / 100.0 <==> 100 * diff <= (100 - pct) * d
  {
    var left := Max(d - diff, 0);
    PercentOf(pct, d);
    ScaledCompare(pct as real / 100.0, c, d as real, (pct * d) as real / 100.0, left as real);
    HundredthsCompare(pct * d, left);
    PercentDistance(pct, d, diff);
  }

  /** Arithmetic step: pct percent of d, computed two ways. */
  lemma PercentOf(pct: int, d: int)
    ensures (pct as real / 100.0) * d as real == (pct * d) as real / 100.0
  {
  }

  /** Arithmetic step: scaling by a positive k keeps the order of t and c. */
  lemma ScaledCompare(t: real, c: real, k: real, tk: real, ck: real)
    requires k > 0.0 && t * k == tk && c * k == ck
    ensures t <= c <==> tk <= ck
  {
    ScaleByPositive(t, c, k);
  }

  /** Arithmetic step: dividing by 100 compared with an integer. */
  lemma HundredthsCompare(x: int, y: int)
    ensures x as real / 100.0 <= y as real <==> x <= 100 * y
  {
  }

  /** pct% of d fits in what is left of d after diff exactly when diff is at most (100-pct)% of d. */
  lemma PercentDistance(pct: int, d: int, diff: int)
    requires 0 < pct <= 100 && d >= 1 && diff >= 0
    ensures pct * d <= 100 * Max(d - diff, 0) <==> 100 * diff <= (100 - pct) * d
  {
    assert (100 - pct) * d == 100 * d - pct * d;
    assert pct * d > 0;
  }

  /** No miss is ever rewarded more than a smaller miss, relatively. */
  lemma ClosenessMonotone(g1: int, g2: int, answer: int)
    requires Abs(g1 - answer) <= Abs(g2 - answer)
    ensures RelativeCloseness(g2, answer) <= RelativeCloseness(g1, answer)
  {
    ScoreOrder(RelativeCloseness(g1, answer), RelativeCloseness(g2, answer),
               Denominator(answer), Abs(g1 - answer), Abs(g2 - answer));
  }

  /** Two scores that leave d - a1 and d - a2 of a positive d are ordered as the misses are. */
  lemma ScoreOrder(c1: real, c2: real, d: nat, a1: nat, a2: nat)
    requires d >= 1 && a1 <= a2
    requires c1 * d as real == Max(d - a1, 0) as real
    requires c2 * d as real == Max(d - a2, 0) as real
    ensures c2 <= c1
  {
    ScaledLe(c2, c1, d as real, Max(d - a2, 0) as real, Max(d - a1, 0) as real);
  }

  /** Arithmetic step: an order between scaled values carries back to the values. */
  lemma ScaledLe(x: real, y: real, k: real, xk: real, yk: real)
    requires k > 0.0 && x * k == xk && y * k == yk && xk <= yk
    ensures x <= y
  {
    ScaleByPositive(x, y, k);
  }

  /** Raising closeness never lowers the gain (for a fixed absolute distance). */
  lemma TierGainMonotoneInCloseness(rel1: real, rel2: real, absDiff: int)
    requires rel1 <= rel2
    ensures TierGainFromCloseness(rel1, absDiff) <= TierGainFromCloseness(rel2, absDiff)
  {
  }

  /** A smaller absolute distance never lowers the gain (for a fixed closeness). */
  lemma TierGainMonotoneInDistance(rel: real, d1: int, d2: int)
    requires d1 <= d2
    ensures TierGainFromCloseness(rel, d2) <= TierGainFromCloseness(rel, d1)
  {
  }

  /** For a fixed answer, a guess at least as close earns at least as many tiers. */
  lemma GainMonotone(g1: int, g2: int, answer: int)
    requires Abs(g1 - answer) <= Abs(g2 - answer)
    ensures GainForGuess(g2, answer) <= GainForGuess(g1, answer)
  {
    var r1, r2 := RelativeCloseness(g1, answer), RelativeCloseness(g2, answer);
    ClosenessMonotone(g1, g2, answer);
    TierGainMonotoneInCloseness(r2, r1, Abs(g2 - answer));
    TierGainMonotoneInDistance(r1, Abs(g1 - answer), Abs(g2 - answer));
  }

  /**
   The tier gain stated on integers: with d = |guess - answer| and D the
   denominator, 3 tiers iff d <= 2% of D, at least 2 iff d <= 6% of D, at
   least 1 iff d <= 12% of D or d <= MercyDistance.
   */
  lemma GainByDistance(guess: int, answer: int)
    ensures GainForGuess(guess, answer) == 3
        <==> 50 * Abs(guess - answer) <= Denominator(answer)
    ensures GainForGuess(guess, answer) >= 2
        <==> 50 * Abs(guess - answer) <= 3 * Denominator(answer)
    ensures GainForGuess(guess, answer) >= 1
        <==> 25 * Abs(guess - answer) <= 3 * Denominator(answer) || Abs(guess - answer) <= MercyDistance
  {
    ClosenessAtLeast(guess, answer, 98);
    ClosenessAtLeast(guess, answer, 94);
    ClosenessAtLeast(guess, answer, 88);
  }

  datatype Direction = Higher | Lower
  /** The clue shown after a wrong guess: static, or the clue at the unlocked tier. */
  datatype Clue = Static | Tier(index: nat)
  datatype Reply = NotANumber | AlreadySpoken | Correct | Feedback(direction: Direction, clue: Clue)

  /**
   The state of a level in play: the turn number as the source's loop counts it
   (starting at 1), the guesses already spoken, the unlocked tier and the win flag.
   */
  datatype LevelState = LevelState(turn: nat, seen: set<int>, unlockedTier: nat, won: bool)

  const Start := LevelState(1, {}, 0, false)

  predicate Finished(st: LevelState) {
    st.won || st.turn > MaxGuesses
  }

  /** Guesses used so far: every completed turn, plus the winning guess if any. */
  function Spent(st: LevelState): int {
    st.turn - 1 + (if st.won then 1 else 0)
  }

  /** What holds of every state a level passes through. */
  predicate Valid(level: Level, st: LevelState) {
    && st.unlockedTier < level.clueCount
    && 1 <= st.turn <= MaxGuesses + 1
    && (st.won ==> st.turn <= MaxGuesses)
    && (st.won <==> level.masterNumber in st.seen)
  }

  /** One line of input handled by the level loop. */
  function Step(level: Level, st: LevelState, input: Input): (res: (LevelState, Reply))
    requires level.clueCount >= 1
    ensures input.Invalid? ==> res == (st, NotANumber)
    ensures input.Num? ==> res.0.seen == st.seen + {input.n}
    ensures input.Num? ==> res.0.turn == if res.1 == Correct then st.turn else st.turn + 1
    ensures res.1 == AlreadySpoken <==> input.Num? && input.n in st.seen
    ensures res.1 == AlreadySpoken ==> res.0 == st.(turn := st.turn + 1)
    ensures res.1 == Correct <==> input.Num? && input.n !in st.seen && input.n == level.masterNumber
    ensures res.0.won <==> st.won || res.1 == Correct
    ensures res.1.Feedback? ==> (res.1.direction == Higher <==> input.n < level.masterNumber)
    ensures res.1.Feedback? ==> (res.1.clue == Static <==> GainForGuess(input.n, level.masterNumber) == 0)
    ensures st.unlockedTier < level.clueCount ==>
      st.unlockedTier <= res.0.unlockedTier < level.clueCount
    ensures res.0.unlockedTier != st.unlockedTier ==> res.1.Feedback? && res.1.clue == Tier(res.0.unlockedTier)
    ensures input.Num? && input.n !in st.seen && input.n != level.masterNumber ==> res.1.Feedback?
    ensures res.1.Feedback? && GainForGuess(input.n, level.masterNumber) > 0 ==>
      && res.0.unlockedTier == Min(level.clueCount - 1, st.unlockedTier + GainForGuess(input.n, level.masterNumber))
      && res.1.clue == Tier(res.0.unlockedTier)
  {
    match input
    case Invalid => (st, NotANumber)
    case Num(guess) =>
      if guess in st.seen then
        (st.(turn := st.turn + 1), AlreadySpoken)
      else if guess == level.masterNumber then
        (st.(seen := st.seen + {guess}, won := true), Correct)
      else
        var direction := if guess < level.masterNumber then Higher else Lower;
        var tierGain := GainForGuess(guess, level.masterNumber);
        var next := st.(turn := st.turn + 1, seen := st.seen + {guess});
        if tierGain <= 0 then
          (next, Feedback(direction, Static))
        else
          var tier := Min(level.clueCount - 1, st.unlockedTier + tierGain);
          (next.(unlockedTier := tier), Feedback(direction, Tier(tier)))
  }

  /** The level loop as a function of the inputs: play until won, out of guesses or out of input. */
  function Run(level: Level, st: LevelState, inputs: seq<Input>): (res: (LevelState, seq<Reply>))
    requires level.clueCount >= 1
    ensures |res.1| <= |inputs|
    decreases |inputs|
  {
    if Finished(st) || inputs == [] then (st, [])
    else
      var (next, reply) := Step(level, st, inputs[0]);
      var rest := Run(level, next, inputs[1..]);
      (rest.0, [reply] + rest.1)
  }

  /** One turn of the loop, seen from the run that starts at input k. */
  lemma RunUnfold(level: Level, st: LevelState, inputs: seq<Input>, k: nat)
    requires level.clueCount >= 1 && k < |inputs| && !Finished(st)
    ensures Run(level, st, inputs[k..])
         == (Run(level, Step(level, st, inputs[k]).0, inputs[k + 1..]).0,
             [Step(level, st, inputs[k]).1] + Run(level, Step(level, st, inputs[k]).0, inputs[k + 1..]).1)
  {
    assert inputs[k..][0] == inputs[k];
    assert inputs[k..][1..] == inputs[k + 1..];
  }

  /** The invariant survives a step, the tier never drops, and a step spends at most one guess. */
  lemma StepValid(level: Level, st: LevelState, input: Input)
    requires level.clueCount >= 1 && Valid(level, st) && !Finished(st)
    ensures Valid(level, Step(level, st, input).0)
    ensures st.unlockedTier <= Step(level, st, input).0.unlockedTier
    ensures Spent(Step(level, st, input).0) == Spent(st) + (if input.Num? then 1 else 0)
  {
  }

  /**
   Over a whole run: the invariant holds at the end, the tier never drops, the
   guesses spent are exactly the numbers read, and the run only stops early
   when the level is over.
   */
  lemma {:induction false} RunValid(level: Level, st: LevelState, inputs: seq<Input>)
    requires level.clueCount >= 1 && Valid(level, st)
    ensures Valid(level, Run(level, st, inputs).0)
    ensures st.unlockedTier <= Run(level, st, inputs).0.unlockedTier
    ensures Spent(Run(level, st, inputs).0) == Spent(st) + NumCount(inputs[..|Run(level, st, inputs).1|])
    ensures |Run(level, st, inputs).1| < |inputs| ==> Finished(Run(level, st, inputs).0)
    decreases |inputs|
  {
    if Finished(st) || inputs == [] {
      assert inputs[..0] == [];
    } else {
      var next := Step(level, st, inputs[0]).0;
      StepValid(level, st, inputs[0]);
      RunValid(level, next, inputs[1..]);
      var n := |Run(level, next, inputs[1..]).1|;
      assert inputs[..n + 1] == [inputs[0]] + inputs[1..][..n];
      assert ([inputs[0]] + inputs[1..][..n])[1..] == inputs[1..][..n];
    }
  }

  /** A level is won exactly when the master number is among the inputs the loop read. */
  lemma {:induction false} RunWon(level: Level, st: LevelState, inputs: seq<Input>)
    requires level.clueCount >= 1 && Valid(level, st)
    ensures Run(level, st, inputs).0.won
        <==> st.won || Num(level.masterNumber) in inputs[..|Run(level, st, inputs).1|]
    decreases |inputs|
  {
    if Finished(st) || inputs == [] {
    } else {
      var next := Step(level, st, inputs[0]).0;
      StepValid(level, st, inputs[0]);
      RunWon(level, next, inputs[1..]);
      var n := |Run(level, next, inputs[1..]).1|;
      assert inputs[..n + 1] == [inputs[0]] + inputs[1..][..n];
    }
  }

  /**
   One pass through the body of the level loop: unreadable input is refused, a
   repeated guess burns the turn, the master number wins, and any other guess
   gets its direction and, by closeness, a clue at a possibly higher tier.
   */
  method Turn(level: Level, turn: nat, seenGuesses: set<int>, unlockedTier: nat, input: Input)
    returns (turn': nat, seen': set<int>, unlockedTier': nat, won': bool, reply: Reply)
    requires level.clueCount >= 1
    ensures Step(level, LevelState(turn, seenGuesses, unlockedTier, false), input)
         == (LevelState(turn', seen', unlockedTier', won'), reply)
  {
    turn', seen', unlockedTier', won' := turn, seenGuesses, unlockedTier, false;
    if input.Invalid? {
      // no turn is charged for unreadable input
      reply := NotANumber;
    } else if input.n in seenGuesses {
      // a repeated guess burns the turn
      reply := AlreadySpoken;
      turn' := turn + 1;
    } else {
      var guess := input.n;
      seen' := seenGuesses + {guess};
      if guess == level.masterNumber {
        won' := true;
        reply := Correct;
      } else {
        var direction := if guess < level.masterNumber then Higher else Lower;
        var rel := RelativeCloseness(guess, level.masterNumber);
        var tierGain := TierGainFromCloseness(rel, Abs(guess - level.masterNumber));
        if tierGain <= 0 {
          reply := Feedback(direction, Static);
        } else {
          unlockedTier' := Min(level.clueCount - 1, unlockedTier + tierGain);
          reply := Feedback(direction, Tier(unlockedTier'));
        }
        turn' := turn + 1;
      }
    }
  }

  /**
   The level loop, step by step as the source runs it: a turn counter that
   invalid input does not advance, a growing set of seen guesses, and the
   unlocked tier and win flag updated in place.
   */
  method PlayLevel(level: Level, inputs: seq<Input>)
    returns (won: bool, unlockedTier: nat, turn: nat, replies: seq<Reply>)
    requires level.clueCount >= 1
    ensures (var fin := Run(level, Start, inputs).0;
             won == fin.won && unlockedTier == fin.unlockedTier && turn == fin.turn)
    ensures replies == Run(level, Start, inputs).1
    ensures unlockedTier < level.clueCount
    ensures turn - 1 + (if won then 1 else 0) == NumCount(inputs[..|replies|]) <= MaxGuesses
    ensures won <==> Num(level.masterNumber) in inputs[..|replies|]
  {
    var seenGuesses: set<int> := {};
    unlockedTier, won, turn, replies := 0, false, 1, [];
    var k := 0;
    assert inputs[0..] == inputs;
    assert LevelState(turn, seenGuesses, unlockedTier, won) == Start;
    assert [] + Run(level, Start, inputs).1 == Run(level, Start, inputs).1;
    while turn <= MaxGuesses && !won && k < |inputs|
      invariant k <= |inputs|
      invariant Valid(level, LevelState(turn, seenGuesses, unlockedTier, won))
      invariant Run(level, Start, inputs)
             == (Run(level, LevelState(turn, seenGuesses, unlockedTier, won), inputs[k..]).0,
                 replies + Run(level, LevelState(turn, seenGuesses, unlockedTier, won), inputs[k..]).1)
      decreases |inputs| - k
    {
      ghost var pre := LevelState(turn, seenGuesses, unlockedTier, won);
      RunUnfold(level, pre, inputs, k);
      StepValid(level, pre, inputs[k]);
      var reply;
      turn, seenGuesses, unlockedTier, won, reply := Turn(level, turn, seenGuesses, unlockedTier, inputs[k]);
      ghost var rest := Run(level, LevelState(turn, seenGuesses, unlockedTier, won), inputs[k + 1..]).1;
      ConcatAssoc(replies, [reply], rest);
      replies := replies + [reply];
      k := k + 1;
    }
    RunValid(level, Start, inputs);
    RunWon(level, Start, inputs);
  }

  /** The four turns of the scenario below, one at a time. */
  lemma FortyTwoTurns()
    ensures Step(Level(42, 5), Start, Num(10)) == (LevelState(2, {10}, 0, false), Feedback(Higher, Static))
    ensures Step(Level(42, 5), LevelState(2, {10}, 0, false), Num(30))
         == (LevelState(3, {10, 30}, 0, false), Feedback(Higher, Static))
    ensures Step(Level(42, 5), LevelState(3, {10, 30}, 0, false), Num(40))
         == (LevelState(4, {10, 30, 40}, 2, false), Feedback(Higher, Tier(2)))
    ensures Step(Level(42, 5), LevelState(4, {10, 30, 40}, 2, false), Num(42))
         == (LevelState(4, {10, 30, 40, 42}, 2, true), Correct)
  {
    GainByDistance(10, 42);
    GainByDistance(30, 42);
    GainByDistance(40, 42);
    assert Start.seen + {10} == {10};
    assert {10} + {30} == {10, 30};
    assert {10, 30} + {40} == {10, 30, 40};
    assert {10, 30, 40} + {42} == {10, 30, 40, 42};
  }

  /** Guessing 10, 30, 40, 42 against 42 gives Higher three times (one clue unlocked at 40), then a win. */
  lemma ScenarioFortyTwo()
    ensures Run(Level(42, 5), Start, [Num(10), Num(30), Num(40), Num(42)])
         == (LevelState(4, {10, 30, 40, 42}, 2, true),
             [Feedback(Higher, Static), Feedback(Higher, Static), Feedback(Higher, Tier(2)), Correct])
  {
    var level := Level(42, 5);
    var inputs := [Num(10), Num(30), Num(40), Num(42)];
    var s1 := LevelState(2, {10}, 0, false);
    var s2 := LevelState(3, {10, 30}, 0, false);
    var s3 := LevelState(4, {10, 30, 40}, 2, false);
    var s4 := LevelState(4, {10, 30, 40, 42}, 2, true);
    FortyTwoTurns();
    assert Run(level, s4, inputs[4..]) == (s4, []);
    RunUnfold(level, s3, inputs, 3);
    assert Run(level, s3, inputs[3..]).1 == [Correct];
    RunUnfold(level, s2, inputs, 2);
    assert Run(level, s2, inputs[2..]).1 == [Feedback(Higher, Tier(2)), Correct];
    RunUnfold(level, s1, inputs, 1);
    assert Run(level, s1, inputs[1..]).1 == [Feedback(Higher, Static), Feedback(Higher, Tier(2)), Correct];
    RunUnfold(level, Start, inputs, 0);
    assert inputs[0..] == inputs;
    assert Run(level, Start, inputs).0 == s4;
    assert Run(level, Start, inputs).1
        == [Feedback(Higher, Static), Feedback(Higher, Static), Feedback(Higher, Tier(2)), Correct];
  }

  /** Repeating a guess that earned two tiers burns a turn and earns nothing more. */
  lemma ScenarioRepeat()
    ensures Run(Level(42, 5), Start, [Num(40), Num(40)])
         == (LevelState(3, {40}, 2, false), [Feedback(Higher, Tier(2)), AlreadySpoken])
  {
    var level := Level(42, 5);
    var inputs := [Num(40), Num(40)];
    GainByDistance(40, 42);
    var s1 := LevelState(2, {40}, 2, false);
    var s2 := LevelState(3, {40}, 2, false);
    assert Step(level, Start, Num(40)).0 == s1 && Step(level, Start, Num(40)).1 == Feedback(Higher, Tier(2));
    assert Step(level, s1, Num(40)).0 == s2 && Step(level, s1, Num(40)).1 == AlreadySpoken;
    assert Run(level, s2, inputs[2..]) == (s2, []);
    RunUnfold(level, s1, inputs, 1);
    assert Run(level, s1, inputs[1..]).0 == s2 && Run(level, s1, inputs[1..]).1 == [AlreadySpoken];
    RunUnfold(level, Start, inputs, 0);
    assert inputs[0..] == inputs;
    assert Run(level, Start, inputs).0 == s2;
    assert Run(level, Start, inputs).1 == [Feedback(Higher, Tier(2)), AlreadySpoken];
  }
}
