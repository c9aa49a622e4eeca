# Rules engines of three console guessing games

This project models the deterministic rules engines of three small C# console
games and proves properties about them. The engines are the parts behind the
console prompts.

- **Daily number oracle** (`DailyPuzzle.dfy`). Each level hides a master number
  and has clues ordered by tier. Each wrong guess is scored by its relative
  closeness to the master number. The score becomes a tier gain of 0 to 3, with
  an absolute "mercy" rule for misses of at most 3. The level loop gives
  Higher/Lower feedback, burns a turn on a repeated guess and raises the unlocked
  clue tier, clamped to the clue list. The player has five guesses.
- **The brutal oracle** (`Numerology.dfy`). The player has five turns to name 42.
  Each wrong guess draws omens computed from the guess itself. It also moves a
  hidden "ritual" exponent over a secret base. The exponent drops by one when it
  is above 1 and the guess lands within the gliding tolerance of base^exponent,
  rises by one otherwise, and is then clamped to [1, 12].
- **The exponent guessing game** (`GuessAgain.dfy`). The target is base^exponent
  and the player must name it exactly. The drop/rise rule is the same, with a
  wider tolerance. An exponent that passes 12 ends the game, and at most 50
  turns are played.

The shared layer sits in `Ritual.dfy`: integer powers, truncating division, the
tolerance (defined once and instantiated with 4%/22% and 5%/25%) and the
drop/rise rule. `Guesses.dfy` holds the parsed form of a console line
(`Invalid` or `Num(n)`) and small integer helpers.

Each game is modelled in three layers:

- a pure `Step` function: one line of input handled by the loop;
- a `Run` fold of `Step` over the input sequence;
- an imperative method that runs the source's loop, with the loop body in a
  `Turn` method proved equal to `Step`, and the loop proved to compute `Run`.

The `turn` field counts as the source's loop counter does. It starts at 1. It
does not advance on unreadable input. It does not advance on the winning guess,
or on the guess that breaks the exponent cap.

In each game, `Finished`, `Valid` and `Spent` are plain definitions without contracts of their own. They say when the loop stops, what holds of every state, and how many guesses a state has used. Their content is proved in the `StepValid` and `RunValid` lemmas.

## Model

| member | source | states |
|---|---|---|
| DailyPuzzle.RelativeCloseness | DailyPuzzle.cs:156-169 | The score lies in [0, 1]. It is 1 exactly when the guess is the answer, and 0 exactly when the miss is at least max(abs(answer), 1). The score times that denominator is what the miss leaves of the denominator, floored at 0. |
| DailyPuzzle.TierGainFromCloseness | DailyPuzzle.cs:171-191 | The gain is at most 3. It is 3 iff closeness >= 0.98 and 2 iff 0.94 <= closeness < 0.98. It is 1 when 0.88 <= closeness < 0.94. Below 0.88 it is 1 exactly when the miss is at most 3, and 0 otherwise, so mercy never grants more than 1. |
| DailyPuzzle.ClosenessAtLeast | DailyPuzzle.cs:159-167 | Closeness >= pct% holds exactly when 100·abs(guess − answer) <= (100 − pct)·max(abs(answer), 1), an integer statement. |
| DailyPuzzle.ClosenessMonotone | DailyPuzzle.cs:159-167 | For a fixed answer, a larger miss never scores a higher closeness. |
| DailyPuzzle.TierGainMonotoneInCloseness | DailyPuzzle.cs:184-190 | For a fixed absolute miss, a higher closeness never gives a smaller gain. |
| DailyPuzzle.TierGainMonotoneInDistance | DailyPuzzle.cs:180-190 | For a fixed closeness, a smaller absolute miss never gives a smaller gain. |
| DailyPuzzle.GainMonotone | DailyPuzzle.cs:129-134 | For a fixed answer, a guess at least as close earns at least as many tiers. |
| DailyPuzzle.GainByDistance | DailyPuzzle.cs:129-134 | With d the miss and D the denominator: 3 tiers iff 50d <= D; at least 2 iff 50d <= 3D; at least 1 iff 25d <= 3D or d <= 3. |
| DailyPuzzle.Denominator | DailyPuzzle.cs:159 | The denominator is abs(answer), or 1 when the answer is 0; it is at least 1 and at least abs(answer). |
| DailyPuzzle.GainForGuess | DailyPuzzle.cs:129-134 | The gain a wrong guess earns is at most 3. It is 0 exactly when the miss is more than 12% of the denominator (25·d > 3·D) and more than 3. |
| DailyPuzzle.Run | DailyPuzzle.cs:97-145 | The level loop as a fold of Step: one reply per input read, never more replies than inputs. Its whole-level properties are RunValid and RunWon. |
| DailyPuzzle.Step | DailyPuzzle.cs:100-144 | Unreadable input changes nothing. A repeated guess adds one turn and nothing else. Correct comes exactly from a new guess equal to the master number, and it sets won without using a turn. Feedback is Higher iff the guess is below the master number. The clue is Static iff the gain is 0. A new wrong guess always gets Feedback. When its gain is positive, the tier becomes min(clue count − 1, tier + gain) and the clue shown is that tier. The tier stays within the clue list, never drops, and changes only when the shown clue carries the new tier. Every number is recorded as seen. |
| DailyPuzzle.StepValid | DailyPuzzle.cs:97-145 | One step keeps the level invariant: the tier is within the clue list, the turn is in [1, 6], and won holds iff the master number was seen. The tier does not drop. A guess is spent exactly when the input was a number. |
| DailyPuzzle.RunValid | DailyPuzzle.cs:91-145 | Over a whole level the invariant holds and the tier never drops. The guesses spent equal the numbers read. Reading stops early only when the level is won or five guesses are used. |
| DailyPuzzle.RunWon | DailyPuzzle.cs:110-122 | A level is won exactly when the master number is among the inputs the loop read. |
| DailyPuzzle.Turn | DailyPuzzle.cs:100-144 | The loop body, with its set of seen guesses and tier updated in place, produces exactly the state and reply of Step. |
| DailyPuzzle.PlayLevel | DailyPuzzle.cs:80-153 | The imperative level loop ends in the state and with the replies of Run. The tier stays below the clue count. The guesses used are the numbers read, at most 5. The level is won iff the master number was read. |
| DailyPuzzle.FortyTwoTurns | DailyPuzzle.cs:116-144 | Against 42, the guesses 10 and 30 get Higher with Static, 40 gets Higher with the tier-2 clue, and 42 wins. |
| DailyPuzzle.ScenarioFortyTwo | DailyPuzzle.cs:97-145 | The run 10, 30, 40, 42 against 42 ends won on turn 4 at tier 2, with those four replies. |
| DailyPuzzle.ScenarioRepeat | DailyPuzzle.cs:109-114 | Repeating 40 burns turn 2 and keeps tier 2. |
| Ritual.Pow | NumerologyLevel1.cs:51 | For a base of at least 1, base^e is at least 1, and at least the base once e >= 1. |
| Ritual.TruncDiv | NumerologyLevel1.cs:127 | The quotient rounds toward zero. For a >= 0, q·d <= a < q·d + d. For a < 0, a <= q·d <= 0 and q·d < a + d. |
| Ritual.Percent | NumerologyLevel1.cs:125 | The percent window is the smaller of the cap and base + 2·(exponent − 1). |
| Ritual.GlidingTolerance | NumerologyLevel1.cs:121-133 | The tolerance is at least 10. When above 10 it is target·percent/100 rounded toward zero. It equals 10 exactly when target·percent < 1100. |
| Ritual.Shift | GuessAgain.cs:61-70 | The exponent moves by exactly one, and drops iff it is above 1 and the miss is within tolerance. From 1 it always rises. |
| Ritual.TruncDivMonotone | NumerologyLevel1.cs:127 | Truncating division by a positive divisor is monotone. |
| Ritual.ToleranceMonotone | NumerologyLevel1.cs:125-130 | For a non-negative target, the tolerance never shrinks as the exponent rises. |
| Ritual.ToleranceSaturates | NumerologyLevel1.cs:125 | Once the percentage is capped, further exponent steps leave the tolerance unchanged. |
| Ritual.ToleranceAtMostCap | GuessAgain.cs:100-106 | For a non-negative target, the tolerance is at most the larger of 10 and the capped percentage of the target. |
| Numerology.GlidingTolerance | NumerologyLevel1.cs:121-133 | The tolerance is at least 10. For a target >= 0 it equals max(10, target·min(22, 4 + 2(e − 1))/100). |
| Numerology.ToleranceGlides | NumerologyLevel1.cs:125-130 | For a target >= 0 the tolerance does not decrease in the exponent, and stops changing from exponent 10 on. |
| Numerology.NextExponent | NumerologyLevel1.cs:51-69 | The new exponent is within [1, 12]. For any exponent up to 12 it is min(12, the drop/rise result), so it is one lower iff the exponent was above 1 and the guess was within tolerance of base^exponent, and one higher otherwise, capped at 12. At 12 a guess within tolerance drops to 11, and one outside leaves it at 12. |
| Numerology.WithinTolerance | NumerologyLevel1.cs:51-56 | A guess within 10 of base^exponent is always within tolerance, since the window never falls below 10. |
| Numerology.NaturalString | NumerologyLevel1.cs:84 | The decimal numeral is non-empty, consists of digits only, and has no leading zero for a positive number. |
| Numerology.IntString | NumerologyLevel1.cs:84 | The numeral `ToString` writes is non-empty, starts with '-' exactly for a negative number, and is digits after that. |
| Numerology.NaturalStringHasDigit | NumerologyLevel1.cs:84-88 | A digit character occurs in the decimal numeral of n exactly when the digit occurs among n's digits. |
| Numerology.IntStringHasDigit | NumerologyLevel1.cs:84-88 | The same holds for a signed numeral and the digits of the absolute value. |
| Numerology.Omens | NumerologyLevel1.cs:78-117 | Between one and four omens are shown, each at most once and in the order two faces, balance, right angle, duet. Static is shown iff it is the only omen. |
| Numerology.OmensMeaning | NumerologyLevel1.cs:84-116 | Two faces iff 10 <= abs(guess) <= 99. Balance iff the guess is even. A right angle iff abs(guess) has a digit 4, and a duet iff it has a digit 2. Static iff none of these holds. |
| Numerology.Step | NumerologyLevel1.cs:31-69 | Unreadable input changes nothing. Revealed comes exactly from 42, and won is set exactly by 42, with the turn and exponent left as they were. Any other number uses a turn, moves the exponent by NextExponent and shows that guess's omens. The reply says whether the ritual slackened. |
| Numerology.Run | NumerologyLevel1.cs:26-70 | The turn loop as a fold of Step: one reply per input read, never more replies than inputs. Its whole-game properties are RunValid and WinIgnoresBase. |
| Numerology.ClampNeverFires | NumerologyLevel1.cs:67-69 | In any reachable state of a game in progress, the clamped exponent equals the unclamped drop/rise result. |
| Numerology.StepValid | NumerologyLevel1.cs:26-69 | One step keeps 1 <= exponent <= turn <= 6, and spends a guess exactly when the input was a number. |
| Numerology.RunValid | NumerologyLevel1.cs:16-69 | Over a whole game the exponent never exceeds 6, so it never reaches 12. The guesses spent are the numbers read. The game is won iff 42 was read. Reading stops early only when the game is over. |
| Numerology.WinIgnoresBase | NumerologyLevel1.cs:39-50 | Whether the game is won, the turn count and the number of replies do not depend on the secret base or on the exponent. |
| Numerology.Turn | NumerologyLevel1.cs:31-69 | The loop body, with the exponent moved and clamped in place, produces exactly the state and reply of Step. |
| Numerology.Play | NumerologyLevel1.cs:15-70 | The imperative turn loop ends in the state and with the replies of Run. The exponent ends within [1, 6]. The guesses used are the numbers read, at most 5. The game is won iff 42 was read. |
| GuessAgain.GlidingTolerance | GuessAgain.cs:92-109 | The tolerance is at least 10. For a target >= 0 it equals max(10, target·min(25, 5 + 2(e − 1))/100). |
| GuessAgain.ToleranceGlides | GuessAgain.cs:100-106 | For a target >= 0 the tolerance does not decrease in the exponent, and stops changing from exponent 11 on. |
| GuessAgain.ToleranceAtHundred | GuessAgain.cs:100-106 | A target of 100 at exponent 1 gets a 5% window, which the floor lifts to 10. |
| GuessAgain.Step | GuessAgain.cs:35-79 | Unreadable input changes nothing. Correct comes exactly from naming base^exponent, and it ends the game without using a turn. Every other number gets a Wrong reply. A miss reports its distance and the window. It drops the exponent iff the exponent was above 1 and the miss was within the window, and raises it otherwise. Past 12 the game ends in the same turn; otherwise the turn advances. |
| GuessAgain.Run | GuessAgain.cs:33-80 | The while loop as a fold of Step: one reply per input read, never more replies than inputs. Its whole-game properties are RunValid. |
| GuessAgain.WrongAtOneRises | GuessAgain.cs:61-70 | At exponent 1 any wrong guess gives exponent 2 and play goes on. |
| GuessAgain.StepValid | GuessAgain.cs:33-80 | One step keeps the state valid, spends a guess exactly when the input was a number, and sets Won exactly with a Correct reply. |
| GuessAgain.RunValid | GuessAgain.cs:18-80 | While playing, the exponent stays within [1, 12]. The cap ends the game exactly at 13. The guesses spent are the numbers read, never more than 50. The game is won iff some reply was Correct. Reading stops early only when the game is over. |
| GuessAgain.Turn | GuessAgain.cs:35-79 | The loop body, with the exponent moved in place and the cap checked, produces exactly the state and reply of Step. |
| GuessAgain.Play | GuessAgain.cs:14-85 | The imperative while loop ends in the state and with the replies of Run. The exponent ends within [1, 12], or at 13 exactly when the cap was reached. The guesses used are the numbers read, at most 50. Won iff some reply was Correct. |
| Guesses.NumCount | GuessAgain.cs:44-48 | The number of parsed numbers among the inputs is at most their count. It is 0 exactly when every input failed to parse. |

## Left out

- Console I/O is not modelled: banners, name prompts, `ReadKey` and the wording of every message. Each game reads a sequence of already-parsed lines (`Invalid` or `Num(n)`). `TryParse` is the boundary.
- When the input sequence runs out, the model stops. The source would read end of input as an empty, unparseable line and prompt forever.
- The secret base is not drawn with `System.Random`. It is a parameter of the Numerology and GuessAgain games.
- DailyPuzzle.RelativeCloseness: computed over exact reals, not IEEE-754 doubles. The long-to-double conversion and rounding at exactly 0.98, 0.94 and 0.88 are idealised away.
- DailyPuzzle.Step: guesses and master numbers are unbounded integers. The source's `long` overflow in `guess - MasterNumber`, and the range `long.TryParse` accepts, are not modelled.
- DailyPuzzle.Step: requires at least one clue. The source indexes `CluesByTier[unlockedTier]` and would fail on an empty clue list. Every level it defines has five clues.
- The clue, category and reveal texts are not modelled. A level is only its master number and its clue count, and a clue is reported by its tier index.
- The games' list of levels is not modelled, nor the loop over it in `Main` (DailyPuzzle.cs:11-77). Each level is played independently by PlayLevel.
- The win's `break`/`return` and the cap's `break` are modelled as a flag that ends the loop guard, so the loop exits at the same point.
