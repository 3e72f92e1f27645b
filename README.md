# number_baseball in Dafny

A model of the scoring rule and the guessing bots of the number baseball game
("bulls and cows" over L distinct decimal digits).

- **Scoring** (`scoring.dfy`, from `utils.py`). `get_score` counts strikes and
  balls. A strike is a digit of the guess at the same index in the target. A
  ball is a digit that occurs in the target at another index. `format_score`
  turns a score into the message shown to the player and an end-of-game flag.
- **The candidate list** (`arrangements.dfy`, `candidates.dfy`,
  `weight_sort.dfy`). Both bots keep a list of `(candidate, weight)` pairs.
  - The list starts as every arrangement of L distinct digits, as
    `itertools.permutations(range(10), L)` enumerates them, each with the
    sentinel weight `INIT_SCORE = 1000`.
  - `update` keeps the candidates whose score against the guess equals the
    observed score.
  - A kept candidate that lines up with the guess at some index is rewarded
    with `10*strikes + balls`. The sentinel is reset to 0 first.
  - The list is then re-sorted by weight, heaviest first, with Python's stable
    `sorted`.
- **Strict bot** (`strict_bot.dfy`, from `bot.py`). A class whose field
  `candis` is replaced by `Update`. `Guess` returns the head of the list.
- **Leveled bot** (`leveled_bot.dfy`, from `number_baseball/bot.py`). The same
  engine with two deliberate mistakes, both taken when a draw of
  `random.random()` falls under `1 - level/10`:
  - `update` keeps an inconsistent candidate, unchanged;
  - `guess` returns the candidate `random.choice` picks instead of the head.

  The draws and the index picked are parameters of the methods, so the model
  is deterministic.

How the model reads the code:

- `get_score` is a loop (`Scoring.GetScore`). It is proved equal to the
  specification function `ScoreOf`, and the lemmas are about `ScoreOf`.
- A Python exception becomes a `Result`/`Outcome` value:
  - `candis[0]` on an empty list is `IndexError`;
  - reading `self.level` when it was never assigned is `AttributeError`.
- The leveled bot's constructor stores a level only when none is passed. It
  then stores the value `set_level` returns, which is the parameter `chosen`,
  from 1 to 10. A level passed explicitly is never stored. `guess` and
  `update` then raise `AttributeError`. `update` raises it only once it meets
  an inconsistent candidate, because that is the only branch that reads
  `self.level`. The model keeps this behaviour as written.
- The loop of the leveled `update` is the method `LeveledBot.Filter`.
  `LeveledBot.Bot.Update` calls it and stores the sorted result.

Three facts about the code that the proofs make explicit:

- **Scoring is symmetric.** For two numbers of the same length with distinct
  digits, swapping target and guess gives the same score
  (`Scoring.ScoreSymmetric`). The bots call `get_score(candi, guess)` with
  the candidate in the target's place, the same argument order as the game,
  so the true target is always consistent (`StrictBot.TargetSurvives`,
  `LeveledBot.LeveledTargetSurvives`).
- **Ties keep their order.** Python's sort is stable, also with
  `reverse=True`: entries of equal weight keep their previous order
  (`WeightSort.SortByWeightStable`).
- **An empty list raises IndexError.** `guess` on an empty list raises
  `IndexError`, and `update` on an empty list returns an empty list.

The sentinel test compares the weight with 1000, so any weight equal to 1000
is treated as the sentinel, including one reached through rewards: such a
weight is also reset to 0 before the next reward (`Candidates.Rewarded`,
from bot.py:89-90). The model reproduces this.

## Model

| member | source | states |
|---|---|---|
| Scoring.ScoreUpTo | utils.py:30-36 | The counters (s, b) after the loop has scanned the first n guess digits. StrikesCountIndices and BallsCountIndices state what they count, and ScoreBounded bounds them. |
| Scoring.ScoreOf | utils.py:30-38 | The pair get_score returns: the counters after the whole guess. GetScore proves the loop computes it; StrikesCountIndices, BallsCountIndices, HomeRunIsTarget and ScoreSymmetric state its meaning. |
| Scoring.GetScore | utils.py:30-38 | The counting loop returns exactly the specification score `ScoreOf(target, guess)`. |
| Scoring.StrikesCountIndices | utils.py:32-34 | Strikes equal the number of indices where target and guess agree. |
| Scoring.BallsCountIndices | utils.py:32-36 | Balls equal the number of indices where the digits differ but the guess digit occurs in the target. |
| Scoring.ScoreBounded | utils.py:32-36 | Each index adds to at most one counter: strikes + balls <= number of digits scanned. |
| Scoring.SelfScore | utils.py:30-38 | A number scored against itself is (len, 0). |
| Scoring.HomeRunIsTarget | utils.py:32-34 | For equal lengths, strikes == len(guess) exactly when target == guess. |
| Scoring.StrikesIffAlignedUpTo | utils.py:32-34 | Strikes are positive exactly when the two numbers agree at some index. |
| Scoring.HitsAreShared | utils.py:32-36 | For a guess of distinct digits, strikes + balls is the number of guess digits found anywhere in the target. |
| Scoring.ScoreSymmetric | utils.py:32-36 | For equal-length numbers of distinct digits, the score does not depend on which one is the target. |
| Scoring.NatToString | utils.py:102 | The rendering of a count is non-empty, all decimal digits, has no leading zero and denotes the count. |
| Scoring.FormatScore | utils.py:95-102 | "OUT" exactly when s + b == 0; the end flag exactly when s + b != 0 and s == L; "Home run!" exactly when the flag is set. |
| Scoring.ScoreMessageReadsBack | utils.py:101-102 | In every other case the message is the decimal rendering of the strikes (NatToString: digits, no leading zero), "S ", that of the balls, and "B"; it reads back as the two counts; the flag is false. |
| Scoring.SelfScoreEndsGame | utils.py:97-100 | Scoring a number against itself ends the game, except for the empty number, whose (0, 0) is OUT. |
| Arrangements.Perms | bot.py:56 | itertools.permutations(pool, k) as a recursive enumeration. Its meaning is stated by PermsSound, PermsComplete, PermsCount and PermsLexSorted. |
| Arrangements.PermsSound | bot.py:56 | Every enumerated arrangement has length k, distinct elements, all drawn from the pool. |
| Arrangements.PermsComplete | bot.py:56 | Every sequence of k distinct elements of the pool is enumerated. |
| Arrangements.PermsCount | bot.py:56 | The enumeration of k-arrangements of n distinct elements has n!/(n-k)! entries. |
| Arrangements.PermsLexSorted | bot.py:56 | Over an increasing pool, the arrangements come in strictly increasing lexicographic order. |
| Arrangements.InitialArrangements | bot.py:56 | The arrangements of range(10) are exactly the numbers of L distinct digits, 10!/(10-L)! of them, in lexicographic order. |
| Arrangements.LexSortedNoDuplicates | bot.py:56 | A strictly lexicographically sorted enumeration holds no number twice. |
| Candidates.InitCandis | bot.py:56 | The initial list, the same in number_baseball/bot.py:60: every arrangement of range(10) paired with INIT_SCORE = 1000 (bot.py:7). Its meaning is stated by InitCandisSpec. |
| Candidates.InitCandisSpec | bot.py:56 | The initial list holds every number of L distinct digits once, in lexicographic order, each weighted 1000, and 10!/(10-L)! entries. |
| Candidates.AddScore | bot.py:81-83 | add_score: 10 * strikes + balls. Its role as the reward is stated by RewardRule, and AddScoreDecodes shows it encodes the score. |
| Candidates.AddScoreDecodes | bot.py:81-83 | With fewer than ten balls the reward reads back as the score: the tens are the strikes, the units the balls. |
| Candidates.Aligned | bot.py:88 | The zip test: candidate and guess agree at some index below both lengths. RewardRule proves that for a consistent candidate it holds exactly when the score has a strike. |
| Candidates.Rewarded | bot.py:88-91 | The entry a consistent candidate becomes. Its weight arithmetic is stated by RewardRule and SentinelIsReset. |
| Candidates.RewardRule | bot.py:81-91 | For a consistent candidate the zip test holds exactly when the score has a strike; such a candidate gains 10s+b when the score has a strike, the sentinel counting as 0; otherwise its weight is unchanged. |
| Candidates.SentinelIsReset | bot.py:89-91 | A never-rewarded candidate that first matches with (1, 1) ends at weight 11, not 1011. |
| Candidates.Consistent | bot.py:87 | The test get_score(candi, guess) == score. StrictUpdateSound and StrictUpdateComplete show the strict update keeps exactly the candidates passing it. |
| Candidates.Survivors | number_baseball/bot.py:113-123 | The list tmp built by the loop, with one keep flag per inconsistent entry (none set for bot.py:85-92). Its meaning is stated by SurvivorsExact, SurvivorsSubMultiset and StrictSurvivorsAreConsistentOnes. |
| Candidates.SurvivorsExact | number_baseball/bot.py:113-123 | Both directions of the filter: every consistent entry is kept rewarded, every flagged inconsistent entry is kept unchanged, and nothing else is kept. |
| Candidates.SurvivorsSubMultiset | number_baseball/bot.py:113-123 | The filter never creates candidates: its candidates are a sub-multiset of the list's, and the list does not grow. |
| Candidates.StrictSurvivorsAreConsistentOnes | bot.py:85-92 | With no inconsistent entry kept, the survivors' candidates are exactly the consistent candidates, in list order. |
| Candidates.StrictWithinLeveled | number_baseball/bot.py:113-123 | The leveled filter keeps everything the strict filter keeps. |
| Candidates.SurvivorsWellFormed | bot.py:85-92 | Filtering keeps every entry a number of L distinct digits with a non-negative weight. |
| WeightSort.SortByWeight | bot.py:93 | sorted(tmp, key=weight, reverse=True) as a stable insertion sort. Its meaning is stated by SortByWeightSorted, SortByWeightPermutes and SortByWeightStable, which together determine the result uniquely. |
| WeightSort.SortByWeightSorted | bot.py:93 | The sorted list is heaviest first. |
| WeightSort.SortByWeightPermutes | bot.py:93 | The sorted list is a permutation of its input. |
| WeightSort.SortByWeightCands | bot.py:93 | Sorting neither adds nor drops a candidate. |
| WeightSort.SortByWeightStable | bot.py:93 | The sort is stable: for each weight, the entries of that weight keep their order. |
| WeightSort.SortByWeightElems | bot.py:93 | An entry is in the sorted list exactly when it is in the input. |
| StrictBot.StrictUpdate | bot.py:85-93 | update as a function of the old list: the filter loop with no inconsistent entry kept, then the sort. Its meaning is stated by StrictUpdateSound, StrictUpdateComplete, StrictUpdateExact and StrictUpdateOrdered, and Bot.Update is proved to compute it. |
| StrictBot.Bot.constructor | bot.py:35 | The list starts as init_candis(L), and the list invariant holds. |
| StrictBot.Bot.Len | bot.py:44 | __len__ is the number of (candidate, weight) entries. |
| StrictBot.Bot.Guess | bot.py:67 | IndexError exactly when the list is empty; on a non-empty list always Success with the head candidate, which has the largest weight. |
| StrictBot.Bot.Update | bot.py:85-93 | The loop and sort leave the list equal to StrictUpdate of the old list, and the invariant (well-formed, heaviest first) is kept. |
| StrictBot.StrictUpdateSound | bot.py:86-92 | After update every remaining candidate has exactly the observed score against the guess. |
| StrictBot.StrictUpdateComplete | bot.py:86-92 | No consistent candidate is dropped: each one is in the new list with its rewarded weight. |
| StrictBot.StrictUpdateExact | bot.py:85-93 | The new candidates are, as a multiset, exactly the consistent candidates of the old list, so the list never grows. |
| StrictBot.StrictUpdateOrdered | bot.py:93 | The new list is heaviest first, and equal weights keep the order they had among the survivors. |
| StrictBot.StrictUpdateWellFormed | bot.py:85-93 | update keeps the list invariant. |
| StrictBot.TargetSurvives | bot.py:87 | If the hidden target is in the list and the score is its honest score, the target is still there after update. |
| StrictBot.HomeRunLeavesGuess | bot.py:86-92 | After a home run only the guess itself can remain. |
| StrictBot.TargetNeverLost | bot.py:69-93 | Over any sequence of honestly scored guesses the target stays in the list, so the list never runs empty. |
| LeveledBot.Deviates | number_baseball/bot.py:90 | The mistake test random.random() < 1 - level/10. LevelTenIsStrict and Bot.Guess show it never holds at level 10. |
| LeveledBot.KeepFlags | number_baseball/bot.py:122 | One keep flag per entry: flag i holds exactly when draw i deviates. |
| LeveledBot.KeepFlagsFor | number_baseball/bot.py:121-122 | The flags update acts on: the draws' flags at an assigned level, none when no level is assigned, as the failing read of self.level never keeps an entry. Filter and UnsetLevelUpdate state its consequences. |
| LeveledBot.HasInconsistent | number_baseball/bot.py:115-121 | Some entry fails the score test, so the else branch that reads self.level is reached. Filter proves it is exactly when update fails without a level. |
| LeveledBot.LeveledUpdate | number_baseball/bot.py:113-124 | update as a function of the old list and the keep flags: the filter loop, then the sort. Its meaning is stated by LeveledUpdateExact, LeveledUpdateShrinks, LeveledUpdateOrdered and LeveledKeepsStrict, and Bot.Update is proved to compute it. |
| LeveledBot.Bot.constructor | number_baseball/bot.py:37-39 | The list starts as init_candis(L); the level is the chosen 1..10 when none is passed, and stays unassigned when one is passed. |
| LeveledBot.Bot.Len | number_baseball/bot.py:48 | __len__ is the number of (candidate, weight) entries. |
| LeveledBot.Bot.Guess | number_baseball/bot.py:84-95 | IndexError on an empty list, then AttributeError with no level; otherwise the head, or the picked entry when the draw falls under 1 - level/10; always a member of the list; at level 10 always the head. |
| LeveledBot.Filter | number_baseball/bot.py:113-123 | The loop fails with AttributeError exactly when no level is assigned and some entry is inconsistent; otherwise it builds the survivors under the per-entry keep flags. |
| LeveledBot.Bot.Update | number_baseball/bot.py:113-124 | On failure the list is unchanged; otherwise it is LeveledUpdate of the old list under the draws' flags; the level and the list invariant are kept. |
| LeveledBot.LeveledUpdateWellFormed | number_baseball/bot.py:113-124 | update keeps the list invariant. |
| LeveledBot.LeveledUpdateExact | number_baseball/bot.py:114-123 | Every consistent entry is kept rewarded; an inconsistent entry is kept unchanged exactly when its flag is set; nothing else is kept. |
| LeveledBot.LeveledUpdateShrinks | number_baseball/bot.py:113-124 | The new candidates are a sub-multiset of the old ones, so the list never grows. |
| LeveledBot.LeveledUpdateOrdered | number_baseball/bot.py:124 | The new list is heaviest first and keeps the order of equal weights. |
| LeveledBot.LeveledKeepsStrict | number_baseball/bot.py:113-124 | The leveled update keeps every entry the strict update keeps. |
| LeveledBot.LeveledTargetSurvives | number_baseball/bot.py:115-120 | Under honest feedback the target survives the leveled update whatever the draws. |
| LeveledBot.LevelTenIsStrict | number_baseball/bot.py:122 | At level 10 no draw falls under 0, so update is exactly the strict update. |
| LeveledBot.FlagsUnused | number_baseball/bot.py:121-123 | With no inconsistent entry in the list, the keep flags do not affect the result. |
| LeveledBot.UnsetLevelUpdate | number_baseball/bot.py:37-39 | When update succeeds without an assigned level, the result is the strict update whatever the flags. |

## Left out

- The think time of both `guess` methods is not modelled: `time.time`, `time.sleep`, the `random.random()` that scales the sleep and the float `math.log(len + 1, score / 10 + 1.1)`. They do not change the candidate returned. The list invariant keeps weights non-negative, so the logarithm's base stays above 1.
- LeveledBot.Bot.Guess: does not return the elapsed time `_toc - _tic`, because it comes from the clock.
- Deviates: compares on exact reals, not on floating point. The rounding of `1 - level/10` is not modelled.
- `set_level` is interactive input. It is modelled as the constructor parameter `chosen`, a number from 1 to 10.
- `random.choice` and `random.random()` are not modelled as random. They are parameters: an index into the list and draws in [0, 1).
- `utils.generate_numbers` and `utils.get_user_input` are not part of this model, nor are `game.py`, `history.py` and their `number_baseball` twins: they are console input and output.
- StrictBot.Bot.Update and LeveledBot.Bot.Update: require the guess to be no longer than L. A longer guess would raise IndexError in `get_score`, and that path is not modelled.
- StrictBot.Bot.constructor and LeveledBot.Bot.constructor: take L as a natural number. A negative L, on which `itertools.permutations` raises ValueError, is not modelled.
- Python's duck typing of candidates is not modelled. Candidates are tuples of ints and guesses are lists or tuples of ints; both are sequences of integers here.
