/** The weighted candidate list both bots keep (bot.py and
    number_baseball/bot.py): its initial value, the reward rule and the
    filtering pass of update, before the list is re-sorted. */
module Candidates {
  import opened Scoring
  import opened Arrangements

  /** Sentinel weight of a candidate that has never been rewarded. */
  const INIT_SCORE: int := 1000

  /** One (candidate, weight) pair of the list. */
  datatype Entry = Entry(candi: seq<int>, weight: int)

  /** The Python exceptions the bots can raise. */
  datatype Error = IndexError | AttributeError

  datatype Result<T> = Success(value: T) | Failure(error: Error)

  datatype Outcome = Pass | Fail(error: Error)

  datatype Option<T> = None | Some(value: T)

  /** The candidates of the list, weights dropped. */
  function Cands(pool: seq<Entry>): (r: seq<seq<int>>)
    ensures |r| == |pool| && forall i :: 0 <= i < |pool| ==> r[i] == pool[i].candi
  {
    seq(|pool|, i requires 0 <= i < |pool| => pool[i].candi)
  }

  lemma CandsCons(x: Entry, t: seq<Entry>)
    ensures Cands([x] + t) == [x.candi] + Cands(t)
  {
  }

  lemma CandsSnoc(t: seq<Entry>, x: Entry)
    ensures Cands(t + [x]) == Cands(t) + [x.candi]
  {
  }

  /** The list invariant: numbers of L distinct digits with non-negative
      weights (so the think-time logarithm base weight/10 + 1.1 of the
      leveled bot always exceeds 1). */
  predicate WellFormed(pool: seq<Entry>, L: nat) {
    forall e :: e in pool ==> IsArrangement(e.candi, L) && e.weight >= 0
  }

  // ---------------------------------------------------------------------
  // init_candis
  // ---------------------------------------------------------------------

  /** [(candi, INIT_SCORE) for candi in itertools.permutations(range(10), L)] */
  function InitCandis(L: nat): seq<Entry> {
    var ps := Perms(Range10(), L);
    seq(|ps|, i requires 0 <= i < |ps| => Entry(ps[i], INIT_SCORE))
  }

  /** The initial list holds every number of L distinct digits exactly once,
      in lexicographic order, each with the sentinel weight. */
  lemma InitCandisSpec(L: nat)
    ensures |InitCandis(L)| == FallingFactorial(10, L)
    ensures forall e :: e in InitCandis(L) ==> e.weight == INIT_SCORE
    ensures forall c :: c in Cands(InitCandis(L)) <==> IsArrangement(c, L)
    ensures LexSorted(Cands(InitCandis(L)))
    ensures WellFormed(InitCandis(L), L)
  {
    InitialArrangements(L);
    assert Cands(InitCandis(L)) == Perms(Range10(), L);
  }

  // ---------------------------------------------------------------------
  // The reward rule of update
  // ---------------------------------------------------------------------

  /** add_score: s * 10 + b */
  function AddScore(score: Score): nat {
    score.strikes * 10 + score.balls
  }

  /** The reward encodes the score in decimal: with fewer than ten balls,
      the tens are the strikes and the units the balls. */
  lemma AddScoreDecodes(score: Score)
    requires score.balls < 10
    ensures AddScore(score) / 10 == score.strikes && AddScore(score) % 10 == score.balls
  {
  }

  /** any(n1 == n2 for n1, n2 in zip(candi, guess)) */
  predicate Aligned(candi: seq<int>, guess: seq<int>) {
    exists i :: 0 <= i < |candi| && i < |guess| && candi[i] == guess[i]
  }

  /** The entry a consistent candidate becomes: rewarded when it lines up
      with the guess somewhere, the sentinel being reset to 0 first. */
  function Rewarded(e: Entry, guess: seq<int>, score: Score): Entry {
    if Aligned(e.candi, guess) then
      Entry(e.candi, (if e.weight == INIT_SCORE then 0 else e.weight) + AddScore(score))
    else e
  }

  predicate Fits(pool: seq<Entry>, guess: seq<int>) {
    forall e :: e in pool ==> |guess| <= |e.candi|
  }

  predicate Consistent(candi: seq<int>, guess: seq<int>, score: Score)
    requires |guess| <= |candi|
  {
    ScoreOf(candi, guess) == score
  }

  /** For a candidate consistent with the score, the zip test of update is the
      same as "the score has a strike": such a candidate gains 10s+b on top of
      its weight (the sentinel counting as 0); otherwise it keeps its weight. */
  lemma RewardRule(e: Entry, guess: seq<int>, score: Score)
    requires |guess| <= |e.candi| && Consistent(e.candi, guess, score)
    ensures Aligned(e.candi, guess) <==> score.strikes > 0
    ensures Rewarded(e, guess, score).candi == e.candi
    ensures Rewarded(e, guess, score).weight
         == if score.strikes > 0
            then (if e.weight == INIT_SCORE then 0 else e.weight) + 10 * score.strikes + score.balls
            else e.weight
  {
    StrikesIffAlignedUpTo(e.candi, guess, |guess|);
  }

  /** The sentinel never acts as a bonus: an unscored candidate that first
      matches with one strike and one ball ends at weight 11, not 1011. */
  lemma SentinelIsReset(c: seq<int>, guess: seq<int>)
    requires |guess| <= |c| && Consistent(c, guess, Score(1, 1))
    ensures Rewarded(Entry(c, INIT_SCORE), guess, Score(1, 1)).weight == 11
  {
    RewardRule(Entry(c, INIT_SCORE), guess, Score(1, 1));
  }

  // ---------------------------------------------------------------------
  // The filtering loop of update
  // ---------------------------------------------------------------------

  /** The list tmp that update builds: each consistent entry, rewarded, and
      each inconsistent entry i for which keep[i] holds, unchanged, in list
      order. The strict bot keeps no inconsistent entry (Never). */
  function Survivors(pool: seq<Entry>, guess: seq<int>, score: Score, keep: seq<bool>): seq<Entry>
    requires |keep| == |pool| && Fits(pool, guess)
    decreases |pool|
  {
    if pool == [] then []
    else
      var n := |pool| - 1;
      var rest := Survivors(pool[..n], guess, score, keep[..n]);
      if Consistent(pool[n].candi, guess, score) then rest + [Rewarded(pool[n], guess, score)]
      else if keep[n] then rest + [pool[n]]
      else rest
  }

  /** Entry i of the list fits the guess, and so does the prefix up to it. */
  lemma FitsAt(pool: seq<Entry>, guess: seq<int>, i: nat)
    requires i < |pool| && Fits(pool, guess)
    ensures |guess| <= |pool[i].candi| && Fits(pool[..i + 1], guess)
  {
    assert pool[i] in pool;
  }

  /** One turn of the filtering loop on a consistent entry: it is appended,
      rewarded. */
  lemma SurvivorsStepKept(pool: seq<Entry>, guess: seq<int>, score: Score, keep: seq<bool>, i: nat)
    requires i < |pool| && |keep| == i + 1 && Fits(pool, guess)
    requires |guess| <= |pool[i].candi| && Consistent(pool[i].candi, guess, score)
    ensures Fits(pool[..i + 1], guess) && Fits(pool[..i], guess)
    ensures Survivors(pool[..i + 1], guess, score, keep)
         == Survivors(pool[..i], guess, score, keep[..i]) + [Rewarded(pool[i], guess, score)]
  {
    FitsAt(pool, guess, i);
    assert pool[..i + 1][..i] == pool[..i];
  }

  /** One turn of the filtering loop on an inconsistent entry: it is
      appended unchanged exactly when its flag is set. */
  lemma SurvivorsStepMissed(pool: seq<Entry>, guess: seq<int>, score: Score, keep: seq<bool>, i: nat)
    requires i < |pool| && |keep| == i + 1 && Fits(pool, guess)
    requires |guess| <= |pool[i].candi| && !Consistent(pool[i].candi, guess, score)
    ensures Fits(pool[..i + 1], guess) && Fits(pool[..i], guess)
    ensures Survivors(pool[..i + 1], guess, score, keep)
         == Survivors(pool[..i], guess, score, keep[..i]) + (if keep[i] then [pool[i]] else [])
  {
    FitsAt(pool, guess, i);
    assert pool[..i + 1][..i] == pool[..i];
  }

  function Never(n: nat): (r: seq<bool>)
    ensures |r| == n && forall i :: 0 <= i < n ==> !r[i]
  {
    seq(n, _ => false)
  }

  /** Reference definition: the candidates of a list consistent with the
      score, in list order. */
  function ConsistentOnes(cs: seq<seq<int>>, guess: seq<int>, score: Score): seq<seq<int>>
    requires forall c :: c in cs ==> |guess| <= |c|
  {
    if cs == [] then []
    else
      var head := if Consistent(cs[0], guess, score) then [cs[0]] else [];
      head + ConsistentOnes(cs[1..], guess, score)
  }

  lemma {:induction false} ConsistentOnesAppend(a: seq<seq<int>>, b: seq<seq<int>>, guess: seq<int>, score: Score)
    requires forall c :: c in a + b ==> |guess| <= |c|
    ensures ConsistentOnes(a + b, guess, score) == ConsistentOnes(a, guess, score) + ConsistentOnes(b, guess, score)
  {
    if a != [] {
      assert (a + b)[1..] == a[1..] + b;
      ConsistentOnesAppend(a[1..], b, guess, score);
    } else {
      assert a + b == b;
    }
  }

  /** Both directions of update's filter: every consistent entry survives
      (rewarded), every inconsistent entry whose flag is set survives
      unchanged, and nothing else is in the result. */
  lemma {:induction false} SurvivorsExact(pool: seq<Entry>, guess: seq<int>, score: Score, keep: seq<bool>)
    requires |keep| == |pool| && Fits(pool, guess)
    ensures forall i :: 0 <= i < |pool| && Consistent(pool[i].candi, guess, score) ==>
              Rewarded(pool[i], guess, score) in Survivors(pool, guess, score, keep)
    ensures forall i :: 0 <= i < |pool| && !Consistent(pool[i].candi, guess, score) && keep[i] ==>
              pool[i] in Survivors(pool, guess, score, keep)
    ensures forall e :: e in Survivors(pool, guess, score, keep) ==>
      exists i :: 0 <= i < |pool| &&
        ((Consistent(pool[i].candi, guess, score) && e == Rewarded(pool[i], guess, score))
        || (!Consistent(pool[i].candi, guess, score) && keep[i] && e == pool[i]))
    decreases |pool|
  {
    if pool != [] {
      var n := |pool| - 1;
      SurvivorsExact(pool[..n], guess, score, keep[..n]);
    }
  }

  /** update never creates candidates: the survivors' candidates form a
      sub-multiset of the list's, so the list never grows. */
  lemma {:induction false} SurvivorsSubMultiset(pool: seq<Entry>, guess: seq<int>, score: Score, keep: seq<bool>)
    requires |keep| == |pool| && Fits(pool, guess)
    ensures multiset(Cands(Survivors(pool, guess, score, keep))) <= multiset(Cands(pool))
    ensures |Survivors(pool, guess, score, keep)| <= |pool|
    decreases |pool|
  {
    if pool != [] {
      var n := |pool| - 1;
      var rest := Survivors(pool[..n], guess, score, keep[..n]);
      SurvivorsSubMultiset(pool[..n], guess, score, keep[..n]);
      assert Cands(pool) == Cands(pool[..n]) + [pool[n].candi];
      var e := Rewarded(pool[n], guess, score);
      assert Cands(rest + [e]) == Cands(rest) + [pool[n].candi];
      assert Cands(rest + [pool[n]]) == Cands(rest) + [pool[n].candi];
    }
  }

  /** Without kept inconsistent entries, the survivors' candidates are
      exactly the consistent candidates of the list, in list order. */
  lemma {:induction false} StrictSurvivorsAreConsistentOnes(pool: seq<Entry>, guess: seq<int>, score: Score)
    requires Fits(pool, guess)
    ensures Cands(Survivors(pool, guess, score, Never(|pool|))) == ConsistentOnes(Cands(pool), guess, score)
    decreases |pool|
  {
    if pool != [] {
      var n := |pool| - 1;
      var front, last := pool[..n], pool[n];
      assert pool == front + [last];
      assert Never(|pool|)[..n] == Never(n);
      StrictSurvivorsAreConsistentOnes(front, guess, score);
      CandsSnoc(front, last);
      ConsistentOnesAppend(Cands(front), [last.candi], guess, score);
      StrictSurvivorsLast(pool, guess, score);
    }
  }

  /** The last entry of the list adds its candidate to both sides alike. */
  lemma StrictSurvivorsLast(pool: seq<Entry>, guess: seq<int>, score: Score)
    requires pool != [] && Fits(pool, guess)
    ensures var n := |pool| - 1;
            Fits(pool[..n], guess) && |guess| <= |pool[n].candi| &&
            Cands(Survivors(pool, guess, score, Never(|pool|)))
            == Cands(Survivors(pool[..n], guess, score, Never(n))) + ConsistentOnes([pool[n].candi], guess, score)
  {
    var n := |pool| - 1;
    assert pool[n] in pool;
    assert Never(|pool|)[..n] == Never(n);
    var rest := Survivors(pool[..n], guess, score, Never(n));
    CandsSnoc(rest, Rewarded(pool[n], guess, score));
  }

  /** The leveled bot keeps at least what the strict bot keeps. */
  lemma {:induction false} StrictWithinLeveled(pool: seq<Entry>, guess: seq<int>, score: Score, keep: seq<bool>)
    requires |keep| == |pool| && Fits(pool, guess)
    ensures multiset(Survivors(pool, guess, score, Never(|pool|)))
         <= multiset(Survivors(pool, guess, score, keep))
    decreases |pool|
  {
    if pool != [] {
      var n := |pool| - 1;
      assert Never(|pool|)[..n] == Never(n);
      StrictWithinLeveled(pool[..n], guess, score, keep[..n]);
    }
  }

  /** Filtering keeps the list invariant. */
  lemma {:induction false} SurvivorsWellFormed(pool: seq<Entry>, guess: seq<int>, score: Score, keep: seq<bool>, L: nat)
    requires |keep| == |pool| && WellFormed(pool, L) && |guess| <= L
    ensures Fits(pool, guess)
    ensures WellFormed(Survivors(pool, guess, score, keep), L)
    decreases |pool|
  {
    if pool != [] {
      var n := |pool| - 1;
      SurvivorsWellFormed(pool[..n], guess, score, keep[..n], L);
      assert pool[n] in pool;
    }
  }
}
