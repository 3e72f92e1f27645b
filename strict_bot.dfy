/** The strict bot of bot.py: it keeps exactly the candidates that are
    consistent with every score it has been told, best weight first. */
module StrictBot {
  import opened Scoring
  import opened Candidates
  import opened WeightSort

  /** What update does to the list: keep the consistent entries, reward
      them, and re-sort heaviest first. */
  function StrictUpdate(pool: seq<Entry>, guess: seq<int>, score: Score): seq<Entry>
    requires Fits(pool, guess)
  {
    SortByWeight(Survivors(pool, guess, score, Never(|pool|)))
  }

  /** The candidate at index i weighs at least as much as every other. */
  predicate Heaviest(pool: seq<Entry>, i: int) {
    0 <= i < |pool| && forall j :: 0 <= j < |pool| ==> pool[j].weight <= pool[i].weight
  }

  class Bot {
    /** The (candidate, weight) list, heaviest first. */
    var candis: seq<Entry>
    /** The number length the bot was created for. */
    ghost const L: nat

    ghost predicate Valid()
      reads this
    {
      WellFormed(candis, L) && SortedDesc(candis)
    }

    /** Bot(L): every number of L distinct digits, with the sentinel weight. */
    constructor (L: nat)
      ensures Valid() && this.L == L
      ensures candis == InitCandis(L)
    {
      this.L := L;
      candis := InitCandis(L);
      InitCandisSpec(L);
      new;
      assert forall i :: 0 <= i < |candis| ==> candis[i] in candis;
    }

    /** __len__ */
    function Len(): (n: nat)
      reads this
      ensures n == |Cands(candis)|
    {
      |candis|
    }

    /** guess: the head of the list, which is a heaviest candidate; an
        empty list raises IndexError. */
    method Guess() returns (r: Result<seq<int>>)
      requires Valid()
      ensures candis == [] <==> r == Failure(IndexError)
      ensures candis != [] ==> r == Success(candis[0].candi) && Heaviest(candis, 0)
    {
      if |candis| == 0 {
        r := Failure(IndexError);
      } else {
        r := Success(candis[0].candi);
      }
    }

    /** update: the filtering loop building tmp, then the sort. */
    method Update(guess: seq<int>, score: Score)
      requires Valid() && |guess| <= L
      modifies this
      ensures Valid()
      ensures candis == StrictUpdate(old(candis), guess, score)
    {
      var pool := candis;
      SurvivorsWellFormed(pool, guess, score, Never(|pool|), L);
      var tmp: seq<Entry> := [];
      var i := 0;
      while i < |pool|
        invariant 0 <= i <= |pool|
        modifies {}
        invariant Fits(pool[..i], guess)
        invariant tmp == Survivors(pool[..i], guess, score, Never(i))
      {
        var candi, s := pool[i].candi, pool[i].weight;
        FitsAt(pool, guess, i);
        var got := GetScore(candi, guess);
        if got == score {
          if Aligned(candi, guess) {
            if s == INIT_SCORE {
              s := 0;
            }
            s := s + AddScore(score);
          }
          SurvivorsStepKept(pool, guess, score, Never(i + 1), i);
          tmp := tmp + [Entry(candi, s)];
        } else {
          SurvivorsStepMissed(pool, guess, score, Never(i + 1), i);
        }
        assert Never(i + 1)[..i] == Never(i);
        i := i + 1;
      }
      assert pool[..i] == pool;
      candis := SortByWeight(tmp);
      StrictUpdateWellFormed(pool, guess, score, L);
      StrictUpdateOrdered(pool, guess, score);
    }
  }

  // ---------------------------------------------------------------------
  // Properties of one update
  // ---------------------------------------------------------------------

  lemma StrictUpdateElems(pool: seq<Entry>, guess: seq<int>, score: Score, e: Entry)
    requires Fits(pool, guess)
    ensures e in StrictUpdate(pool, guess, score) <==> e in Survivors(pool, guess, score, Never(|pool|))
  {
    SortByWeightElems(Survivors(pool, guess, score, Never(|pool|)), e);
  }

  /** After update every remaining candidate explains the score. */
  lemma StrictUpdateSound(pool: seq<Entry>, guess: seq<int>, score: Score)
    requires Fits(pool, guess)
    ensures forall e :: e in StrictUpdate(pool, guess, score) ==>
              |guess| <= |e.candi| && Consistent(e.candi, guess, score)
  {
    SurvivorsExact(pool, guess, score, Never(|pool|));
    forall e | e in StrictUpdate(pool, guess, score)
      ensures |guess| <= |e.candi| && Consistent(e.candi, guess, score)
    {
      StrictUpdateElems(pool, guess, score, e);
    }
  }

  /** No consistent candidate is dropped: each stays, with its new weight. */
  lemma StrictUpdateComplete(pool: seq<Entry>, guess: seq<int>, score: Score)
    requires Fits(pool, guess)
    ensures forall i :: 0 <= i < |pool| && Consistent(pool[i].candi, guess, score) ==>
              Rewarded(pool[i], guess, score) in StrictUpdate(pool, guess, score)
  {
    SurvivorsExact(pool, guess, score, Never(|pool|));
    forall i | 0 <= i < |pool| && Consistent(pool[i].candi, guess, score)
      ensures Rewarded(pool[i], guess, score) in StrictUpdate(pool, guess, score)
    {
      StrictUpdateElems(pool, guess, score, Rewarded(pool[i], guess, score));
    }
  }

  /** The new list holds exactly the consistent candidates of the old one,
      as a multiset; so its length never increases. */
  lemma StrictUpdateExact(pool: seq<Entry>, guess: seq<int>, score: Score)
    requires Fits(pool, guess)
    ensures multiset(Cands(StrictUpdate(pool, guess, score)))
         == multiset(ConsistentOnes(Cands(pool), guess, score))
    ensures |StrictUpdate(pool, guess, score)| <= |pool|
  {
    var kept := Survivors(pool, guess, score, Never(|pool|));
    SortByWeightCands(kept);
    StrictSurvivorsAreConsistentOnes(pool, guess, score);
    SurvivorsSubMultiset(pool, guess, score, Never(|pool|));
    SortByWeightPermutes(kept);
    assert |SortByWeight(kept)| == |multiset(SortByWeight(kept))|;
  }

  /** The new list is heaviest first, and equal weights keep the order they
      had in the old list. */
  lemma StrictUpdateOrdered(pool: seq<Entry>, guess: seq<int>, score: Score)
    requires Fits(pool, guess)
    ensures SortedDesc(StrictUpdate(pool, guess, score))
    ensures forall w :: WithWeight(StrictUpdate(pool, guess, score), w)
                     == WithWeight(Survivors(pool, guess, score, Never(|pool|)), w)
  {
    var kept := Survivors(pool, guess, score, Never(|pool|));
    SortByWeightSorted(kept);
    forall w ensures WithWeight(SortByWeight(kept), w) == WithWeight(kept, w) {
      SortByWeightStable(kept, w);
    }
  }

  /** The list invariant survives an update. */
  lemma StrictUpdateWellFormed(pool: seq<Entry>, guess: seq<int>, score: Score, L: nat)
    requires WellFormed(pool, L) && |guess| <= L
    ensures Fits(pool, guess)
    ensures WellFormed(StrictUpdate(pool, guess, score), L)
  {
    SurvivorsWellFormed(pool, guess, score, Never(|pool|), L);
    forall e | e in StrictUpdate(pool, guess, score)
      ensures IsArrangement(e.candi, L) && e.weight >= 0
    {
      StrictUpdateElems(pool, guess, score, e);
    }
  }

  /** If the hidden target is in the list and the score is its honest score
      for the guess, the target is still in the list after update. */
  lemma TargetSurvives(pool: seq<Entry>, target: seq<int>, guess: seq<int>)
    requires Fits(pool, guess) && target in Cands(pool)
    ensures target in Cands(StrictUpdate(pool, guess, ScoreOf(target, guess)))
  {
    var i :| 0 <= i < |pool| && pool[i].candi == target;
    assert pool[i] in pool;
    var score := ScoreOf(target, guess);
    StrictUpdateComplete(pool, guess, score);
    var e := Rewarded(pool[i], guess, score);
    var after := StrictUpdate(pool, guess, score);
    var k :| 0 <= k < |after| && after[k] == e;
    assert Cands(after)[k] == target;
  }

  /** A home run leaves nothing but the guess itself. */
  lemma HomeRunLeavesGuess(pool: seq<Entry>, guess: seq<int>, L: nat)
    requires WellFormed(pool, L) && |guess| == L
    ensures forall e :: e in StrictUpdate(pool, guess, Score(L, 0)) ==> e.candi == guess
  {
    StrictUpdateWellFormed(pool, guess, Score(L, 0), L);
    StrictUpdateSound(pool, guess, Score(L, 0));
    forall e | e in StrictUpdate(pool, guess, Score(L, 0)) ensures e.candi == guess {
      HomeRunIsTarget(e.candi, guess);
    }
  }

  // ---------------------------------------------------------------------
  // A whole game
  // ---------------------------------------------------------------------

  /** The list after the bot is told the honest score of each guess in turn. */
  function Play(pool: seq<Entry>, target: seq<int>, guesses: seq<seq<int>>, L: nat): seq<Entry>
    requires WellFormed(pool, L) && |target| == L
    requires forall g :: g in guesses ==> |g| == L
    decreases |guesses|
  {
    if guesses == [] then pool
    else
      StrictUpdateWellFormed(pool, guesses[0], ScoreOf(target, guesses[0]), L);
      Play(StrictUpdate(pool, guesses[0], ScoreOf(target, guesses[0])), target, guesses[1..], L)
  }

  /** Honest feedback never makes the strict bot lose the target, so its
      list never runs empty and guess never raises IndexError. */
  lemma {:induction false} TargetNeverLost(pool: seq<Entry>, target: seq<int>, guesses: seq<seq<int>>, L: nat)
    requires WellFormed(pool, L) && |target| == L && target in Cands(pool)
    requires forall g :: g in guesses ==> |g| == L
    ensures target in Cands(Play(pool, target, guesses, L))
    ensures |Play(pool, target, guesses, L)| > 0
    decreases |guesses|
  {
    if guesses != [] {
      var g := guesses[0];
      StrictUpdateWellFormed(pool, g, ScoreOf(target, g), L);
      TargetSurvives(pool, target, g);
      TargetNeverLost(StrictUpdate(pool, g, ScoreOf(target, g)), target, guesses[1..], L);
    }
  }
}
