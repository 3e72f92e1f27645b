/** The leveled bot of number_baseball/bot.py: the strict bot's engine
    with two deliberate mistakes, both decided by random.random() < 1 -
    level/10. The random draws are parameters here: draws[i] is the draw
    update makes for the i-th entry of the list (it only looks at it when
    that entry is inconsistent), and Guess takes the draw of its mistake
    test and the index random.choice picks. */
module LeveledBot {
  import opened Scoring
  import opened Candidates
  import opened WeightSort
  import opened StrictBot

  /** random.random() < 1 - level / 10, on exact reals. */
  predicate Deviates(level: int, draw: real) {
    draw < 1.0 - (level as real) / 10.0
  }

  predicate ValidDraws(draws: seq<real>) {
    forall i :: 0 <= i < |draws| ==> 0.0 <= draws[i] < 1.0
  }

  /** Which inconsistent entries update keeps, one draw per entry. */
  function KeepFlags(level: int, draws: seq<real>): (keep: seq<bool>)
    ensures |keep| == |draws|
    ensures forall i :: 0 <= i < |draws| ==> keep[i] == Deviates(level, draws[i])
  {
    seq(|draws|, i requires 0 <= i < |draws| => Deviates(level, draws[i]))
  }

  /** The flags update acts on: with no level assigned it never reaches a
      draw without raising, so no inconsistent entry is kept. */
  function KeepFlagsFor(level: Option<int>, draws: seq<real>): (keep: seq<bool>)
    ensures |keep| == |draws|
  {
    if level.Some? then KeepFlags(level.value, draws) else Never(|draws|)
  }

  /** What a successful update does to the list. */
  function LeveledUpdate(pool: seq<Entry>, guess: seq<int>, score: Score, keep: seq<bool>): seq<Entry>
    requires |keep| == |pool| && Fits(pool, guess)
  {
    SortByWeight(Survivors(pool, guess, score, keep))
  }

  predicate HasInconsistent(pool: seq<Entry>, guess: seq<int>, score: Score)
    requires Fits(pool, guess)
  {
    exists i :: 0 <= i < |pool| && !Consistent(pool[i].candi, guess, score)
  }

  /** One more consistent entry keeps a prefix free of inconsistent ones. */
  lemma ConsistentPrefixStep(pool: seq<Entry>, guess: seq<int>, score: Score, i: nat)
    requires i < |pool| && Fits(pool, guess)
    requires Fits(pool[..i], guess) && !HasInconsistent(pool[..i], guess, score)
    requires |guess| <= |pool[i].candi| && Consistent(pool[i].candi, guess, score)
    ensures Fits(pool[..i + 1], guess) && !HasInconsistent(pool[..i + 1], guess, score)
  {
    var next := pool[..i + 1];
    forall j | 0 <= j < |next|
      ensures |guess| <= |next[j].candi| && Consistent(next[j].candi, guess, score)
    {
      if j < i {
        assert pool[..i][j] == next[j];
      }
    }
  }

  class Bot {
    /** The (candidate, weight) list, heaviest first. */
    var candis: seq<Entry>
    /** self.level: None while the attribute has never been assigned. */
    var level: Option<int>
    /** The number length the bot was created for. */
    ghost const L: nat

    ghost predicate Valid()
      reads this
    {
      && WellFormed(candis, L) && SortedDesc(candis)
      && (level.Some? ==> 1 <= level.value <= 10)
    }

    /** Bot(L, level): the level is asked for (set_level, which only returns
        a number from 1 to 10: chosen) only when none is passed; a level that
        is passed is never stored. */
    constructor (L: nat, level: Option<int>, chosen: int)
      requires 1 <= chosen <= 10
      ensures Valid() && this.L == L
      ensures candis == InitCandis(L)
      ensures this.level == if level.None? then Some(chosen) else None
    {
      this.L := L;
      candis := InitCandis(L);
      this.level := if level.None? then Some(chosen) else None;
      InitCandisSpec(L);
      new;
      assert forall i :: 0 <= i < |candis| ==> candis[i] in candis;
    }

    /** __len__ */
    function Len(): (n: nat)
      reads this
      ensures n == |Cands(candis)|
    {
      |candis|
    }

    /** guess: the head of the list, or, when the mistake draw falls under
        1 - level/10, the entry random.choice picks. Reading candis[0] comes
        first (IndexError on an empty list), then self.level (AttributeError
        when it was never assigned). */
    method Guess(draw: real, pick: nat) returns (r: Result<seq<int>>)
      requires Valid()
      requires 0.0 <= draw < 1.0
      requires candis != [] ==> pick < |candis|
      ensures candis == [] ==> r == Failure(IndexError)
      ensures candis != [] && level.None? ==> r == Failure(AttributeError)
      ensures candis != [] && level.Some? ==>
                r == Success(if Deviates(level.value, draw) then candis[pick].candi else candis[0].candi)
      ensures r.Success? ==> r.value in Cands(candis)
      ensures level == Some(10) && candis != [] ==> r == Success(candis[0].candi)
    {
      if |candis| == 0 {
        return Failure(IndexError);
      }
      var candi := candis[0].candi;
      if level.None? {
        return Failure(AttributeError);
      }
      if Deviates(level.value, draw) {
        candi := candis[pick].candi;
      }
      r := Success(candi);
    }

    /** update: the filtering loop (Filter) with its keep-or-drop draw for
        each inconsistent entry, then the sort stored back into the list.
        With no level assigned, the first inconsistent entry raises
        AttributeError and the list is left as it was. */
    method Update(guess: seq<int>, score: Score, draws: seq<real>) returns (r: Outcome)
      requires Valid() && |guess| <= L
      requires |draws| == |candis| && ValidDraws(draws)
      modifies this
      ensures Valid() && level == old(level)
      ensures Fits(old(candis), guess)
      ensures r.Fail? <==> level.None? && HasInconsistent(old(candis), guess, score)
      ensures r.Fail? ==> r.error == AttributeError && candis == old(candis)
      ensures r.Pass? ==> candis == LeveledUpdate(old(candis), guess, score, KeepFlagsFor(level, draws))
    {
      var pool := candis;
      ghost var keep := KeepFlagsFor(level, draws);
      SurvivorsWellFormed(pool, guess, score, keep, L);
      var tmp := Filter(pool, guess, score, level, draws);
      if tmp.Failure? {
        return Fail(tmp.error);
      }
      candis := SortByWeight(tmp.value);
      r := Pass;
      LeveledUpdateWellFormed(pool, guess, score, keep, L);
      SortByWeightSorted(tmp.value);
    }
  }

  /** The loop of update that builds tmp: each consistent entry is
      rewarded and appended; for each inconsistent one self.level is read
      (AttributeError when it was never assigned) and the entry is appended
      unchanged when its draw falls under 1 - level/10. */
  method Filter(pool: seq<Entry>, guess: seq<int>, score: Score, lvl: Option<int>, draws: seq<real>)
    returns (r: Result<seq<Entry>>)
    requires Fits(pool, guess) && |draws| == |pool|
    ensures r.Failure? <==> lvl.None? && HasInconsistent(pool, guess, score)
    ensures r.Failure? ==> r.error == AttributeError
    ensures r.Success? ==> r.value == Survivors(pool, guess, score, KeepFlagsFor(lvl, draws))
  {
    ghost var keep := KeepFlagsFor(lvl, draws);
    var tmp: seq<Entry> := [];
    var i := 0;
    while i < |pool|
      invariant 0 <= i <= |pool|
      invariant Fits(pool[..i], guess)
      invariant tmp == Survivors(pool[..i], guess, score, keep[..i])
      invariant lvl.None? ==> !HasInconsistent(pool[..i], guess, score)
    {
      var candi, s := pool[i].candi, pool[i].weight;
      FitsAt(pool, guess, i);
      var got := GetScore(candi, guess);
      if got == score {
        if Aligned(candi, guess) {
          if s == INIT_SCORE {
            s := 0;
          }
          s := s + AddScore(score);
        }
        SurvivorsStepKept(pool, guess, score, keep[..i + 1], i);
        tmp := tmp + [Entry(candi, s)];
        if lvl.None? {
          ConsistentPrefixStep(pool, guess, score, i);
        }
      } else {
        if lvl.None? {
          return Failure(AttributeError);
        }
        SurvivorsStepMissed(pool, guess, score, keep[..i + 1], i);
        assert keep[..i + 1][i] == Deviates(lvl.value, draws[i]);
        if Deviates(lvl.value, draws[i]) {
          tmp := tmp + [Entry(candi, s)];
        }
      }
      assert keep[..i + 1][..i] == keep[..i];
      i := i + 1;
    }
    assert pool[..i] == pool && keep[..i] == keep;
    r := Success(tmp);
  }

  // ---------------------------------------------------------------------
  // Properties of one update
  // ---------------------------------------------------------------------

  lemma LeveledUpdateElems(pool: seq<Entry>, guess: seq<int>, score: Score, keep: seq<bool>, e: Entry)
    requires |keep| == |pool| && Fits(pool, guess)
    ensures e in LeveledUpdate(pool, guess, score, keep) <==> e in Survivors(pool, guess, score, keep)
  {
    SortByWeightElems(Survivors(pool, guess, score, keep), e);
  }

  /** The list invariant survives an update. */
  lemma LeveledUpdateWellFormed(pool: seq<Entry>, guess: seq<int>, score: Score, keep: seq<bool>, L: nat)
    requires |keep| == |pool| && WellFormed(pool, L) && |guess| <= L
    ensures Fits(pool, guess)
    ensures WellFormed(LeveledUpdate(pool, guess, score, keep), L)
  {
    SurvivorsWellFormed(pool, guess, score, keep, L);
    forall e | e in LeveledUpdate(pool, guess, score, keep)
      ensures IsArrangement(e.candi, L) && e.weight >= 0
    {
      LeveledUpdateElems(pool, guess, score, keep, e);
    }
  }

  /** Every consistent entry is kept and rewarded as in the strict bot; an
      inconsistent entry is kept, with its weight unchanged, exactly when its
      flag says so; nothing else is in the new list. */
  lemma LeveledUpdateExact(pool: seq<Entry>, guess: seq<int>, score: Score, keep: seq<bool>)
    requires |keep| == |pool| && Fits(pool, guess)
    ensures forall i :: 0 <= i < |pool| && Consistent(pool[i].candi, guess, score) ==>
              Rewarded(pool[i], guess, score) in LeveledUpdate(pool, guess, score, keep)
    ensures forall i :: 0 <= i < |pool| && !Consistent(pool[i].candi, guess, score) && keep[i] ==>
              pool[i] in LeveledUpdate(pool, guess, score, keep)
    ensures forall e :: e in LeveledUpdate(pool, guess, score, keep) ==>
      exists i :: 0 <= i < |pool| &&
        ((Consistent(pool[i].candi, guess, score) && e == Rewarded(pool[i], guess, score))
        || (!Consistent(pool[i].candi, guess, score) && keep[i] && e == pool[i]))
  {
    SurvivorsExact(pool, guess, score, keep);
    forall e ensures e in LeveledUpdate(pool, guess, score, keep) <==> e in Survivors(pool, guess, score, keep) {
      LeveledUpdateElems(pool, guess, score, keep, e);
    }
  }

  /** update never creates candidates: the new list is a sub-multiset of the
      old one (by candidate), so its length never increases. */
  lemma LeveledUpdateShrinks(pool: seq<Entry>, guess: seq<int>, score: Score, keep: seq<bool>)
    requires |keep| == |pool| && Fits(pool, guess)
    ensures multiset(Cands(LeveledUpdate(pool, guess, score, keep))) <= multiset(Cands(pool))
    ensures |LeveledUpdate(pool, guess, score, keep)| <= |pool|
  {
    var kept := Survivors(pool, guess, score, keep);
    SurvivorsSubMultiset(pool, guess, score, keep);
    SortByWeightCands(kept);
    SortByWeightPermutes(kept);
    assert |SortByWeight(kept)| == |multiset(SortByWeight(kept))|;
  }

  /** The new list is heaviest first and keeps the order of equal weights. */
  lemma LeveledUpdateOrdered(pool: seq<Entry>, guess: seq<int>, score: Score, keep: seq<bool>)
    requires |keep| == |pool| && Fits(pool, guess)
    ensures SortedDesc(LeveledUpdate(pool, guess, score, keep))
    ensures forall w :: WithWeight(LeveledUpdate(pool, guess, score, keep), w)
                     == WithWeight(Survivors(pool, guess, score, keep), w)
  {
    var kept := Survivors(pool, guess, score, keep);
    SortByWeightSorted(kept);
    forall w ensures WithWeight(SortByWeight(kept), w) == WithWeight(kept, w) {
      SortByWeightStable(kept, w);
    }
  }

  /** The leveled bot keeps everything the strict bot keeps. */
  lemma LeveledKeepsStrict(pool: seq<Entry>, guess: seq<int>, score: Score, keep: seq<bool>)
    requires |keep| == |pool| && Fits(pool, guess)
    ensures multiset(StrictUpdate(pool, guess, score)) <= multiset(LeveledUpdate(pool, guess, score, keep))
  {
    StrictWithinLeveled(pool, guess, score, keep);
    SortByWeightPermutes(Survivors(pool, guess, score, Never(|pool|)));
    SortByWeightPermutes(Survivors(pool, guess, score, keep));
  }

  /** Honest feedback never makes the leveled bot lose the target either. */
  lemma LeveledTargetSurvives(pool: seq<Entry>, target: seq<int>, guess: seq<int>, keep: seq<bool>)
    requires |keep| == |pool| && Fits(pool, guess) && target in Cands(pool)
    ensures target in Cands(LeveledUpdate(pool, guess, ScoreOf(target, guess), keep))
  {
    var i :| 0 <= i < |pool| && pool[i].candi == target;
    assert pool[i] in pool;
    var score := ScoreOf(target, guess);
    LeveledUpdateExact(pool, guess, score, keep);
    var after := LeveledUpdate(pool, guess, score, keep);
    var k :| 0 <= k < |after| && after[k] == Rewarded(pool[i], guess, score);
    assert Cands(after)[k] == target;
  }

  /** At level 10 the draw never falls under 1 - 10/10 = 0: update keeps no
      inconsistent entry and behaves exactly like the strict bot. */
  lemma LevelTenIsStrict(pool: seq<Entry>, guess: seq<int>, score: Score, draws: seq<real>)
    requires |draws| == |pool| && ValidDraws(draws) && Fits(pool, guess)
    ensures LeveledUpdate(pool, guess, score, KeepFlags(10, draws)) == StrictUpdate(pool, guess, score)
  {
    assert KeepFlags(10, draws) == Never(|pool|);
  }

  /** With no inconsistent entry in the list the flags are never looked at. */
  lemma {:induction false} FlagsUnused(pool: seq<Entry>, guess: seq<int>, score: Score, keep: seq<bool>)
    requires |keep| == |pool| && Fits(pool, guess) && !HasInconsistent(pool, guess, score)
    ensures Survivors(pool, guess, score, keep) == Survivors(pool, guess, score, Never(|pool|))
    decreases |pool|
  {
    if pool != [] {
      var n := |pool| - 1;
      var front := pool[..n];
      assert Fits(front, guess) by {
        forall e | e in front ensures |guess| <= |e.candi| {
          assert e in pool;
        }
      }
      assert !HasInconsistent(front, guess, score) by {
        forall j | 0 <= j < |front| ensures Consistent(front[j].candi, guess, score) {
          assert front[j] == pool[j];
        }
      }
      assert Never(|pool|)[..n] == Never(n);
      FlagsUnused(front, guess, score, keep[..n]);
      assert Consistent(pool[n].candi, guess, score);
    }
  }

  /** When update succeeds without an assigned level (every entry is
      consistent), the draws play no part: the result is the strict update,
      whatever flags are passed. */
  lemma UnsetLevelUpdate(pool: seq<Entry>, guess: seq<int>, score: Score, keep: seq<bool>)
    requires |keep| == |pool| && Fits(pool, guess) && !HasInconsistent(pool, guess, score)
    ensures LeveledUpdate(pool, guess, score, keep) == StrictUpdate(pool, guess, score)
  {
    FlagsUnused(pool, guess, score, keep);
  }
}
