/** Scoring of one guess in number baseball (utils.py): strikes are
    digits of the guess at the same index in the target, balls are digits
    of the guess that occur in the target at another index. */
module Scoring {

  datatype Score = Score(strikes: nat, balls: nat)

  predicate Distinct(s: seq<int>) {
    forall i, j :: 0 <= i < j < |s| ==> s[i] != s[j]
  }

  predicate AllDigits(s: seq<int>) {
    forall i :: 0 <= i < |s| ==> 0 <= s[i] <= 9
  }

  /** A well-formed number of the game: L distinct decimal digits. */
  predicate IsArrangement(s: seq<int>, L: nat) {
    |s| == L && Distinct(s) && AllDigits(s)
  }

  function Elems(s: seq<int>): set<int> {
    set x | x in s
  }

  // ---------------------------------------------------------------------
  // get_score: the specification function and the loop that computes it
  // ---------------------------------------------------------------------

  /** The counters after the loop of get_score has seen the first n
      digits of the guess. The target must be at least as long as the
      guess, otherwise target[idx] raises IndexError. */
  function ScoreUpTo(target: seq<int>, guess: seq<int>, n: nat): Score
    requires n <= |guess| <= |target|
  {
    if n == 0 then Score(0, 0)
    else
      var p := ScoreUpTo(target, guess, n - 1);
      if target[n - 1] == guess[n - 1] then Score(p.strikes + 1, p.balls)
      else if guess[n - 1] in target then Score(p.strikes, p.balls + 1)
      else p
  }

  function ScoreOf(target: seq<int>, guess: seq<int>): Score
    requires |guess| <= |target|
  {
    ScoreUpTo(target, guess, |guess|)
  }

  /** Indices of the first n guess digits that are strikes. */
  function StrikeIndices(target: seq<int>, guess: seq<int>, n: nat): set<int>
    requires n <= |guess| <= |target|
  {
    set i | 0 <= i < n && target[i] == guess[i]
  }

  /** Indices of the first n guess digits that are balls. */
  function BallIndices(target: seq<int>, guess: seq<int>, n: nat): set<int>
    requires n <= |guess| <= |target|
  {
    set i | 0 <= i < n && target[i] != guess[i] && guess[i] in target
  }

  /** get_score: one pass over the guess, updating the two counters. */
  method GetScore(target: seq<int>, guess: seq<int>) returns (score: Score)
    requires |guess| <= |target|
    ensures score == ScoreOf(target, guess)
  {
    var s, b := 0, 0;
    for idx := 0 to |guess|
      invariant Score(s, b) == ScoreUpTo(target, guess, idx)
    {
      if target[idx] == guess[idx] {
        s := s + 1;
      } else if guess[idx] in target {
        b := b + 1;
      }
    }
    score := Score(s, b);
  }

  // ---------------------------------------------------------------------
  // Properties of the score
  // ---------------------------------------------------------------------

  /** Strikes are exactly the indices where the two numbers agree. */
  lemma {:induction false} StrikesCountIndices(target: seq<int>, guess: seq<int>, n: nat)
    requires n <= |guess| <= |target|
    ensures ScoreUpTo(target, guess, n).strikes == |StrikeIndices(target, guess, n)|
  {
    if n > 0 {
      StrikesCountIndices(target, guess, n - 1);
      var sp := StrikeIndices(target, guess, n - 1);
      assert n - 1 !in sp;
      if target[n - 1] == guess[n - 1] {
        assert StrikeIndices(target, guess, n) == sp + {n - 1};
      } else {
        assert StrikeIndices(target, guess, n) == sp;
      }
    }
  }

  /** Balls are exactly the indices where the digit differs but occurs in
      the target. */
  lemma {:induction false} BallsCountIndices(target: seq<int>, guess: seq<int>, n: nat)
    requires n <= |guess| <= |target|
    ensures ScoreUpTo(target, guess, n).balls == |BallIndices(target, guess, n)|
  {
    if n > 0 {
      BallsCountIndices(target, guess, n - 1);
      var bp := BallIndices(target, guess, n - 1);
      assert n - 1 !in bp;
      if target[n - 1] != guess[n - 1] && guess[n - 1] in target {
        assert BallIndices(target, guess, n) == bp + {n - 1};
      } else {
        assert BallIndices(target, guess, n) == bp;
      }
    }
  }

  /** Each index adds to at most one counter. */
  lemma {:induction false} ScoreBounded(target: seq<int>, guess: seq<int>, n: nat)
    requires n <= |guess| <= |target|
    ensures ScoreUpTo(target, guess, n).strikes + ScoreUpTo(target, guess, n).balls <= n
  {
    if n > 0 {
      ScoreBounded(target, guess, n - 1);
    }
  }

  /** Scoring a number against itself is a home run with no balls. */
  lemma {:induction false} SelfScoreUpTo(t: seq<int>, n: nat)
    requires n <= |t|
    ensures ScoreUpTo(t, t, n) == Score(n, 0)
  {
    if n > 0 {
      SelfScoreUpTo(t, n - 1);
    }
  }

  lemma SelfScore(t: seq<int>)
    ensures ScoreOf(t, t) == Score(|t|, 0)
  {
    SelfScoreUpTo(t, |t|);
  }

  /** Strikes on every index mean the two numbers are equal: the only
      candidate that explains a home run is the guess itself. */
  lemma {:induction false} AllStrikesUpTo(target: seq<int>, guess: seq<int>, n: nat)
    requires n <= |guess| <= |target|
    requires ScoreUpTo(target, guess, n).strikes == n
    ensures forall i :: 0 <= i < n ==> target[i] == guess[i]
  {
    if n > 0 {
      ScoreBounded(target, guess, n - 1);
      AllStrikesUpTo(target, guess, n - 1);
    }
  }

  lemma HomeRunIsTarget(target: seq<int>, guess: seq<int>)
    requires |guess| == |target|
    ensures ScoreOf(target, guess).strikes == |guess| <==> target == guess
  {
    if ScoreOf(target, guess).strikes == |guess| {
      AllStrikesUpTo(target, guess, |guess|);
    }
    if target == guess {
      SelfScore(target);
    }
  }

  /** The strike count is positive exactly when the two numbers agree at
      some index of the guess. */
  lemma {:induction false} StrikesIffAlignedUpTo(target: seq<int>, guess: seq<int>, n: nat)
    requires n <= |guess| <= |target|
    ensures ScoreUpTo(target, guess, n).strikes > 0
        <==> exists i :: 0 <= i < n && target[i] == guess[i]
  {
    if n > 0 {
      StrikesIffAlignedUpTo(target, guess, n - 1);
    }
  }

  /** Strikes plus balls count the guess digits found anywhere in the target. */
  lemma {:induction false} HitsAreShared(target: seq<int>, guess: seq<int>, n: nat)
    requires n <= |guess| <= |target|
    requires Distinct(guess)
    ensures ScoreUpTo(target, guess, n).strikes + ScoreUpTo(target, guess, n).balls
         == |Elems(guess[..n]) * Elems(target)|
  {
    if n > 0 {
      HitsAreShared(target, guess, n - 1);
      var x := guess[n - 1];
      assert guess[..n] == guess[..n - 1] + [x];
      assert Elems(guess[..n]) == Elems(guess[..n - 1]) + {x};
      assert x !in Elems(guess[..n - 1]);
      if x in target {
        assert Elems(guess[..n]) * Elems(target)
            == Elems(guess[..n - 1]) * Elems(target) + {x};
      } else {
        assert Elems(guess[..n]) * Elems(target)
            == Elems(guess[..n - 1]) * Elems(target);
      }
    } else {
      assert Elems(guess[..0]) == {};
    }
  }

  /** For two numbers of the same length made of distinct digits, the score
      does not depend on which one is the target. */
  lemma ScoreSymmetric(a: seq<int>, b: seq<int>)
    requires |a| == |b| && Distinct(a) && Distinct(b)
    ensures ScoreOf(a, b) == ScoreOf(b, a)
  {
    var n := |a|;
    StrikesCountIndices(a, b, n);
    StrikesCountIndices(b, a, n);
    assert StrikeIndices(a, b, n) == StrikeIndices(b, a, n);
    HitsAreShared(a, b, n);
    HitsAreShared(b, a, n);
    assert a[..n] == a && b[..n] == b;
    assert Elems(b) * Elems(a) == Elems(a) * Elems(b);
  }

  // ---------------------------------------------------------------------
  // format_score
  // ---------------------------------------------------------------------

  function DigitChar(d: nat): char
    requires d < 10
  {
    "0123456789"[d]
  }

  /** The decimal rendering of f"{n}". */
  function NatToString(n: nat): (r: string)
    ensures |r| > 0
    ensures forall i :: 0 <= i < |r| ==> '0' <= r[i] <= '9'
    ensures |r| > 1 ==> r[0] != '0'
    ensures DecimalValue(r) == n
  {
    if n < 10 then [DigitChar(n)]
    else
      var r := NatToString(n / 10) + [DigitChar(n % 10)];
      assert r[..|r| - 1] == NatToString(n / 10);
      r
  }

  /** The number a string of decimal digits denotes. */
  function DecimalValue(s: string): int {
    if s == [] then 0
    else DecimalValue(s[..|s| - 1]) * 10 + (s[|s| - 1] as int - '0' as int)
  }

  /** format_score: the message shown for a score and whether the game is over. */
  function FormatScore(score: Score, L: int): (r: (string, bool))
    ensures r.1 <==> score.strikes + score.balls != 0 && score.strikes == L
    ensures r.0 == "OUT" <==> score.strikes + score.balls == 0
    ensures r.0 == "Home run!" <==> r.1
  {
    if score.strikes + score.balls == 0 then ("OUT", false)
    else if score.strikes == L then ("Home run!", true)
    else
      var msg := NatToString(score.strikes) + "S " + NatToString(score.balls) + "B";
      assert msg[|msg| - 1] == 'B';
      (msg, false)
  }

  /** Otherwise the message reads back as the two counts: the strike
      digits, "S ", the ball digits, "B". */
  lemma ScoreMessageReadsBack(score: Score, L: int)
    requires score.strikes + score.balls != 0 && score.strikes != L
    ensures FormatScore(score, L).0 == NatToString(score.strikes) + "S " + NatToString(score.balls) + "B"
    ensures var m := FormatScore(score, L).0;
            var k := |NatToString(score.strikes)|;
            && !FormatScore(score, L).1
            && k + 3 <= |m| && m[k..k + 2] == "S " && m[|m| - 1] == 'B'
            && DecimalValue(m[..k]) == score.strikes
            && DecimalValue(m[k + 2..|m| - 1]) == score.balls
  {
    var sd, bd := NatToString(score.strikes), NatToString(score.balls);
    var m := sd + "S " + bd + "B";
    assert m[..|sd|] == sd;
    assert m[|sd| + 2..|m| - 1] == bd;
  }

  /** Every number scored against itself ends the game, except the empty
      number, whose score (0, 0) reads as OUT. */
  lemma SelfScoreEndsGame(t: seq<int>)
    ensures FormatScore(ScoreOf(t, t), |t|) == if t == [] then ("OUT", false) else ("Home run!", true)
  {
    SelfScore(t);
  }
}
