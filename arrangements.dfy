/** The candidate space of the bots: itertools.permutations(range(10), L),
    every ordered arrangement of L distinct digits, in lexicographic order. */
module Arrangements {
  import opened Scoring

  /** range(10) */
  function Range10(): (r: seq<int>)
    ensures |r| == 10 && forall i :: 0 <= i < 10 ==> r[i] == i
  {
    seq(10, i => i)
  }

  /** 10!/(10-L)! and its generalisation n!/(n-k)!, which is 0 when k > n. */
  function FallingFactorial(n: nat, k: nat): nat {
    if k == 0 then 1
    else if n == 0 then 0
    else n * FallingFactorial(n - 1, k - 1)
  }

  /** The pool with every occurrence of x removed, order kept. */
  function Without(pool: seq<int>, x: int): seq<int> {
    if pool == [] then []
    else (if pool[0] == x then [] else [pool[0]]) + Without(pool[1..], x)
  }

  /** Every element of ps with x put in front. */
  function Prefixed(x: int, ps: seq<seq<int>>): (r: seq<seq<int>>)
    ensures |r| == |ps| && forall i :: 0 <= i < |ps| ==> r[i] == [x] + ps[i]
  {
    seq(|ps|, i requires 0 <= i < |ps| => [x] + ps[i])
  }

  /** The ordered arrangements of k elements of the pool, in the order
      itertools.permutations yields them: by first element in pool
      order, then by the arrangements of the remaining pool. */
  function Perms(pool: seq<int>, k: nat): seq<seq<int>>
    decreases k, |pool| + 1
  {
    if k == 0 then [[]] else Branches(pool, pool, k)
  }

  /** The arrangements of Perms(pool, k) whose first element is one of the choices. */
  function Branches(choices: seq<int>, pool: seq<int>, k: nat): seq<seq<int>>
    requires k > 0
    decreases k, |choices|
  {
    if choices == [] then []
    else
      var x := choices[0];
      Prefixed(x, Perms(Without(pool, x), k - 1)) + Branches(choices[1..], pool, k)
  }

  predicate Increasing(s: seq<int>) {
    forall i, j :: 0 <= i < j < |s| ==> s[i] < s[j]
  }

  /** Lexicographic order on sequences. */
  predicate LexLess(a: seq<int>, b: seq<int>) {
    |a| > 0 && |b| > 0 && (a[0] < b[0] || (a[0] == b[0] && LexLess(a[1..], b[1..])))
  }

  predicate LexSorted(ps: seq<seq<int>>) {
    forall i, j :: 0 <= i < j < |ps| ==> LexLess(ps[i], ps[j])
  }

  // ---------------------------------------------------------------------
  // Without
  // ---------------------------------------------------------------------

  lemma {:induction false} WithoutElems(pool: seq<int>, x: int, y: int)
    ensures y in Without(pool, x) <==> y in pool && y != x
  {
    if pool != [] {
      WithoutElems(pool[1..], x, y);
    }
  }

  lemma {:induction false} WithoutLength(pool: seq<int>, x: int)
    requires Distinct(pool)
    ensures Distinct(Without(pool, x))
    ensures |Without(pool, x)| == if x in pool then |pool| - 1 else |pool|
  {
    if pool != [] {
      WithoutLength(pool[1..], x);
      var rest := Without(pool[1..], x);
      forall y | y in rest ensures y != pool[0] {
        WithoutElems(pool[1..], x, y);
      }
      var r := Without(pool, x);
      if pool[0] != x {
        assert r == [pool[0]] + rest;
        forall i, j | 0 <= i < j < |r| ensures r[i] != r[j] {
          assert r[j] == rest[j - 1] && rest[j - 1] in rest;
          if i > 0 {
            assert r[i] == rest[i - 1];
          }
        }
      }
      assert x in pool <==> x == pool[0] || x in pool[1..];
      assert x == pool[0] ==> x !in pool[1..];
    }
  }

  lemma {:induction false} WithoutIncreasing(pool: seq<int>, x: int)
    requires Increasing(pool)
    ensures Increasing(Without(pool, x))
  {
    if pool != [] {
      WithoutIncreasing(pool[1..], x);
      var rest := Without(pool[1..], x);
      forall y | y in rest ensures pool[0] < y {
        WithoutElems(pool[1..], x, y);
        var k :| 1 <= k < |pool| && pool[k] == y;
      }
      var r := Without(pool, x);
      if pool[0] != x {
        assert r == [pool[0]] + rest;
        forall i, j | 0 <= i < j < |r| ensures r[i] < r[j] {
          assert r[j] == rest[j - 1] && rest[j - 1] in rest;
          if i > 0 {
            assert r[i] == rest[i - 1];
          }
        }
      }
    }
  }

  // ---------------------------------------------------------------------
  // Soundness: every arrangement is a sequence of k distinct pool elements
  // ---------------------------------------------------------------------

  lemma {:induction false} PermsSound(pool: seq<int>, k: nat, p: seq<int>)
    requires p in Perms(pool, k)
    ensures |p| == k && Distinct(p) && forall y :: y in p ==> y in pool
    decreases k, |pool| + 1
  {
    if k > 0 {
      BranchesSound(pool, pool, k, p);
    }
  }

  lemma {:induction false} BranchesSound(choices: seq<int>, pool: seq<int>, k: nat, p: seq<int>)
    requires k > 0 && p in Branches(choices, pool, k)
    requires forall y :: y in choices ==> y in pool
    ensures |p| == k && Distinct(p) && p[0] in choices && forall y :: y in p ==> y in pool
    decreases k, |choices|
  {
    var x := choices[0];
    var sub := Perms(Without(pool, x), k - 1);
    if p in Prefixed(x, sub) {
      var i :| 0 <= i < |sub| && p == [x] + sub[i];
      PermsSound(Without(pool, x), k - 1, sub[i]);
      forall y | y in sub[i] ensures y in pool && y != x {
        WithoutElems(pool, x, y);
      }
      assert p[1..] == sub[i];
      forall a, b | 0 <= a < b < |p| ensures p[a] != p[b] {
        assert p[b] == sub[i][b - 1] && sub[i][b - 1] in sub[i];
        if a > 0 {
          assert p[a] == sub[i][a - 1];
        }
      }
      forall y | y in p ensures y in pool {
        var d :| 0 <= d < |p| && p[d] == y;
        if d > 0 {
          assert sub[i][d - 1] == y;
        }
      }
    } else {
      BranchesSound(choices[1..], pool, k, p);
    }
  }

  // ---------------------------------------------------------------------
  // Completeness: every sequence of k distinct pool elements is there
  // ---------------------------------------------------------------------

  lemma {:induction false} PermsComplete(pool: seq<int>, k: nat, p: seq<int>)
    requires |p| == k && Distinct(p) && forall y :: y in p ==> y in pool
    ensures p in Perms(pool, k)
    decreases k, |pool| + 1
  {
    if k == 0 {
      assert p == [];
    } else {
      BranchesComplete(pool, pool, k, p);
    }
  }

  lemma {:induction false} BranchesComplete(choices: seq<int>, pool: seq<int>, k: nat, p: seq<int>)
    requires k > 0 && |p| == k && Distinct(p) && forall y :: y in p ==> y in pool
    requires p[0] in choices
    ensures p in Branches(choices, pool, k)
    decreases k, |choices|
  {
    var x := choices[0];
    if p[0] == x {
      var rest := p[1..];
      forall y | y in rest ensures y in Without(pool, x) {
        WithoutElems(pool, x, y);
        var j :| 0 <= j < |rest| && rest[j] == y;
        assert p[j + 1] == y;
      }
      PermsComplete(Without(pool, x), k - 1, rest);
      var sub := Perms(Without(pool, x), k - 1);
      var i :| 0 <= i < |sub| && sub[i] == rest;
      assert Prefixed(x, sub)[i] == p;
    } else {
      BranchesComplete(choices[1..], pool, k, p);
    }
  }

  // ---------------------------------------------------------------------
  // Count: |Perms(pool, k)| == |pool|! / (|pool| - k)!
  // ---------------------------------------------------------------------

  lemma {:induction false} PermsCount(pool: seq<int>, k: nat)
    requires Distinct(pool)
    ensures |Perms(pool, k)| == FallingFactorial(|pool|, k)
    decreases k, |pool| + 1
  {
    if k > 0 && pool == [] {
      assert Perms(pool, k) == [];
    } else if k > 0 {
      BranchesCount(pool, pool, k);
      if |pool| > 0 {
        assert |pool| * FallingFactorial(|pool| - 1, k - 1) == FallingFactorial(|pool|, k);
      }
    }
  }

  lemma {:induction false} BranchesCount(choices: seq<int>, pool: seq<int>, k: nat)
    requires k > 0 && Distinct(pool) && |pool| > 0
    requires forall y :: y in choices ==> y in pool
    ensures |Branches(choices, pool, k)| == |choices| * FallingFactorial(|pool| - 1, k - 1)
    decreases k, |choices|
  {
    if choices != [] {
      var x := choices[0];
      WithoutLength(pool, x);
      PermsCount(Without(pool, x), k - 1);
      BranchesCount(choices[1..], pool, k);
      var f := FallingFactorial(|pool| - 1, k - 1);
      assert |choices| * f == f + (|choices| - 1) * f;
    }
  }

  // ---------------------------------------------------------------------
  // Order: strictly increasing in lexicographic order
  // ---------------------------------------------------------------------

  lemma LexLessPrefixed(x: int, a: seq<int>, b: seq<int>)
    requires LexLess(a, b)
    ensures LexLess([x] + a, [x] + b)
  {
    assert ([x] + a)[1..] == a && ([x] + b)[1..] == b;
  }

  lemma {:induction false} LexLessIrreflexive(a: seq<int>, b: seq<int>)
    requires LexLess(a, b)
    ensures a != b
  {
    if a == b && a[0] == b[0] {
      LexLessIrreflexive(a[1..], b[1..]);
    }
  }

  lemma {:induction false} PermsLexSorted(pool: seq<int>, k: nat)
    requires Increasing(pool)
    ensures LexSorted(Perms(pool, k))
    decreases k, |pool| + 1
  {
    if k > 0 {
      BranchesLexSorted(pool, pool, k);
    }
  }

  lemma {:induction false} BranchesLexSorted(choices: seq<int>, pool: seq<int>, k: nat)
    requires k > 0 && Increasing(pool) && Increasing(choices)
    requires forall y :: y in choices ==> y in pool
    ensures LexSorted(Branches(choices, pool, k))
    decreases k, |choices|
  {
    if choices != [] {
      var x := choices[0];
      var sub := Perms(Without(pool, x), k - 1);
      WithoutIncreasing(pool, x);
      PermsLexSorted(Without(pool, x), k - 1);
      var front := Prefixed(x, sub);
      var back := Branches(choices[1..], pool, k);
      BranchesLexSorted(choices[1..], pool, k);
      var all := front + back;
      forall i, j | 0 <= i < j < |all| ensures LexLess(all[i], all[j]) {
        if j < |front| {
          LexLessPrefixed(x, sub[i], sub[j]);
        } else if i < |front| {
          BranchesSound(choices[1..], pool, k, back[j - |front|]);
          assert back[j - |front|] == all[j];
        } else {
          assert all[i] == back[i - |front|] && all[j] == back[j - |front|];
        }
      }
    }
  }

  /** itertools.permutations(range(10), L): exactly the numbers of L distinct
      digits, each once, in lexicographic order, 10!/(10-L)! of them. */
  lemma InitialArrangements(L: nat)
    ensures |Perms(Range10(), L)| == FallingFactorial(10, L)
    ensures LexSorted(Perms(Range10(), L))
    ensures forall p :: p in Perms(Range10(), L) <==> IsArrangement(p, L)
  {
    var digits := Range10();
    PermsCount(digits, L);
    PermsLexSorted(digits, L);
    forall p ensures p in Perms(digits, L) <==> IsArrangement(p, L) {
      if p in Perms(digits, L) {
        PermsSound(digits, L, p);
        forall i | 0 <= i < |p| ensures 0 <= p[i] <= 9 {
          assert p[i] in p;
          var d :| 0 <= d < 10 && digits[d] == p[i];
        }
      }
      if IsArrangement(p, L) {
        forall y | y in p ensures y in digits {
          var i :| 0 <= i < |p| && p[i] == y;
          assert digits[y] == y;
        }
        PermsComplete(digits, L, p);
      }
    }
  }

  /** A lexicographically sorted list holds no arrangement twice. */
  lemma LexSortedNoDuplicates(ps: seq<seq<int>>)
    requires LexSorted(ps)
    ensures forall i, j :: 0 <= i < j < |ps| ==> ps[i] != ps[j]
  {
    forall i, j | 0 <= i < j < |ps| ensures ps[i] != ps[j] {
      LexLessIrreflexive(ps[i], ps[j]);
    }
  }
}
