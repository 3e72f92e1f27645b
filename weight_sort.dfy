/** sorted(tmp, key=lambda x: x[1], reverse=True): Python's sort is stable,
    also with reverse=True, so entries of equal weight keep their order. */
module WeightSort {
  import opened Candidates

  predicate SortedDesc(s: seq<Entry>) {
    forall i, j :: 0 <= i < j < |s| ==> s[i].weight >= s[j].weight
  }

  /** The entries of s with weight w, in the order of s. */
  function WithWeight(s: seq<Entry>, w: int): seq<Entry> {
    if s == [] then []
    else
      var head := if s[0].weight == w then [s[0]] else [];
      head + WithWeight(s[1..], w)
  }

  /** Puts x in front of the first entry that is not heavier. */
  function Insert(x: Entry, t: seq<Entry>): seq<Entry> {
    if t == [] || x.weight >= t[0].weight then [x] + t
    else [t[0]] + Insert(x, t[1..])
  }

  /** Stable insertion sort by weight, heaviest first. */
  function SortByWeight(s: seq<Entry>): seq<Entry> {
    if s == [] then [] else Insert(s[0], SortByWeight(s[1..]))
  }

  lemma HeadHeaviest(t: seq<Entry>, y: Entry)
    requires SortedDesc(t) && t != [] && y in t
    ensures y.weight <= t[0].weight
  {
    var k :| 0 <= k < |t| && t[k] == y;
  }

  lemma {:induction false} InsertPermutes(x: Entry, t: seq<Entry>)
    ensures multiset(Insert(x, t)) == multiset(t) + multiset{x}
  {
    if t != [] && x.weight < t[0].weight {
      InsertPermutes(x, t[1..]);
      assert t == [t[0]] + t[1..];
    }
  }

  lemma {:induction false} InsertElems(x: Entry, t: seq<Entry>, y: Entry)
    ensures y in Insert(x, t) <==> y == x || y in t
  {
    if t != [] && x.weight < t[0].weight {
      InsertElems(x, t[1..], y);
      assert t == [t[0]] + t[1..];
    }
  }

  lemma {:induction false} InsertSorted(x: Entry, t: seq<Entry>)
    requires SortedDesc(t)
    ensures SortedDesc(Insert(x, t))
  {
    if t != [] && x.weight < t[0].weight {
      InsertSorted(x, t[1..]);
      var r := Insert(x, t[1..]);
      var all := [t[0]] + r;
      forall i, j | 0 <= i < j < |all| ensures all[i].weight >= all[j].weight {
        if i == 0 {
          var y := r[j - 1];
          InsertElems(x, t[1..], y);
          if y != x {
            HeadHeaviest(t, y);
          }
        } else {
          assert all[i] == r[i - 1] && all[j] == r[j - 1];
        }
      }
    }
  }

  lemma {:induction false} InsertCands(x: Entry, t: seq<Entry>)
    ensures multiset(Cands(Insert(x, t))) == multiset(Cands(t)) + multiset{x.candi}
  {
    if t == [] || x.weight >= t[0].weight {
      CandsCons(x, t);
    } else {
      InsertCands(x, t[1..]);
      assert t == [t[0]] + t[1..];
      CandsCons(t[0], t[1..]);
      CandsCons(t[0], Insert(x, t[1..]));
    }
  }

  lemma WithWeightCons(y: Entry, t: seq<Entry>, w: int)
    ensures WithWeight([y] + t, w) == (if y.weight == w then [y] else []) + WithWeight(t, w)
  {
    assert ([y] + t)[1..] == t;
  }

  lemma {:induction false} InsertStable(x: Entry, t: seq<Entry>, w: int)
    requires SortedDesc(t)
    ensures WithWeight(Insert(x, t), w) == (if x.weight == w then [x] else []) + WithWeight(t, w)
  {
    if t == [] || x.weight >= t[0].weight {
      WithWeightCons(x, t, w);
    } else {
      InsertStable(x, t[1..], w);
      WithWeightCons(t[0], Insert(x, t[1..]), w);
      assert t == [t[0]] + t[1..];
      WithWeightCons(t[0], t[1..], w);
      if x.weight == w {
        assert t[0].weight != w;
      }
    }
  }

  /** The sorted list is heaviest first. */
  lemma {:induction false} SortByWeightSorted(s: seq<Entry>)
    ensures SortedDesc(SortByWeight(s))
  {
    if s != [] {
      SortByWeightSorted(s[1..]);
      InsertSorted(s[0], SortByWeight(s[1..]));
    }
  }

  /** The sorted list is a permutation of its input. */
  lemma {:induction false} SortByWeightPermutes(s: seq<Entry>)
    ensures multiset(SortByWeight(s)) == multiset(s)
  {
    if s != [] {
      SortByWeightPermutes(s[1..]);
      InsertPermutes(s[0], SortByWeight(s[1..]));
      assert s == [s[0]] + s[1..];
    }
  }

  /** Sorting neither adds nor drops a candidate. */
  lemma {:induction false} SortByWeightCands(s: seq<Entry>)
    ensures multiset(Cands(SortByWeight(s))) == multiset(Cands(s))
  {
    if s != [] {
      SortByWeightCands(s[1..]);
      InsertCands(s[0], SortByWeight(s[1..]));
      assert s == [s[0]] + s[1..];
      CandsCons(s[0], s[1..]);
    }
  }

  /** The sort is stable: for each weight, the entries of that weight
      appear in their original order. */
  lemma {:induction false} SortByWeightStable(s: seq<Entry>, w: int)
    ensures WithWeight(SortByWeight(s), w) == WithWeight(s, w)
  {
    if s != [] {
      SortByWeightStable(s[1..], w);
      SortByWeightSorted(s[1..]);
      InsertStable(s[0], SortByWeight(s[1..]), w);
    }
  }

  lemma SortByWeightElems(s: seq<Entry>, e: Entry)
    ensures e in SortByWeight(s) <==> e in s
  {
    SortByWeightPermutes(s);
    assert e in SortByWeight(s) <==> e in multiset(SortByWeight(s));
  }
}
