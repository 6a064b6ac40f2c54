/**
 * The ranking report: the accepted coins sorted by market cap (a stable
 * sort, as Python's `sorted` is), the first ten of them as the bottom list
 * and the last ten, reversed, as the top list.
 */
module Ranking {
  import opened Records

  /** How many coins each list shows at most. */
  const Shown: nat := 10

  function Min(a: nat, b: nat): nat {
    if a <= b then a else b
  }

  predicate Ascending(s: seq<AcceptedCoin>) {
    forall i, j :: 0 <= i < j < |s| ==> s[i].marketCap <= s[j].marketCap
  }

  predicate Descending(s: seq<AcceptedCoin>) {
    forall i, j :: 0 <= i < j < |s| ==> s[i].marketCap >= s[j].marketCap
  }

  /** The coins of `s` whose market cap is `cap`, in their order in `s`. */
  function WithCap(s: seq<AcceptedCoin>, cap: real): seq<AcceptedCoin>
    decreases |s|
  {
    if s == [] then [] else (if s[0].marketCap == cap then [s[0]] else []) + WithCap(s[1..], cap)
  }

  /** `c` placed into ascending `s` after every coin whose market cap is not larger. */
  function Insert(c: AcceptedCoin, s: seq<AcceptedCoin>): seq<AcceptedCoin>
    decreases |s|
  {
    if s == [] then [c]
    else if c.marketCap < s[0].marketCap then [c] + s
    else [s[0]] + Insert(c, s[1..])
  }

  /** `sorted(coins, key=market cap)`: ascending, and a permutation of its input. */
  function SortByCap(coins: seq<AcceptedCoin>): (r: seq<AcceptedCoin>)
    ensures |r| == |coins|
    ensures Ascending(r)
    ensures multiset(r) == multiset(coins)
    decreases |coins|
  {
    if coins == [] then []
    else
      var init, last := coins[..|coins| - 1], coins[|coins| - 1];
      var sorted := SortByCap(init);
      assert coins == init + [last];
      InsertSorted(last, sorted);
      Insert(last, sorted)
  }

  /** Every coin of `s` has a market cap of at least `floor`. */
  predicate AtLeast(s: seq<AcceptedCoin>, floor: real) {
    forall k :: 0 <= k < |s| ==> floor <= s[k].marketCap
  }

  lemma {:induction false} InsertAtLeast(c: AcceptedCoin, s: seq<AcceptedCoin>, floor: real)
    requires AtLeast(s, floor) && floor <= c.marketCap
    ensures AtLeast(Insert(c, s), floor)
    decreases |s|
  {
    if s != [] && c.marketCap >= s[0].marketCap {
      InsertAtLeast(c, s[1..], floor);
    }
  }

  lemma {:induction false} InsertSorted(c: AcceptedCoin, s: seq<AcceptedCoin>)
    requires Ascending(s)
    ensures Ascending(Insert(c, s))
    ensures multiset(Insert(c, s)) == multiset(s) + multiset{c}
    ensures |Insert(c, s)| == |s| + 1
  {
    InsertAscending(c, s);
    InsertPermutes(c, s);
  }

  lemma {:induction false} InsertPermutes(c: AcceptedCoin, s: seq<AcceptedCoin>)
    ensures multiset(Insert(c, s)) == multiset(s) + multiset{c}
    ensures |Insert(c, s)| == |s| + 1
    decreases |s|
  {
    if s != [] && c.marketCap >= s[0].marketCap {
      InsertPermutes(c, s[1..]);
      assert s == [s[0]] + s[1..];
    }
  }

  lemma {:induction false} InsertAscending(c: AcceptedCoin, s: seq<AcceptedCoin>)
    requires Ascending(s)
    ensures Ascending(Insert(c, s))
    decreases |s|
  {
    if s == [] {
    } else if c.marketCap < s[0].marketCap {
      var r := [c] + s;
      forall i, j | 0 <= i < j < |r|
        ensures r[i].marketCap <= r[j].marketCap
      {
        if i == 0 {
          assert r[j] == s[j - 1];
          assert s[0].marketCap <= s[j - 1].marketCap;
        } else {
          assert r[i] == s[i - 1] && r[j] == s[j - 1];
        }
      }
    } else {
      var tail := s[1..];
      assert Ascending(tail) by {
        forall i, j | 0 <= i < j < |tail|
          ensures tail[i].marketCap <= tail[j].marketCap
        {
          assert tail[i] == s[i + 1] && tail[j] == s[j + 1];
        }
      }
      assert AtLeast(tail, s[0].marketCap) by {
        forall k | 0 <= k < |tail|
          ensures s[0].marketCap <= tail[k].marketCap
        {
          assert tail[k] == s[k + 1];
        }
      }
      InsertAscending(c, tail);
      InsertAtLeast(c, tail, s[0].marketCap);
      var r := Insert(c, tail);
      var q := [s[0]] + r;
      assert Insert(c, s) == q;
      forall i, j | 0 <= i < j < |q|
        ensures q[i].marketCap <= q[j].marketCap
      {
        assert q[j] == r[j - 1];
        if i > 0 {
          assert q[i] == r[i - 1];
        }
      }
    }
  }

  lemma {:induction false} WithCapConcat(s: seq<AcceptedCoin>, t: seq<AcceptedCoin>, cap: real)
    ensures WithCap(s + t, cap) == WithCap(s, cap) + WithCap(t, cap)
    decreases |s|
  {
    if s == [] {
      assert s + t == t;
    } else {
      WithCapConcat(s[1..], t, cap);
      assert (s + t)[0] == s[0];
      assert (s + t)[1..] == s[1..] + t;
      var head := if s[0].marketCap == cap then [s[0]] else [];
      assert WithCap(s + t, cap) == head + WithCap(s[1..] + t, cap);
      assert WithCap(s, cap) == head + WithCap(s[1..], cap);
    }
  }

  lemma {:induction false} WithCapAbove(s: seq<AcceptedCoin>, cap: real)
    requires forall k :: 0 <= k < |s| ==> s[k].marketCap > cap
    ensures WithCap(s, cap) == []
    decreases |s|
  {
    if s != [] {
      WithCapAbove(s[1..], cap);
    }
  }

  lemma {:induction false} InsertStable(c: AcceptedCoin, s: seq<AcceptedCoin>, cap: real)
    requires Ascending(s)
    ensures WithCap(Insert(c, s), cap) == WithCap(s, cap) + WithCap([c], cap)
    decreases |s|
  {
    if s == [] {
    } else if c.marketCap < s[0].marketCap {
      if c.marketCap == cap {
        WithCapAbove(s, cap);
      }
      WithCapConcat([c], s, cap);
    } else {
      InsertStable(c, s[1..], cap);
      assert Insert(c, s) == [s[0]] + Insert(c, s[1..]);
      WithCapConcat([s[0]], Insert(c, s[1..]), cap);
      WithCapConcat([s[0]], s[1..], cap);
      assert [s[0]] + s[1..] == s;
    }
  }

  /** The sort is stable: the coins of any one market cap keep their input order. */
  lemma {:induction false} SortIsStable(coins: seq<AcceptedCoin>, cap: real)
    ensures WithCap(SortByCap(coins), cap) == WithCap(coins, cap)
    decreases |coins|
  {
    if coins != [] {
      var init, last := coins[..|coins| - 1], coins[|coins| - 1];
      assert coins == init + [last];
      calc {
        WithCap(SortByCap(coins), cap);
        WithCap(Insert(last, SortByCap(init)), cap);
        { InsertStable(last, SortByCap(init), cap); }
        WithCap(SortByCap(init), cap) + WithCap([last], cap);
        { SortIsStable(init, cap); }
        WithCap(init, cap) + WithCap([last], cap);
        { WithCapConcat(init, [last], cap); }
        WithCap(coins, cap);
      }
    }
  }

  /** `reversed(s)`. */
  function Reverse(s: seq<AcceptedCoin>): (r: seq<AcceptedCoin>)
    ensures |r| == |s|
    ensures forall i :: 0 <= i < |s| ==> r[i] == s[|s| - 1 - i]
    ensures multiset(r) == multiset(s)
    decreases |s|
  {
    if s == [] then []
    else
      assert s == [s[0]] + s[1..];
      Reverse(s[1..]) + [s[0]]
  }

  /** `sorted_coins[:10]`. */
  function Bottom(coins: seq<AcceptedCoin>): seq<AcceptedCoin> {
    SortByCap(coins)[..Min(Shown, |coins|)]
  }

  /** `reversed(sorted_coins[-10:])`. */
  function Top(coins: seq<AcceptedCoin>): seq<AcceptedCoin> {
    Reverse(SortByCap(coins)[|coins| - Min(Shown, |coins|)..])
  }

  /** A sorted list split in two: every coin of the front is at most every coin of the back. */
  lemma SplitSorted(s: seq<AcceptedCoin>, n: nat)
    requires Ascending(s) && n <= |s|
    ensures multiset(s) - multiset(s[..n]) == multiset(s[n..])
    ensures multiset(s) - multiset(s[n..]) == multiset(s[..n])
    ensures forall b, c :: b in s[..n] && c in s[n..] ==> b.marketCap <= c.marketCap
  {
    assert s == s[..n] + s[n..];
    assert multiset(s) == multiset(s[..n]) + multiset(s[n..]);
  }

  /**
   * The bottom list holds min(10, n) coins, ascending, drawn from the
   * accepted coins; its first coin has the smallest market cap, and no coin
   * left out of it has a smaller market cap than one in it.
   */
  lemma BottomList(coins: seq<AcceptedCoin>)
    ensures |Bottom(coins)| == Min(Shown, |coins|)
    ensures Ascending(Bottom(coins))
    ensures multiset(Bottom(coins)) <= multiset(coins)
    ensures |coins| > 0 ==> forall c :: c in coins ==> Bottom(coins)[0].marketCap <= c.marketCap
    ensures forall b, c :: b in Bottom(coins) && c in multiset(coins) - multiset(Bottom(coins)) ==>
              b.marketCap <= c.marketCap
  {
    var sorted, n := SortByCap(coins), Min(Shown, |coins|);
    SplitSorted(sorted, n);
    if |coins| > 0 {
      FirstIsSmallest(sorted);
      SameCoins(coins);
    }
  }

  /**
   * The top list holds min(10, n) coins, descending, drawn from the accepted
   * coins; its first coin has the largest market cap, and no coin left out of
   * it has a larger market cap than one in it.
   */
  lemma TopList(coins: seq<AcceptedCoin>)
    ensures |Top(coins)| == Min(Shown, |coins|)
    ensures Descending(Top(coins))
    ensures multiset(Top(coins)) <= multiset(coins)
    ensures |coins| > 0 ==> forall c :: c in coins ==> c.marketCap <= Top(coins)[0].marketCap
    ensures forall t, c :: t in Top(coins) && c in multiset(coins) - multiset(Top(coins)) ==>
              c.marketCap <= t.marketCap
  {
    TopOrder(coins);
    TopMaximal(coins);
    if |coins| > 0 {
      TopFirst(coins);
    }
  }

  lemma TopOrder(coins: seq<AcceptedCoin>)
    ensures |Top(coins)| == Min(Shown, |coins|)
    ensures Descending(Top(coins))
  {
  }

  lemma TopMaximal(coins: seq<AcceptedCoin>)
    ensures multiset(Top(coins)) <= multiset(coins)
    ensures forall t, c :: t in Top(coins) && c in multiset(coins) - multiset(Top(coins)) ==>
              c.marketCap <= t.marketCap
  {
    var sorted, start := SortByCap(coins), |coins| - Min(Shown, |coins|);
    var tail := sorted[start..];
    SplitSorted(sorted, start);
    assert multiset(Top(coins)) == multiset(tail);
    forall t | t in Top(coins)
      ensures t in tail
    {
      assert t in multiset(Top(coins));
    }
  }

  lemma TopFirst(coins: seq<AcceptedCoin>)
    requires |coins| > 0
    ensures forall c :: c in coins ==> c.marketCap <= Top(coins)[0].marketCap
  {
    var sorted := SortByCap(coins);
    var tail := sorted[|coins| - Min(Shown, |coins|)..];
    assert Top(coins) == Reverse(tail);
    assert Reverse(tail)[0] == tail[|tail| - 1] == sorted[|coins| - 1];
    LastIsLargest(sorted);
    SameCoins(coins);
  }

  /** Sorting keeps exactly the coins it was given. */
  lemma SameCoins(coins: seq<AcceptedCoin>)
    ensures forall c :: c in coins <==> c in SortByCap(coins)
  {
    var sorted := SortByCap(coins);
    forall c
      ensures c in coins <==> c in sorted
    {
      assert c in coins <==> c in multiset(coins);
      assert c in sorted <==> c in multiset(sorted);
    }
  }

  /** The last coin of an ascending list has the largest market cap. */
  lemma LastIsLargest(s: seq<AcceptedCoin>)
    requires Ascending(s) && |s| > 0
    ensures forall c :: c in s ==> c.marketCap <= s[|s| - 1].marketCap
  {
    forall c | c in s
      ensures c.marketCap <= s[|s| - 1].marketCap
    {
      var j :| 0 <= j < |s| && s[j] == c;
    }
  }

  /** The first coin of an ascending list has the smallest market cap. */
  lemma FirstIsSmallest(s: seq<AcceptedCoin>)
    requires Ascending(s) && |s| > 0
    ensures forall c :: c in s ==> s[0].marketCap <= c.marketCap
  {
    forall c | c in s
      ensures s[0].marketCap <= c.marketCap
    {
      var j :| 0 <= j < |s| && s[j] == c;
    }
  }
}
