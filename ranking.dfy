/** The sort step of the page's render: the comparator for each sort selection,
    a stable descending sort by key as a specification, its properties, and the
    in-place sort of the filtered array. */
module Ranking {
  import opened Shops

  datatype SortKey = ByRating | ByReviews | ByUpdated | ByScore

  /** The sort selection read from the page state: any value other than the
      three named keys means the composite score. */
  function KeyOf(sort: string): (k: SortKey)
    ensures k == ByScore <==> sort != "rating" && sort != "reviews" && sort != "updated"
  {
    if sort == "rating" then ByRating
    else if sort == "reviews" then ByReviews
    else if sort == "updated" then ByUpdated
    else ByScore
  }

  /** `x || 0` for a numeric field: a missing value counts as zero. */
  function RealOrZero(o: Option<real>): real { if o.Some? then o.value else 0.0 }
  function IntOrZero(o: Option<int>): int { if o.Some? then o.value else 0 }

  /** The composite score: twice the rating, one point per fifty reviews, and one
      point more for a shop where smoking is allowed throughout. */
  function Score(s: Shop): real
  {
    RealOrZero(s.rating) * 2.0 + (IntOrZero(s.reviews) as real) / 50.0 + (if s.smoking == FULL_SMOKE then 1.0 else 0.0)
  }

  /** The value a shop is ranked by under a given key. */
  function Key(s: Shop, k: SortKey): real
  {
    match k
    case ByRating => RealOrZero(s.rating)
    case ByReviews => IntOrZero(s.reviews) as real
    case ByUpdated => IntOrZero(s.updated) as real
    case ByScore => Score(s)
  }

  /** The comparator handed to `list.sort`: positive when `b` must come before `a`. */
  function Compare(a: Shop, b: Shop, k: SortKey): (r: real)
    ensures r > 0.0 <==> Key(a, k) < Key(b, k)
    ensures r == 0.0 <==> Key(a, k) == Key(b, k)
  {
    match k
    case ByRating => RealOrZero(b.rating) - RealOrZero(a.rating)
    case ByReviews => (IntOrZero(b.reviews) - IntOrZero(a.reviews)) as real
    case ByUpdated => (IntOrZero(b.updated) - IntOrZero(a.updated)) as real
    case ByScore => Score(b) - Score(a)
  }

  /** Non-increasing in the key. */
  predicate Ordered(s: seq<Shop>, k: SortKey)
  {
    forall i, j :: 0 <= i < j < |s| ==> Key(s[i], k) >= Key(s[j], k)
  }

  /** The shops of `s` whose key equals `v`, in their order in `s`. */
  function Tier(s: seq<Shop>, k: SortKey, v: real): seq<Shop>
  {
    if s == [] then []
    else Tier(s[..|s| - 1], k, v) + (if Key(s[|s| - 1], k) == v then [s[|s| - 1]] else [])
  }

  /** Where `x` goes in a sorted `t`: after every element whose key is at least its own. */
  function Pos(t: seq<Shop>, x: Shop, k: SortKey): (p: nat)
    ensures p <= |t|
  {
    if t != [] && Key(t[|t| - 1], k) < Key(x, k) then Pos(t[..|t| - 1], x, k) else |t|
  }

  function Insert(t: seq<Shop>, x: Shop, k: SortKey): seq<Shop>
  {
    var p := Pos(t, x, k);
    t[..p] + [x] + t[p..]
  }

  /** The stable descending sort by key, as a specification. */
  function SortDesc(s: seq<Shop>, k: SortKey): seq<Shop>
  {
    if s == [] then [] else Insert(SortDesc(s[..|s| - 1], k), s[|s| - 1], k)
  }

  // ----- properties of the specification -----

  lemma {:induction false} PosBounds(t: seq<Shop>, x: Shop, k: SortKey)
    ensures forall i :: Pos(t, x, k) <= i < |t| ==> Key(t[i], k) < Key(x, k)
    ensures Pos(t, x, k) > 0 ==> Key(t[Pos(t, x, k) - 1], k) >= Key(x, k)
  {
    if t != [] && Key(t[|t| - 1], k) < Key(x, k) {
      PosBounds(t[..|t| - 1], x, k);
    }
  }

  lemma {:induction false} TierAppend(a: seq<Shop>, b: seq<Shop>, k: SortKey, v: real)
    ensures Tier(a + b, k, v) == Tier(a, k, v) + Tier(b, k, v)
  {
    if b == [] {
      assert a + b == a;
    } else {
      TierAppend(a, b[..|b| - 1], k, v);
      assert (a + b)[..|a + b| - 1] == a + b[..|b| - 1];
    }
  }

  lemma {:induction false} TierBelow(t: seq<Shop>, k: SortKey, v: real)
    requires forall i :: 0 <= i < |t| ==> Key(t[i], k) < v
    ensures Tier(t, k, v) == []
  {
    if t != [] {
      TierBelow(t[..|t| - 1], k, v);
    }
  }

  lemma InsertPermutes(t: seq<Shop>, x: Shop, k: SortKey)
    ensures multiset(Insert(t, x, k)) == multiset(t) + multiset{x}
  {
    var p := Pos(t, x, k);
    assert t == t[..p] + t[p..];
  }

  lemma InsertOrdered(t: seq<Shop>, x: Shop, k: SortKey)
    requires Ordered(t, k)
    ensures Ordered(Insert(t, x, k), k)
  {
    var p := Pos(t, x, k);
    PosBounds(t, x, k);
    var r := Insert(t, x, k);
    forall i, j | 0 <= i < j < |r|
      ensures Key(r[i], k) >= Key(r[j], k)
    {
      if i < p && j == p {
        assert Key(t[i], k) >= Key(t[p - 1], k);
      }
    }
  }

  /** Splicing `x` between two parts adds `x` to its own tier only, after the part
      before it, provided the part after it has nothing in that tier. */
  lemma TierSplice(front: seq<Shop>, back: seq<Shop>, x: Shop, k: SortKey, v: real)
    requires Key(x, k) == v ==> Tier(back, k, v) == []
    ensures Tier(front + [x] + back, k, v) == Tier(front + back, k, v) + (if Key(x, k) == v then [x] else [])
  {
    var fx := front + [x];
    var tx := if Key(x, k) == v then [x] else [];
    TierAppend(fx, back, k, v);
    TierAppend(front, back, k, v);
    assert fx[..|fx| - 1] == front;
    assert Tier(fx, k, v) == Tier(front, k, v) + tx;
    if Key(x, k) == v {
      assert Tier(fx + back, k, v) == Tier(front, k, v) + [x];
    } else {
      assert Tier(fx + back, k, v) == Tier(front, k, v) + Tier(back, k, v);
    }
  }

  /** Inserting `x` extends only the tier of `x`'s key, and it lands last in it. */
  lemma InsertTier(t: seq<Shop>, x: Shop, k: SortKey, v: real)
    ensures Tier(Insert(t, x, k), k, v) == Tier(t, k, v) + (if Key(x, k) == v then [x] else [])
  {
    var p := Pos(t, x, k);
    PosBounds(t, x, k);
    if Key(x, k) == v {
      TierBelow(t[p..], k, v);
    }
    TierSplice(t[..p], t[p..], x, k, v);
    assert t[..p] + t[p..] == t;
  }

  /** The sort result is a permutation of its input. */
  lemma {:induction false} SortDescPermutes(s: seq<Shop>, k: SortKey)
    ensures multiset(SortDesc(s, k)) == multiset(s)
    ensures |SortDesc(s, k)| == |s|
  {
    if s != [] {
      SortDescPermutes(s[..|s| - 1], k);
      InsertPermutes(SortDesc(s[..|s| - 1], k), s[|s| - 1], k);
      assert s == s[..|s| - 1] + [s[|s| - 1]];
    }
  }

  /** The sort result is non-increasing in the key. */
  lemma {:induction false} SortDescOrdered(s: seq<Shop>, k: SortKey)
    ensures Ordered(SortDesc(s, k), k)
  {
    if s != [] {
      SortDescOrdered(s[..|s| - 1], k);
      InsertOrdered(SortDesc(s[..|s| - 1], k), s[|s| - 1], k);
    }
  }

  /** The sort is stable: shops with equal keys keep their relative order. */
  lemma {:induction false} SortDescStable(s: seq<Shop>, k: SortKey, v: real)
    ensures Tier(SortDesc(s, k), k, v) == Tier(s, k, v)
  {
    if s != [] {
      SortDescStable(s[..|s| - 1], k, v);
      InsertTier(SortDesc(s[..|s| - 1], k), s[|s| - 1], k, v);
    }
  }

  /** A list that is already in key order is left as it is. */
  lemma {:induction false} SortDescOfOrdered(s: seq<Shop>, k: SortKey)
    requires Ordered(s, k)
    ensures SortDesc(s, k) == s
  {
    if s != [] {
      var init, x := s[..|s| - 1], s[|s| - 1];
      OrderedInit(s, k);
      SortDescOfOrdered(init, k);
      if init != [] {
        assert init[|init| - 1] == s[|s| - 2];
        assert Key(s[|s| - 2], k) >= Key(x, k);
      }
      assert Pos(init, x, k) == |init|;
      assert init[..|init|] + [x] + init[|init|..] == s;
    }
  }

  lemma {:induction false} TierMembers(s: seq<Shop>, k: SortKey, v: real)
    ensures forall x :: x in Tier(s, k, v) <==> x in s && Key(x, k) == v
  {
    if s != [] {
      TierMembers(s[..|s| - 1], k, v);
      assert s == s[..|s| - 1] + [s[|s| - 1]];
    }
  }

  lemma OrderedInit(r: seq<Shop>, k: SortKey)
    requires r != [] && Ordered(r, k)
    ensures Ordered(r[..|r| - 1], k)
  {
    var init := r[..|r| - 1];
    forall i, j | 0 <= i < j < |init| ensures Key(init[i], k) >= Key(init[j], k) {
      assert init[i] == r[i] && init[j] == r[j];
    }
  }

  /** Lists that agree on every tier are empty together. */
  lemma TiersEmpty(r1: seq<Shop>, r2: seq<Shop>, k: SortKey)
    requires r1 == []
    requires forall v :: Tier(r1, k, v) == Tier(r2, k, v)
    ensures r2 == []
  {
    if r2 != [] {
      LastOfTier(r2, k);
      assert false;
    }
  }

  /** The last shop of an in-order list has the least key. */
  lemma LastIsLeast(r: seq<Shop>, x: Shop, k: SortKey)
    requires r != [] && Ordered(r, k) && x in r
    ensures Key(x, k) >= Key(r[|r| - 1], k)
  {
    var i :| 0 <= i < |r| && r[i] == x;
    if i < |r| - 1 {
      assert Key(r[i], k) >= Key(r[|r| - 1], k);
    }
  }

  /** The last shop of a list is the last of its own tier. */
  lemma LastOfTier(r: seq<Shop>, k: SortKey)
    requires r != []
    ensures var t := Tier(r, k, Key(r[|r| - 1], k)); t != [] && t[|t| - 1] == r[|r| - 1]
  {
  }

  /** A list that agrees on the tier of another list's last shop holds that shop. */
  lemma LastInOther(r1: seq<Shop>, r2: seq<Shop>, k: SortKey)
    requires r1 != []
    requires Tier(r1, k, Key(r1[|r1| - 1], k)) == Tier(r2, k, Key(r1[|r1| - 1], k))
    ensures r1[|r1| - 1] in r2
  {
    LastOfTier(r1, k);
    TierMembers(r2, k, Key(r1[|r1| - 1], k));
  }

  /** In-order lists that agree on every tier end with the same shop. */
  lemma LastAgrees(r1: seq<Shop>, r2: seq<Shop>, k: SortKey)
    requires r1 != [] && r2 != []
    requires Ordered(r1, k) && Ordered(r2, k)
    requires forall v :: Tier(r1, k, v) == Tier(r2, k, v)
    ensures r1[|r1| - 1] == r2[|r2| - 1]
  {
    var x1, x2 := r1[|r1| - 1], r2[|r2| - 1];
    var v1, v2 := Key(x1, k), Key(x2, k);
    var t1, t2 := Tier(r1, k, v1), Tier(r2, k, v2);
    assert t1 == Tier(r2, k, v1);
    assert t2 == Tier(r1, k, v2);
    LastInOther(r1, r2, k);
    LastInOther(r2, r1, k);
    LastIsLeast(r2, x1, k);
    LastIsLeast(r1, x2, k);
    LastOfTier(r1, k);
    LastOfTier(r2, k);
  }

  lemma CancelLast(a: seq<Shop>, b: seq<Shop>, t: seq<Shop>)
    requires a + t == b + t
    ensures a == b
  {
    assert a == (a + t)[..|a|];
    assert b == (b + t)[..|b|];
  }

  /** Stable sorting has one outcome: two lists that are both in key order and agree
      on every tier are equal. So `SortDesc` is what any stable descending sort by the
      same comparator yields, whatever algorithm the engine uses. */
  lemma {:induction false} StableOrderUnique(r1: seq<Shop>, r2: seq<Shop>, k: SortKey)
    requires Ordered(r1, k) && Ordered(r2, k)
    requires forall v :: Tier(r1, k, v) == Tier(r2, k, v)
    ensures r1 == r2
    decreases |r1|
  {
    if r1 == [] {
      TiersEmpty(r1, r2, k);
    } else if r2 == [] {
      TiersEmpty(r2, r1, k);
    } else {
      LastAgrees(r1, r2, k);
      var init1, init2 := r1[..|r1| - 1], r2[..|r2| - 1];
      var x := r1[|r1| - 1];
      forall v
        ensures Tier(init1, k, v) == Tier(init2, k, v)
      {
        assert Tier(r1, k, v) == Tier(init1, k, v) + (if Key(x, k) == v then [x] else []);
        assert Tier(r2, k, v) == Tier(init2, k, v) + (if Key(x, k) == v then [x] else []);
        assert Tier(r1, k, v) == Tier(r2, k, v);
        CancelLast(Tier(init1, k, v), Tier(init2, k, v), if Key(x, k) == v then [x] else []);
      }
      OrderedInit(r1, k);
      OrderedInit(r2, k);
      StableOrderUnique(init1, init2, k);
      assert r1 == init1 + [r1[|r1| - 1]] && r2 == init2 + [r2[|r2| - 1]];
    }
  }

  /** Hence `SortDesc` is characterised by its three properties: any reordering that is
      in key order and keeps every tier in input order is `SortDesc`. */
  lemma SortDescUnique(s: seq<Shop>, r: seq<Shop>, k: SortKey)
    requires Ordered(r, k)
    requires forall v :: Tier(r, k, v) == Tier(s, k, v)
    ensures r == SortDesc(s, k)
  {
    SortDescOrdered(s, k);
    forall v
      ensures Tier(r, k, v) == Tier(SortDesc(s, k), k, v)
    {
      SortDescStable(s, k, v);
    }
    StableOrderUnique(r, SortDesc(s, k), k);
  }

  // ----- the in-place sort -----

  /** `list.sort(comparator)` on the freshly filtered array, as an insertion sort
      that moves each element left past every element the comparator ranks below it. */
  method SortByKey(a: array<Shop>, k: SortKey)
    modifies a
    ensures a[..] == SortDesc(old(a[..]), k)
  {
    ghost var input := a[..];
    var i := 0;
    while i < a.Length
      invariant 0 <= i <= a.Length
      invariant a[..i] == SortDesc(input[..i], k)
      invariant a[i..] == input[i..]
    {
      assert a[i] == input[i];
      InsertLast(a, i, k);
      assert input[..i + 1][..i] == input[..i];
      i := i + 1;
    }
    assert input[..a.Length] == input;
  }

  /** One step of the insertion sort: `a[i]` moves left into the sorted prefix `a[..i]`. */
  method InsertLast(a: array<Shop>, i: nat, k: SortKey)
    requires i < a.Length
    modifies a
    ensures a[..i + 1] == Insert(old(a[..i]), old(a[i]), k)
    ensures a[i + 1..] == old(a[i + 1..])
  {
    ghost var s0 := a[..];
    var x := a[i];
    var j := i;
    while j > 0 && Compare(a[j - 1], x, k) > 0.0
      invariant 0 <= j <= i
      invariant forall m :: 0 <= m < j ==> a[m] == s0[m]
      invariant forall m :: j < m <= i ==> a[m] == s0[m - 1]
      invariant forall m :: i < m < a.Length ==> a[m] == s0[m]
      invariant forall m :: j <= m < i ==> Key(s0[m], k) < Key(x, k)
    {
      a[j] := a[j - 1];
      j := j - 1;
    }
    if j > 0 {
      assert a[j - 1] == s0[j - 1];
    }
    a[j] := x;
    SpliceResult(a[..], s0, i, j, k);
  }

  /** After the shifting loop, the array is the prefix with `s0[i]` inserted at `j`,
      which is where `Insert` puts it, followed by the untouched rest. */
  lemma SpliceResult(r: seq<Shop>, s0: seq<Shop>, i: nat, j: nat, k: SortKey)
    requires j <= i < |s0| == |r|
    requires j == 0 || Key(s0[j - 1], k) >= Key(s0[i], k)
    requires forall m :: j <= m < i ==> Key(s0[m], k) < Key(s0[i], k)
    requires forall m :: 0 <= m < j ==> r[m] == s0[m]
    requires r[j] == s0[i]
    requires forall m :: j < m <= i ==> r[m] == s0[m - 1]
    requires forall m :: i < m < |r| ==> r[m] == s0[m]
    ensures r[..i + 1] == Insert(s0[..i], s0[i], k)
    ensures r[i + 1..] == s0[i + 1..]
  {
    var t := s0[..i];
    PosAt(t, j, s0[i], k);
    assert r[..i + 1] == t[..j] + [s0[i]] + t[j..];
  }

  /** `Pos` is the one place where every element after it ranks below `x` and the
      element before it (if any) does not. */
  lemma {:induction false} PosAt(t: seq<Shop>, j: nat, x: Shop, k: SortKey)
    requires j <= |t| && (j == 0 || Key(t[j - 1], k) >= Key(x, k))
    requires forall m :: j <= m < |t| ==> Key(t[m], k) < Key(x, k)
    ensures Pos(t, x, k) == j
  {
    if j < |t| {
      PosAt(t[..|t| - 1], j, x, k);
    }
  }
}

/** Worked examples of the ranking rules on small lists. */
module RankingExamples {
  import opened Shops
  import opened Ranking

  /** A record that differs from the others only in rating, reviews and smoking category. */
  function Sample(rating: Option<real>, reviews: Option<int>, smoking: string): Shop
  {
    Shop("", "", None, None, smoking, None, rating, reviews, None, Absent, Absent, None, "", None, None)
  }

  /** A fully smoking shop rated 4 with 100 reviews scores 8 + 2 + 1 = 11 and ranks above a
      non-smoking shop rated 5 without reviews (score 10), whichever comes first. */
  lemma ScoreExample()
    ensures Score(Sample(Some(4.0), Some(100), FULL_SMOKE)) == 11.0
    ensures Score(Sample(Some(5.0), Some(0), "不可")) == 10.0
    ensures SortDesc([Sample(Some(5.0), Some(0), "不可"), Sample(Some(4.0), Some(100), FULL_SMOKE)], ByScore)
            == [Sample(Some(4.0), Some(100), FULL_SMOKE), Sample(Some(5.0), Some(0), "不可")]
  {
    var a, b := Sample(Some(4.0), Some(100), FULL_SMOKE), Sample(Some(5.0), Some(0), "不可");
    assert b.smoking != FULL_SMOKE;
    assert [b, a][..1] == [b];
    assert [b][..0] == [];
    assert SortDesc([b], ByScore) == [b];
    assert Pos([b], a, ByScore) == 0;
    assert Insert([b], a, ByScore) == [a, b];
  }

  /** Sorting by rating puts 4.5 before 3.0 before a missing rating, which counts as 0. */
  lemma RatingExample()
    ensures var s := [Sample(Some(4.5), None, ""), Sample(Some(3.0), None, ""), Sample(None, None, "")];
            SortDesc(s, ByRating) == s
  {
    var s := [Sample(Some(4.5), None, ""), Sample(Some(3.0), None, ""), Sample(None, None, "")];
    SortDescOfOrdered(s, ByRating);
  }
}
