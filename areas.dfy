/** The options of the area selector: every area that occurs in the data, once,
    in the default `sort()` order of strings. */
module Areas {
  import opened Text
  import opened Shops

  /** Strictly increasing, hence free of duplicates. */
  predicate Ascending(s: seq<string>)
  {
    forall i, j :: 0 <= i < j < |s| ==> LexLess(s[i], s[j])
  }

  /** Adds `a` to an ascending list of distinct areas, unless it is there already. */
  function InsertArea(t: seq<string>, a: string): (r: seq<string>)
    requires Ascending(t)
    ensures Ascending(r)
    ensures forall b :: b in r <==> b in t || b == a
    decreases |t|
  {
    if t == [] then [a]
    else if a == t[0] then t
    else if LexLess(a, t[0]) then
      assert forall j :: 0 < j < |t| ==> LexLess(a, t[j]) by {
        forall j | 0 < j < |t| ensures LexLess(a, t[j]) {
          LexLessTransitive(a, t[0], t[j]);
        }
      }
      [a] + t
    else
      LexLessTotal(a, t[0]);
      assert Ascending(t[1..]) by {
        forall i, j | 0 <= i < j < |t| - 1 ensures LexLess(t[1..][i], t[1..][j]) {
          assert t[1..][i] == t[i + 1] && t[1..][j] == t[j + 1];
        }
      }
      var rest := InsertArea(t[1..], a);
      assert forall b :: b in t[1..] ==> LexLess(t[0], b);
      [t[0]] + rest
  }

  /** `Array.from(new Set(shops.map(s => s.area))).sort()`. */
  function AreaOptions(shops: seq<Shop>): (r: seq<string>)
    ensures Ascending(r)
    ensures forall a :: a in r <==> exists i :: 0 <= i < |shops| && shops[i].area == a
  {
    if shops == [] then []
    else
      var init := shops[..|shops| - 1];
      var prev := AreaOptions(init);
      assert forall i :: 0 <= i < |init| ==> init[i] == shops[i];
      InsertArea(prev, shops[|shops| - 1].area)
  }

  /** No area is offered twice. */
  lemma AreaOptionsDistinct(shops: seq<Shop>, i: nat, j: nat)
    requires i < j < |AreaOptions(shops)|
    ensures AreaOptions(shops)[i] != AreaOptions(shops)[j]
  {
    LexLessIrreflexive(AreaOptions(shops)[i]);
  }
}
