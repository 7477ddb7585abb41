/** The page state (`STATE`), the render that recomputes the shown list from it,
    and the event handlers that change one selection at a time or reset them all. */
module Page {
  import opened Text
  import opened Shops
  import opened Ranking
  import opened Markers
  import opened Cards

  /** The list a render shows for given records and selections: the matching
      shops, sorted by the selected key. */
  function View(shops: seq<Shop>, c: Criteria): seq<Shop>
  {
    SortDesc(Filter(shops, c), KeyOf(c.sort))
  }

  /** The shown list holds exactly the matching shops, each as often as the
      records hold it, non-increasing in the selected key, with shops of equal
      key in record order. */
  lemma ViewContents(shops: seq<Shop>, c: Criteria)
    ensures forall x :: x in View(shops, c) <==> x in shops && Matches(x, c)
    ensures multiset(View(shops, c)) == multiset(Filter(shops, c)) <= multiset(shops)
    ensures Ordered(View(shops, c), KeyOf(c.sort))
    ensures forall v :: Tier(View(shops, c), KeyOf(c.sort), v) == Tier(Filter(shops, c), KeyOf(c.sort), v)
  {
    var k := KeyOf(c.sort);
    SortDescPermutes(Filter(shops, c), k);
    SortDescOrdered(Filter(shops, c), k);
    FilterMembers(shops, c);
    FilterSubMultiset(shops, c);
    forall v
      ensures Tier(View(shops, c), k, v) == Tier(Filter(shops, c), k, v)
    {
      SortDescStable(Filter(shops, c), k, v);
    }
    forall x
      ensures x in View(shops, c) <==> x in Filter(shops, c)
    {
      assert x in View(shops, c) <==> x in multiset(View(shops, c));
      assert x in Filter(shops, c) <==> x in multiset(Filter(shops, c));
    }
  }

  /** With the default selections every record is shown, reordered only by the score. */
  lemma DefaultView(shops: seq<Shop>)
    ensures View(shops, Default()) == SortDesc(shops, ByScore)
    ensures multiset(View(shops, Default())) == multiset(shops)
  {
    FilterInactive(shops, Default());
    SortDescPermutes(shops, ByScore);
  }

  /** Re-filtering the shown list with the same selections drops nothing. */
  lemma ViewRefilter(shops: seq<Shop>, c: Criteria)
    ensures Filter(View(shops, c), c) == View(shops, c)
  {
    var v := View(shops, c);
    ViewContents(shops, c);
    FilterKeepsMatching(v, c);
  }

  lemma {:induction false} FilterKeepsMatching(s: seq<Shop>, c: Criteria)
    requires forall x :: x in s ==> Matches(x, c)
    ensures Filter(s, c) == s
  {
    if s != [] {
      FilterKeepsMatching(s[..|s| - 1], c);
    }
  }

  /** The loop that fills the card container: one card per shop, in list order. */
  method BuildCards(list: seq<Shop>, assoc: Option<string>) returns (cards: seq<Card>)
    ensures cards == CardsOf(list, assoc)
  {
    cards := [];
    for i := 0 to |list|
      invariant |cards| == i
      invariant forall m :: 0 <= m < i ==> cards[m] == CardOf(list[m], assoc)
    {
      cards := cards + [CardOf(list[i], assoc)];
    }
  }

  /** The page state: the loaded records, the selections, what was last rendered
      (the shown list and its cards) and the map. */
  class Store {
    var shops: seq<Shop>
    var filtered: seq<Shop>
    var area: string
    var query: string
    var onlyFullSmoke: bool
    var hasWifi: bool
    var hasPower: bool
    var hasParking: bool
    var sort: string
    /** The cards in the card container, in order. */
    var cards: seq<Card>
    /** The tracking tag used in fallback affiliate links (`window.ASSOC`). */
    const assoc: Option<string>
    const mapView: MapView

    /** The selections, as one value. */
    function Current(): Criteria
      reads this`area, this`query, this`onlyFullSmoke, this`hasWifi, this`hasPower, this`hasParking, this`sort
    {
      Criteria(area, query, onlyFullSmoke, hasWifi, hasPower, hasParking, sort)
    }

    /** What a render leaves behind: the shown list, one card per shown shop, and
        one marker per located shown shop. */
    ghost predicate Shown()
      reads this, mapView
    {
      filtered == View(shops, Current())
      && cards == CardsOf(filtered, assoc)
      && mapView.layer == PointsOf(filtered)
    }

    /** The initial state: no records, nothing shown, default selections, a fresh map. */
    constructor (assoc: Option<string>)
      ensures shops == [] && filtered == [] && cards == []
      ensures Current() == Default()
      ensures this.assoc == assoc
      ensures fresh(mapView) && mapView.layer == []
      ensures mapView.viewport == Centered(INITIAL_CENTER, INITIAL_ZOOM)
    {
      shops, filtered, cards := [], [], [];
      area, query := "", "";
      onlyFullSmoke, hasWifi, hasPower, hasParking := false, false, false, false;
      sort := "score";
      this.assoc := assoc;
      mapView := new MapView();
    }

    /** `STATE.shops = json.shops || []`. */
    method Load(data: Option<seq<Shop>>)
      modifies this`shops
      ensures shops == if data.Some? then data.value else []
    {
      shops := if data.Some? then data.value else [];
    }

    /** `render()`: filter the records into a new list, sort that list in place,
        keep it as the shown list, rebuild the cards and update the map. The
        records and the selections are left as they are. */
    method Render()
      modifies this`filtered, this`cards, mapView
      ensures Shown()
      ensures mapView.viewport ==
                if mapView.layer == [] then old(mapView.viewport) else Fitted(mapView.layer, FIT_PADDING)
    {
      var crit := Current();
      var list := FilterShops(shops, crit);
      var a := new Shop[|list|](i requires 0 <= i < |list| => list[i]);
      assert a[..] == list;
      SortByKey(a, KeyOf(crit.sort));
      var shown := a[..];
      filtered := shown;
      cards := BuildCards(shown, assoc);
      mapView.Update(shown);
    }

    /** The area selector changed (also how an area preset is applied). */
    method SetArea(value: string)
      modifies this, mapView
      ensures Current() == old(Current()).(area := value)
      ensures shops == old(shops) && Shown()
      ensures mapView.viewport ==
                if mapView.layer == [] then old(mapView.viewport) else Fitted(mapView.layer, FIT_PADDING)
    {
      area := value;
      Render();
    }

    /** The search box changed: the query is stored trimmed. */
    method SetQuery(value: string)
      modifies this, mapView
      ensures Current() == old(Current()).(query := Trim(value))
      ensures shops == old(shops) && Shown()
      ensures mapView.viewport ==
                if mapView.layer == [] then old(mapView.viewport) else Fitted(mapView.layer, FIT_PADDING)
    {
      query := Trim(value);
      Render();
    }

    method SetOnlyFullSmoke(checked: bool)
      modifies this, mapView
      ensures Current() == old(Current()).(onlyFullSmoke := checked)
      ensures shops == old(shops) && Shown()
      ensures mapView.viewport ==
                if mapView.layer == [] then old(mapView.viewport) else Fitted(mapView.layer, FIT_PADDING)
    {
      onlyFullSmoke := checked;
      Render();
    }

    method SetHasWifi(checked: bool)
      modifies this, mapView
      ensures Current() == old(Current()).(hasWifi := checked)
      ensures shops == old(shops) && Shown()
      ensures mapView.viewport ==
                if mapView.layer == [] then old(mapView.viewport) else Fitted(mapView.layer, FIT_PADDING)
    {
      hasWifi := checked;
      Render();
    }

    method SetHasPower(checked: bool)
      modifies this, mapView
      ensures Current() == old(Current()).(hasPower := checked)
      ensures shops == old(shops) && Shown()
      ensures mapView.viewport ==
                if mapView.layer == [] then old(mapView.viewport) else Fitted(mapView.layer, FIT_PADDING)
    {
      hasPower := checked;
      Render();
    }

    method SetHasParking(checked: bool)
      modifies this, mapView
      ensures Current() == old(Current()).(hasParking := checked)
      ensures shops == old(shops) && Shown()
      ensures mapView.viewport ==
                if mapView.layer == [] then old(mapView.viewport) else Fitted(mapView.layer, FIT_PADDING)
    {
      hasParking := checked;
      Render();
    }

    /** The sort selector changed. */
    method SetSort(value: string)
      modifies this, mapView
      ensures Current() == old(Current()).(sort := value)
      ensures shops == old(shops) && Shown()
      ensures mapView.viewport ==
                if mapView.layer == [] then old(mapView.viewport) else Fitted(mapView.layer, FIT_PADDING)
    {
      sort := value;
      Render();
    }

    /** The reset control: every selection back to its default, then a render,
        which then shows every record, ordered by score. */
    method Reset()
      modifies this, mapView
      ensures Current() == Default()
      ensures shops == old(shops) && Shown()
      ensures mapView.viewport ==
                if mapView.layer == [] then old(mapView.viewport) else Fitted(mapView.layer, FIT_PADDING)
      ensures filtered == SortDesc(shops, ByScore)
      ensures multiset(filtered) == multiset(shops)
    {
      area, query, sort := "", "", "score";
      onlyFullSmoke, hasWifi, hasPower, hasParking := false, false, false, false;
      assert Current() == Default();
      Render();
      assert filtered == View(shops, Default());
      DefaultView(shops);
    }
  }
}
