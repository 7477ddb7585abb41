/** Shop records, the filter criteria, and the filter step of the page's render:
    which records survive the area, smoking, feature-tag and free-text rules. */
module Shops {
  import opened Text

  datatype Option<T> = None | Some(value: T)

  /** A JSON value read where a coordinate is expected; only a `number` is usable. */
  datatype Coordinate = Absent | Number(value: real) | NotNumber

  /** The optional per-record affiliate overrides (`aff.coffee`, `aff.ashtray`). */
  datatype Affiliates = Affiliates(coffee: Option<string>, ashtray: Option<string>)

  /** One shop record of the data file. `updated` is an abstract timestamp. */
  datatype Shop = Shop(
    name: string,
    area: string,
    station: Option<string>,
    desc: Option<string>,
    smoking: string,
    features: Option<seq<string>>,
    rating: Option<real>,
    reviews: Option<int>,
    updated: Option<int>,
    lat: Coordinate,
    lng: Coordinate,
    photo: Option<string>,
    mapUrl: string,
    siteUrl: Option<string>,
    aff: Option<Affiliates>)

  /** The filter and sort selections of the page state. */
  datatype Criteria = Criteria(
    area: string,
    query: string,
    onlyFullSmoke: bool,
    hasWifi: bool,
    hasPower: bool,
    hasParking: bool,
    sort: string)

  /** The smoking category "smoking allowed throughout". */
  const FULL_SMOKE: string := "全面喫煙可"
  const WIFI: string := "Wi-Fi"
  /** Power outlets. */
  const POWER: string := "電源"
  /** Parking. */
  const PARKING: string := "駐車場"

  /** The selections the page starts with and the reset control restores. */
  function Default(): (c: Criteria)
    ensures Inactive(c)
  {
    Criteria("", "", false, false, false, false, "score")
  }

  /** A string is truthy in JavaScript when present and non-empty. */
  predicate Truthy(o: Option<string>)
  {
    o.Some? && o.value != ""
  }

  /** `x || ''` and the way `join` prints a missing value. */
  function OrEmpty(o: Option<string>): string
  {
    if o.Some? then o.value else ""
  }

  /** `s.features || []`. */
  function Features(s: Shop): seq<string>
  {
    if s.features.Some? then s.features.value else []
  }

  /** The text the free-text query is searched in: name, area, station, description,
      smoking category and every feature tag, joined by spaces and lower-cased. */
  function Haystack(s: Shop): string
  {
    Lower(Join([s.name, s.area, OrEmpty(s.station), OrEmpty(s.desc), s.smoking] + Features(s), " "))
  }

  /** The filter callback, rule by rule, each failing rule returning false at once. */
  predicate Matches(s: Shop, c: Criteria)
  {
    var q := Lower(c.query);
    if c.area != "" && s.area != c.area then false
    else if c.onlyFullSmoke && s.smoking != FULL_SMOKE then false
    else if c.hasWifi && WIFI !in Features(s) then false
    else if c.hasPower && POWER !in Features(s) then false
    else if c.hasParking && PARKING !in Features(s) then false
    else if q != "" then Contains(Haystack(s), q)
    else true
  }

  // The rules one by one, each as "inactive, or satisfied".

  predicate AreaRule(s: Shop, c: Criteria) { c.area == "" || s.area == c.area }
  predicate SmokeRule(s: Shop, c: Criteria) { !c.onlyFullSmoke || s.smoking == FULL_SMOKE }
  predicate TagRule(s: Shop, active: bool, tag: string) { !active || tag in Features(s) }

  /** The query rule without the shortcut for an empty query. */
  predicate QueryRule(s: Shop, c: Criteria) { Contains(Haystack(s), Lower(c.query)) }

  /** Criteria that impose nothing: no area, no query, every toggle off. */
  predicate Inactive(c: Criteria)
  {
    c.area == "" && c.query == "" && !c.onlyFullSmoke && !c.hasWifi && !c.hasPower && !c.hasParking
  }

  /** A shop passes the filter exactly when it satisfies every rule; skipping the
      substring test for an empty query does not change the outcome. */
  lemma MatchesIffEveryRule(s: Shop, c: Criteria)
    ensures Matches(s, c) <==>
              AreaRule(s, c) && SmokeRule(s, c) && TagRule(s, c.hasWifi, WIFI)
              && TagRule(s, c.hasPower, POWER) && TagRule(s, c.hasParking, PARKING)
              && QueryRule(s, c)
  {
    if Lower(c.query) == "" {
      ContainsEmpty(Haystack(s));
    }
  }

  /** Inactive criteria let every shop through, whatever the sort selection. */
  lemma InactiveMatchesAll(s: Shop, c: Criteria)
    requires Inactive(c)
    ensures Matches(s, c)
  {
  }

  /** The query is case-insensitive: queries with the same lower-case form select the same shops. */
  lemma QueryIgnoresCase(s: Shop, c: Criteria, query: string)
    requires Lower(query) == Lower(c.query)
    ensures Matches(s, c.(query := query)) == Matches(s, c)
  {
  }

  /** A query found in any single searched field (ignoring case) satisfies the query rule. */
  lemma QueryFoundInField(s: Shop, c: Criteria, k: nat)
    requires k < 5 + |Features(s)|
    requires Contains(Lower(([s.name, s.area, OrEmpty(s.station), OrEmpty(s.desc), s.smoking] + Features(s))[k]),
                      Lower(c.query))
    ensures QueryRule(s, c)
  {
    var parts := [s.name, s.area, OrEmpty(s.station), OrEmpty(s.desc), s.smoking] + Features(s);
    JoinHasPart(parts, " ", k);
    var pre, post :| Join(parts, " ") == pre + parts[k] + post;
    LowerAppend(pre + parts[k], post);
    LowerAppend(pre, parts[k]);
    ContainsInside(Lower(pre), Lower(parts[k]), Lower(post), Lower(c.query));
  }

  /** `shops.filter(s => Matches(s, c))`, as a specification. */
  function Filter(shops: seq<Shop>, c: Criteria): seq<Shop>
  {
    if shops == [] then []
    else
      var last := shops[|shops| - 1];
      Filter(shops[..|shops| - 1], c) + (if Matches(last, c) then [last] else [])
  }

  /** The filter keeps exactly the matching shops. */
  lemma {:induction false} FilterMembers(shops: seq<Shop>, c: Criteria)
    ensures forall x :: x in Filter(shops, c) <==> x in shops && Matches(x, c)
  {
    if shops != [] {
      FilterMembers(shops[..|shops| - 1], c);
      assert shops == shops[..|shops| - 1] + [shops[|shops| - 1]];
    }
  }

  /** The filter keeps the input order: it distributes over concatenation. */
  lemma {:induction false} FilterAppend(a: seq<Shop>, b: seq<Shop>, c: Criteria)
    ensures Filter(a + b, c) == Filter(a, c) + Filter(b, c)
  {
    if b != [] {
      FilterAppend(a, b[..|b| - 1], c);
      assert (a + b)[..|a + b| - 1] == a + b[..|b| - 1];
    } else {
      assert a + b == a;
    }
  }

  /** The filter never adds copies: each shop is kept at most as often as it occurs. */
  lemma {:induction false} FilterSubMultiset(shops: seq<Shop>, c: Criteria)
    ensures multiset(Filter(shops, c)) <= multiset(shops)
    ensures |Filter(shops, c)| <= |shops|
  {
    if shops != [] {
      FilterSubMultiset(shops[..|shops| - 1], c);
      assert shops == shops[..|shops| - 1] + [shops[|shops| - 1]];
    }
  }

  /** Filtering an already filtered list with the same criteria changes nothing. */
  lemma {:induction false} FilterIdempotent(shops: seq<Shop>, c: Criteria)
    ensures Filter(Filter(shops, c), c) == Filter(shops, c)
  {
    if shops != [] {
      var init, last := shops[..|shops| - 1], shops[|shops| - 1];
      FilterIdempotent(init, c);
      FilterAppend(Filter(init, c), if Matches(last, c) then [last] else [], c);
      if Matches(last, c) {
        assert Filter([last], c) == Filter([], c) + [last];
      }
    }
  }

  /** With inactive criteria the filter keeps every shop, in order. */
  lemma {:induction false} FilterInactive(shops: seq<Shop>, c: Criteria)
    requires Inactive(c)
    ensures Filter(shops, c) == shops
  {
    if shops != [] {
      FilterInactive(shops[..|shops| - 1], c);
    }
  }

  /** The filter callback applied in a loop, building a new list. */
  method FilterShops(shops: seq<Shop>, c: Criteria) returns (list: seq<Shop>)
    ensures list == Filter(shops, c)
  {
    list := [];
    for i := 0 to |shops|
      invariant list == Filter(shops[..i], c)
    {
      assert shops[..i + 1][..i] == shops[..i];
      if Matches(shops[i], c) {
        list := list + [shops[i]];
      }
    }
    assert shops[..|shops|] == shops;
  }
}
