/** The fields of a shop card and the fallbacks used when a record lacks a value. */
module Cards {
  import opened Text
  import opened Shops

  /** What a card shows. `rating` is None when the card shows the dash placeholder;
      `imageSrc` is None when the template's image source is left in place;
      `siteHref` is None when the site link is hidden. */
  datatype Card = Card(
    badge: string,
    name: string,
    areaLine: string,
    rating: Option<real>,
    reviews: int,
    features: string,
    desc: string,
    imageSrc: Option<string>,
    imageAlt: string,
    mapHref: string,
    siteHref: Option<string>,
    coffeeHref: string,
    ashtrayHref: string)

  /** The station label shown when a record names no station ("nearest station unknown"). */
  const UNKNOWN_STATION: string := "最寄り不明"
  /** Separator between the area and the station. */
  const AREA_SEPARATOR: string := "｜"
  /** Separator between feature tags. */
  const FEATURE_SEPARATOR: string := "・"
  /** Alt-text suffix with a photo ("exterior or interior photo of"). */
  const PHOTO_ALT: string := "の外観または内観写真"
  /** Alt-text suffix without a photo ("image of"). */
  const NO_PHOTO_ALT: string := "の画像"
  /** Fallback search for coffee beans, waiting for the tracking tag. */
  const COFFEE_SEARCH: string := "https://www.amazon.co.jp/s?k=%E3%82%B3%E3%83%BC%E3%83%92%E3%83%BC%E8%B1%86&tag="
  /** Fallback search for portable ashtrays, waiting for the tracking tag. */
  const ASHTRAY_SEARCH: string := "https://www.amazon.co.jp/s?k=%E6%90%BA%E5%B8%AF%E7%81%AB%E7%AE%A1&tag="

  /** `(s.aff && s.aff.coffee) ? s.aff.coffee : fallback`. */
  function CoffeeOverride(s: Shop): Option<string>
  {
    if s.aff.Some? && Truthy(s.aff.value.coffee) then s.aff.value.coffee else None
  }

  function AshtrayOverride(s: Shop): Option<string>
  {
    if s.aff.Some? && Truthy(s.aff.value.ashtray) then s.aff.value.ashtray else None
  }

  /** `card(s)`, given the page's tracking tag `assoc` (`window.ASSOC`). */
  function CardOf(s: Shop, assoc: Option<string>): Card
  {
    Card(
      badge := s.smoking,
      name := s.name,
      areaLine := s.area + AREA_SEPARATOR + (if Truthy(s.station) then s.station.value else UNKNOWN_STATION),
      rating := s.rating,
      reviews := if s.reviews.Some? then s.reviews.value else 0,
      features := Join(Features(s), FEATURE_SEPARATOR),
      desc := OrEmpty(s.desc),
      imageSrc := if Truthy(s.photo) then s.photo else None,
      imageAlt := s.name + (if Truthy(s.photo) then PHOTO_ALT else NO_PHOTO_ALT),
      mapHref := s.mapUrl,
      siteHref := if Truthy(s.siteUrl) then s.siteUrl else None,
      coffeeHref := if CoffeeOverride(s).Some? then CoffeeOverride(s).value else COFFEE_SEARCH + OrEmpty(assoc),
      ashtrayHref := if AshtrayOverride(s).Some? then AshtrayOverride(s).value else ASHTRAY_SEARCH + OrEmpty(assoc))
  }

  /** The area line is the area, the separator, then a station label that is never
      empty: the record's station when it has a non-empty one, otherwise the
      "nearest station unknown" placeholder. */
  lemma CardAreaLine(s: Shop, assoc: Option<string>)
    ensures var line := CardOf(s, assoc).areaLine;
            |line| > |s.area| + |AREA_SEPARATOR|
            && line[..|s.area| + |AREA_SEPARATOR|] == s.area + AREA_SEPARATOR
            && (Truthy(s.station) ==> line[|s.area| + |AREA_SEPARATOR|..] == s.station.value)
            && (!Truthy(s.station) ==> line[|s.area| + |AREA_SEPARATOR|..] == UNKNOWN_STATION)
  {
    var line := CardOf(s, assoc).areaLine;
    var tail := if Truthy(s.station) then s.station.value else UNKNOWN_STATION;
    assert line == (s.area + AREA_SEPARATOR) + tail;
  }

  /** The site link is shown exactly when the record has a non-empty site URL, and
      then it is that URL. */
  lemma CardSiteLink(s: Shop, assoc: Option<string>)
    ensures CardOf(s, assoc).siteHref.Some? <==> Truthy(s.siteUrl)
    ensures CardOf(s, assoc).siteHref.Some? ==> CardOf(s, assoc).siteHref == s.siteUrl
  {
  }

  /** Each affiliate link is never empty: the record's own non-empty override, or
      else the search page followed by the tracking tag (empty when the page has none). */
  lemma CardAffiliateLinks(s: Shop, assoc: Option<string>)
    ensures var c := CardOf(s, assoc);
            c.coffeeHref != "" && c.ashtrayHref != ""
            && (CoffeeOverride(s).Some? ==> c.coffeeHref == CoffeeOverride(s).value)
            && (CoffeeOverride(s).None? ==> c.coffeeHref == COFFEE_SEARCH + OrEmpty(assoc))
            && (AshtrayOverride(s).Some? ==> c.ashtrayHref == AshtrayOverride(s).value)
            && (AshtrayOverride(s).None? ==> c.ashtrayHref == ASHTRAY_SEARCH + OrEmpty(assoc))
  {
  }

  /** The image source is the photo exactly when the record has a non-empty one; the
      image text is the shop's name followed by the photo caption when there is a
      photo, and by the generic image caption otherwise. */
  lemma CardImage(s: Shop, assoc: Option<string>)
    ensures var c := CardOf(s, assoc);
            (c.imageSrc.Some? <==> Truthy(s.photo))
            && (c.imageSrc.Some? ==> c.imageSrc == s.photo)
            && |c.imageAlt| > |s.name| && c.imageAlt[..|s.name|] == s.name
            && c.imageAlt[|s.name|..] == (if Truthy(s.photo) then PHOTO_ALT else NO_PHOTO_ALT)
  {
  }

  /** The cards of the rendered list, one per shop, in list order. */
  function CardsOf(list: seq<Shop>, assoc: Option<string>): seq<Card>
  {
    seq(|list|, i requires 0 <= i < |list| => CardOf(list[i], assoc))
  }
}
