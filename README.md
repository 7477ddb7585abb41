# Smoking-shop directory: filter, sort and page state

This project models the client-side core of a static directory page for cafés and
shops where smoking is allowed. The page loads a list of shop records. A single
mutable state object holds the records, the user's selections and the list shown
last. Each change to a control updates one selection and re-renders:

- the records are filtered by area, by the "smoking allowed throughout" category,
  by the Wi-Fi, power-outlet and parking tags, and by a case-insensitive free-text
  query;
- the matches are sorted in place, in descending order, by rating, review count,
  last update or a composite score;
- the cards are rebuilt, and the map markers are replaced.

The model is split into these modules:

- Text: the JavaScript string built-ins the page uses (`toLowerCase`, `includes`,
  `join`, `trim`, and the default string order of `sort`).
- Shops: the record, the criteria, the filter predicate, `Filter` as a
  specification and `FilterShops` as its loop.
- Ranking: the comparator for each sort selection, `SortDesc`, and the in-place
  array sort `SortByKey` proved equal to it. `SortDesc` is a stable descending
  sort by key used as the specification.
- Areas: the options of the area selector.
- Markers: which shops get a map marker, and the `MapView` class that holds the
  marker layer and the viewport.
- Cards: the fields of a card and their fallbacks.
- Page: the `Store` class (the state object), `Render`, the event handlers and
  reset.

The main results are these:

- A shop is shown if and only if it passes every active rule.
- The shown list is a permutation of the matching shops. It is non-increasing in
  the selected key. Shops with equal keys keep their record order.
- Any ordered, stable reordering equals `SortDesc`, so the result does not depend
  on which sort algorithm the engine uses.
- With the default selections every record is shown, ordered by score. Reset
  restores exactly those selections.
- `Render` may change only the shown list, the cards and the map. Its `modifies`
  clause does not include the records.
- Each handler changes exactly one selection.

Numbers are exact: ratings are reals, review counts are integers, and the
`updated` field is an abstract integer timestamp.

## Model

| member | source | states |
|---|---|---|
| `Text.TrimSpec` | app.js:52 | the stored query is the input with its leading and trailing white space removed: it is an infix of the input, only white space surrounds it, and it neither starts nor ends with white space |
| `Text.TrimStartSpec` | app.js:52 | removing leading white space leaves a suffix that does not start with white space, and only white space was dropped |
| `Text.TrimEndSpec` | app.js:52 | removing trailing white space leaves a prefix that does not end with white space, and only white space was dropped |
| `Text.JoinHasPart` | app.js:73 | every searched field appears intact inside the space-joined search text |
| `Text.LexLessTotal` | app.js:43 | the default string order of `sort()` orders any two different strings |
| `Text.LexLessTransitive` | app.js:43 | the default string order is transitive |
| `Shops.Default` | app.js:1 | the initial selections (no area, no query, every toggle off, sort "score") impose no filter rule |
| `Shops.MatchesIffEveryRule` | app.js:66-77 | a shop passes the filter callback iff the area rule, the full-smoking rule, the three feature-tag rules and the substring rule all hold; skipping the substring test for an empty lower-cased query changes nothing |
| `Shops.InactiveMatchesAll` | app.js:67-75 | with no area, no query and every toggle off, every shop passes |
| `Shops.QueryIgnoresCase` | app.js:65-74 | two queries with the same lower-case form select the same shops |
| `Shops.QueryFoundInField` | app.js:72-74 | a query that occurs, ignoring case, in the name, area, station, description, smoking category or any feature tag satisfies the query rule |
| `Shops.FilterMembers` | app.js:66-77 | the filtered list holds a shop iff the records hold it and it passes the callback |
| `Shops.FilterAppend` | app.js:66 | filtering keeps record order: it distributes over concatenation |
| `Shops.FilterSubMultiset` | app.js:66 | filtering adds no shop and no copy: the result is a sub-multiset of the records |
| `Shops.FilterIdempotent` | app.js:66-77 | filtering twice with the same criteria gives the same list as filtering once |
| `Shops.FilterInactive` | app.js:66-77 | with inactive criteria the filtered list equals the records, in order |
| `Shops.FilterShops` | app.js:66-77 | the filter loop builds exactly `Filter(shops, c)` |
| `Ranking.KeyOf` | app.js:78-85 | any sort selection other than "rating", "reviews" and "updated" selects the composite score |
| `Ranking.Compare` | app.js:79-86 | the comparator is positive exactly when the second shop has the greater key and zero exactly when the keys are equal, so sorting with it puts larger keys first; missing values count as 0 |
| `Ranking.SortDescPermutes` | app.js:79-86 | the sorted list is a permutation of its input |
| `Ranking.SortDescOrdered` | app.js:79-86 | the sorted list is non-increasing in the selected key |
| `Ranking.SortDescStable` | app.js:79-86 | for every key value, the shops with that key appear in the same relative order before and after sorting |
| `Ranking.SortDescOfOrdered` | app.js:79-86 | a list already in key order is left unchanged |
| `Ranking.StableOrderUnique` | app.js:79-86 | two lists in key order that agree on every equal-key group are equal, so every stable sort with this comparator gives one result |
| `Ranking.SortDescUnique` | app.js:79-86 | any reordering that is in key order and keeps every equal-key group in input order is `SortDesc` |
| `Ranking.SortByKey` | app.js:79-86 | the in-place sort of the filtered array leaves it equal to `SortDesc` of its old contents |
| `Ranking.InsertLast` | app.js:79-86 | one insertion step moves the element past exactly the elements the comparator ranks below it and leaves the rest of the array alone |
| `RankingExamples.ScoreExample` | app.js:83-85 | rating 4, 100 reviews and full smoking score 11; rating 5, no reviews and not full smoking score 10; the first ranks above the second |
| `RankingExamples.RatingExample` | app.js:80 | sorting by rating keeps 4.5, 3.0, missing (counted as 0) in that order |
| `Areas.AreaOptions` | app.js:43 | the area options are strictly ascending in the default string order and are exactly the areas that occur in the records |
| `Areas.AreaOptionsDistinct` | app.js:43 | no area option appears twice |
| `Markers.PointsOfMembers` | app.js:15-21 | every shop with numeric latitude and longitude has its marker, and every marker belongs to such a shop |
| `Markers.PointsOfAppend` | app.js:15-21 | markers follow list order |
| `Markers.PointsOfEmpty` | app.js:14-24 | there are no markers, so no viewport refit, exactly when no listed shop has numeric coordinates |
| `Markers.MapView.constructor` | app.js:5-10 | the map starts at center (35.12, 138.92), zoom 11, with an empty marker layer |
| `Markers.MapView.Update` | app.js:11-25 | the layer is cleared and refilled with exactly the points of the located shops, in order; the viewport is fitted to them with padding 30 when there is at least one and is otherwise unchanged |
| `Cards.CardAreaLine` | app.js:110 | the area line is the area, the separator and a station label that is never empty: the record's station when it has a non-empty one, otherwise the placeholder "最寄り不明" |
| `Cards.CardSiteLink` | app.js:116 | the site link is shown iff the record has a non-empty site URL, and then it links to that URL |
| `Cards.CardAffiliateLinks` | app.js:117-118 | each affiliate link is never empty: it is the record's non-empty override, or else exactly the search URL followed by the tracking tag (empty when the page has none) |
| `Cards.CardImage` | app.js:114 | the image source is set to the photo iff the record has a non-empty one; the alternative text is the shop's name followed by the photo caption when there is a photo and by the generic image caption otherwise |
| `Page.BuildCards` | app.js:89-90 | the card container receives one card per shown shop, in order |
| `Page.ViewContents` | app.js:64-87 | the shown list holds a shop iff the records hold it and it matches; it is a permutation of the filtered list, non-increasing in the selected key, and stable |
| `Page.DefaultView` | app.js:59-87 | with the default selections the shown list is every record, reordered only by the score sort |
| `Page.ViewRefilter` | app.js:66-87 | re-filtering the shown list with the same criteria drops nothing |
| `Page.Store.constructor` | app.js:1 | the state starts with no records, nothing shown and the default selections |
| `Page.Store.Load` | app.js:29 | the records are the data file's `shops` list, or empty when the file has none |
| `Page.Store.Render` | app.js:64-92 | afterwards the shown list is the sorted filter of the records under the current selections, the cards and markers match it, and the viewport follows the marker rule; only the shown list, the cards and the map may change |
| `Page.Store.SetArea` | app.js:51 | the area selection becomes the chosen value; nothing else in the selections or the records changes; the page is re-rendered, and the viewport is refitted to the new markers, or left as it was when there are none |
| `Page.Store.SetQuery` | app.js:52 | the query becomes the trimmed input; nothing else changes; the page is re-rendered, and the viewport is refitted to the new markers, or left as it was when there are none |
| `Page.Store.SetOnlyFullSmoke` | app.js:53 | only the full-smoking toggle changes; the page is re-rendered, and the viewport is refitted to the new markers, or left as it was when there are none |
| `Page.Store.SetHasWifi` | app.js:54 | only the Wi-Fi toggle changes; the page is re-rendered, and the viewport is refitted to the new markers, or left as it was when there are none |
| `Page.Store.SetHasPower` | app.js:55 | only the power-outlet toggle changes; the page is re-rendered, and the viewport is refitted to the new markers, or left as it was when there are none |
| `Page.Store.SetHasParking` | app.js:56 | only the parking toggle changes; the page is re-rendered, and the viewport is refitted to the new markers, or left as it was when there are none |
| `Page.Store.SetSort` | app.js:57 | only the sort selection changes; the page is re-rendered, and the viewport is refitted to the new markers, or left as it was when there are none |
| `Page.Store.Reset` | app.js:58-62 | every selection returns to its default and the records are unchanged; the shown list is then every record sorted by score; the viewport is refitted to the new markers, or left as it was when there are none |

## Left out

- Loading the data file (`fetch` and `res.json()` in `boot`) and the start-up order are asynchronous I/O. `Load` takes the parsed `shops` value as a parameter. A failed fetch is unhandled in the page and is not modelled.
- The area preset from `window.AREA_PRESET` or the `area` URL parameter is read through browser APIs. Applying a preset is the same field update as `SetArea`.
- The map widget is a third-party library: tile layers, marker objects, popup HTML and the fitting computation. Markers are modelled as their points and the viewport as the last bounds fitted. The source creates the map lazily on first use; `Store` creates its `MapView` in its constructor.
- DOM work is not modelled: template cloning, the result-count label, clearing the container, the footer year, the thumbnail click handler and syncing the controls on reset. `Card` records the values the source writes into the template.
- Cards.CardOf: the rating is kept as a number instead of `toFixed(1)` text, and the dash placeholder is its absence. Number formatting is not modelled.
- Ranking.Score: exact reals replace IEEE doubles, so rounding in `rating*2 + reviews/50` is not modelled. Ratings or review counts that are not numbers are not modelled either.
- Ranking.Key: `updated` is an abstract integer timestamp instead of a date string parsed by `new Date`. An unparsable date (NaN in the comparator) is not modelled.
- Text.Lower: it lower-cases only A-Z and the full-width Latin letters. Other Unicode case mappings of `toLowerCase` are not modelled.
- Text.LexLess: it compares Unicode code points, while `sort()` compares UTF-16 code units. The two orders differ only for characters outside the Basic Multilingual Plane.
- Shops.Shop: the name, area, smoking category and map URL are always-present strings. A record missing one of them is not modelled.
- Ranking.SortByKey: the engine's sort algorithm is unspecified, so it is modelled as an insertion sort. `Ranking.SortDescUnique` shows that every stable sort with the same comparator gives the same result.
