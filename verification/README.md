# Multimodal route search for Yakutia, modelled in Dafny

This project models the core of a small travel service. The service joins
bus, air, rail and river segments into itineraries across Yakutia. The model
covers these parts of it:

- **Backend search.** Stops are matched by a text query. Itineraries are
  enumerated by depth-first search over a graph of segments, with at most
  five legs and no stop visited twice. Each path is laid out in time with a
  30-minute transfer between legs and totalled. The itineraries are then
  deduplicated per leg signature, labelled fastest, cheapest or reliable,
  and sorted.
- **Tariff store.** Fare register rows are indexed by route and by
  (route, from, to). Each list is sorted by descending start date. The fare
  in force on a date is chosen from the direct pair, then the reversed
  pair, then the route minimum.
- **GARS record shaping.** This covers the OData schedule filter, the
  per-route schedule map (the first complete row wins), and the
  transformation of tariff documents into bus segments.
- **Yandex.Rasp record shaping.** This covers code-like city names,
  resolution of a city to a settlement code (an exact title match, else a
  partial one), and the split of multi-leg search results into legs.
- **React front end.** Each component's rules are modelled:
  - the map's coordinate lookup and polylines;
  - the selection and details state of the results page;
  - the route list, route card and details wording;
  - the purchase price breakdown and the per-passenger tickets;
  - the account page's ticket normalisation, profile save and hint dialog;
  - registration validation;
  - the search form's swap and demo buttons.

Components that hold state are classes. Their methods `modify` those fields
and state the whole new state. What they derive is a function with its
lemmas. Loops of the original are methods with invariants, proved equal to
a specification function. Outside inputs are parameters, never effects:
fetched JSON, the clock, string-to-number and ISO-date parsing, and HTTP
outcomes.

Time is counted in whole minutes. Prices in the search are integers; fares
and front-end amounts are reals. Python object identity (`is`) is modelled
by position in a list.

## Model

| member | source | states |
|---|---|---|
| RouteSearch.NormalizeName | backend/main.py:41-42 | the normalised name is no longer than the input and has no surrounding whitespace |
| RouteSearch.NormalizeNameInsensitive | backend/main.py:41-42 | normalising is idempotent and ignores letter case and surrounding whitespace |
| RouteSearch.MatchesSpec | backend/main.py:50-52 | a stop matches iff the normalised query is non-empty and a substring of the stop's normalised name or city |
| RouteSearch.MatchesInsensitive | backend/main.py:46-52 | lower-casing or trimming the query does not change which stops match |
| RouteSearch.MatchingIdsMembers | backend/main.py:45-55 | an id is returned iff some stop with that id matches the query |
| RouteSearch.MatchingIdsConcat | backend/main.py:49-55 | ids come back in stop-list order: the ids for a concatenated list are the ids for each part, concatenated |
| RouteSearch.BlankQueryMatchesNothing | backend/main.py:46-52 | a blank or all-whitespace query matches no stop |
| RouteSearch.ByIdSpec | backend/main.py:79 | the id index has exactly the ids of the stop list, each mapped to the last stop with that id |
| RouteSearch.GraphOfSpec | backend/main.py:122-126 | the outgoing list of a stop is exactly the segments leaving it, in segment order, and only stops with a leaving segment are keys |
| RouteSearch.GraphOfKeyed | backend/main.py:124-126 | every segment in the graph is filed under the stop it leaves |
| RouteSearch.DfsSound | backend/main.py:218-231 | every path the recursive search yields from a partial path extends it to a valid route |
| RouteSearch.DfsExact | backend/main.py:218-234 | from one start, a path is found iff it is a valid route: 1 to 5 legs, chained, no revisited stop, and only the last leg reaching a destination |
| RouteSearch.AllPathsExact | backend/main.py:233-234 | over all starts, a path is found iff it is a valid route from one of the starts |
| RouteSearch.SearchIndex.Load | backend/main.py:79-126 | loading the stops and segments builds the id index and the graph the search invariant needs |
| RouteSearch.SearchIndex.FindStopIds | backend/main.py:45-55 | the loop returns exactly the ids of matching stops, in stop-list order |
| RouteSearch.SearchIndex.BuildRoute | backend/main.py:135-207 | the itinerary has the given path, id, price total, risk, chained timing and stop names, and no label |
| RouteSearch.SearchIndex.Dfs | backend/main.py:218-231 | the recursive search appends, one for one, the built itineraries of the paths the search specification yields |
| RouteSearch.SearchIndex.SearchAll | backend/main.py:233-234 | the routes found from all starts, one built itinerary per valid path |
| RouteSearch.BuiltFromUnique | backend/main.py:135-207 | building is deterministic: two itinerary lists built from the same paths are equal |
| RouteSearch.SelectionComplete | backend/main.py:215-312 | every valid path from any start is represented, by signature, in the selection of the routes built from all found paths |
| RouteSearch.SearchIndex.SearchRoutes | backend/main.py:215-312 | no route iff no path; the result is the deduplicated, labelled and sorted list of the itineraries built from every found path; every valid path from a start to a destination is represented by a result with its signature; each result is a well-built valid route; exactly one is fastest and it comes first; at most one is cheapest and one reliable; each label marks a true minimum; the result is sorted |
| RouteSearch.SearchIndex.ApiRoutes | backend/main.py:316-338 | no routes when either query matches no stop; otherwise the result is the deduplicated, labelled and sorted list of the itineraries built from every path between the matched stops, so every valid path is represented by a result with its signature; each result is a valid route between the matched stops; a non-empty result has exactly one fastest and it comes first, at most one cheapest and one reliable, each label on a minimum, sorted |
| Itineraries.ArrivalSpan | backend/main.py:159-176 | with each leg leaving 30 minutes after the previous arrival, the time from first departure to the k-th arrival is the durations plus 30 minutes per transfer |
| Itineraries.TotalTimeIsDurationsPlusTransfers | backend/main.py:193-194 | a multi-leg itinerary's total time is the sum of durations plus 30 minutes per transfer |
| Itineraries.RiskProductBounds | backend/main.py:191-205 | with leg risks between 0 and 1, the product of complements, and so the route risk, stays between 0 and 1 |
| Itineraries.TotalPriceCoversLegs | backend/main.py:136 | with non-negative prices the total is at least each leg's price |
| Itineraries.NonNegativeTotal | backend/main.py:136 | with non-negative prices the total is non-negative |
| RouteRanking.FirstMin | backend/main.py:277-294 | the chosen itinerary has the least measure, and it is the first with that measure, as Python's `min` picks |
| RouteRanking.Signature | backend/main.py:242-251 | a signature has one (from, to, type, operator, source) entry per leg |
| RouteRanking.SigsMembers | backend/main.py:241-252 | the signature list holds exactly the signatures of the itineraries, each once |
| RouteRanking.Group | backend/main.py:252 | a group holds only itineraries with its signature |
| RouteRanking.Picks | backend/main.py:277-282 | a group contributes one or two of its own itineraries |
| RouteRanking.GroupBySignature | backend/main.py:239-252 | the loop yields the signatures in first-seen order, and under each one exactly its itineraries in order |
| RouteRanking.DeduplicatedPerSignature | backend/main.py:271-284 | per signature the output keeps the cheapest and, if different, the fastest of its group, so at most 2 per signature |
| RouteRanking.DeduplicatedSubset | backend/main.py:271-287 | deduplication only keeps found itineraries and keeps at least one when there was one |
| RouteRanking.Deduplicate | backend/main.py:271-284 | the loop computes the deduplicated list |
| RouteRanking.AssignLabels | backend/main.py:289-300 | all labels are cleared, then fastest is set, cheapest only if it is not the fastest, and reliable only if the safest is neither |
| RouteRanking.LabelCounts | backend/main.py:289-300 | exactly one fastest, at most one cheapest and one reliable, and each label marks a minimum of its measure |
| RouteRanking.SortRoutesCorrect | backend/main.py:302-312 | the sorted list is ordered by (label rank, measure) and is a permutation of the input |
| RouteRanking.SortRoutesStable | backend/main.py:312 | itineraries with equal sort keys keep their relative order |
| RouteRanking.SortRoutesCounts | backend/main.py:312 | sorting keeps the number of each label |
| RouteRanking.SortedOrder | backend/main.py:302-312 | in a sorted list the fastest comes first, then cheapest, reliable and unlabelled, and unlabelled ones by ascending time |
| RouteRanking.SelectedPerSignature | backend/main.py:271-312 | per signature the selection holds, up to the label, exactly the one or two picks of that signature's group, and a signature that occurs in the input occurs in the output |
| RouteRanking.SelectRoutes | backend/main.py:236-312 | the result is exactly deduplication, then labelling, then sorting of the input; empty iff no input, every output is an input with a label, label counts and minimality hold, sorted |
| Tariffs.FirstTruthySpec | backend/gars_tariffs.py:37-41 | nothing is found iff no listed field is present and truthy; otherwise the value of the first such field |
| Tariffs.GetFirst | backend/gars_tariffs.py:37-41 | the early-return loop returns the first present, truthy field's value |
| Tariffs.RowOfSkips | backend/gars_tariffs.py:80-96 | a row is skipped iff `Active` is literally false, the route key or price is missing or falsy, or the price is not numeric |
| Tariffs.ZeroTariffSkipped | backend/gars_tariffs.py:86-90 | a tariff of 0 counts as missing, so the row is skipped |
| Tariffs.RowOfAccepts | backend/gars_tariffs.py:85-99 | an accepted row carries the first truthy route, from and to keys, the parsed price and the parsed start date |
| Tariffs.AcceptedRowsMembers | backend/gars_tariffs.py:80-99 | a tariff row is accepted iff some register row converts to it |
| Tariffs.FilterMembers | backend/gars_tariffs.py:153-157 | the filtered rows are exactly the rows the condition keeps |
| Tariffs.RouteIndexSpec | backend/gars_tariffs.py:104 | under each route key the index lists exactly that route's accepted rows in order, and no list is empty |
| Tariffs.DirectIndexSpec | backend/gars_tariffs.py:101-102 | under each (route, from, to) key the index lists exactly the accepted rows with both points and that key |
| Tariffs.SortByDateCorrect | backend/gars_tariffs.py:106-109 | each list ends up sorted by descending start date, undated rows last, as a permutation that keeps insertion order among rows of equal date |
| Tariffs.SortEach | backend/gars_tariffs.py:106-109 | the loops sort every list of an index |
| Tariffs.TariffStore.constructor | backend/gars_tariffs.py:76-109 | the store holds the sorted route and direct indexes of all accepted rows, and satisfies the store invariant |
| Tariffs.TariffStore.AddRecordSet | backend/gars_tariffs.py:81-104 | one document's rows extend both indexes by its accepted rows |
| Tariffs.TariffStore.AddRow | backend/gars_tariffs.py:82-104 | a skipped row changes nothing; an accepted row is appended to its route list, and to its direct list when both points are present |
| Tariffs.TariffStore.SortLists | backend/gars_tariffs.py:106-109 | after the loops both indexes are sorted and the store invariant holds |
| Tariffs.IndexesValid | backend/gars_tariffs.py:101-109 | the sorted indexes are non-empty, sorted, hold only rows of their key, and every direct row is also in its route list |
| Tariffs.PickedByDate | backend/gars_tariffs.py:112-125 | no row iff the list is empty; otherwise the pick is one of the rows |
| Tariffs.PickByDate | backend/gars_tariffs.py:112-125 | the two early-return scans compute the date pick |
| Tariffs.PickedByDateSpec | backend/gars_tariffs.py:117-125 | on a sorted list: the latest row dated on or before the date, else an undated row, else the latest-dated row |
| Tariffs.MinOf | backend/gars_tariffs.py:159-161 | the minimum is one of the prices and no price is below it |
| Tariffs.TariffStore.MinPriceForRoute | backend/gars_tariffs.py:145-161 | none iff the route has no rows; otherwise the least price among rows in force on the date, or among all rows when none is in force |
| Tariffs.TariffStore.GetBasePrice | backend/gars_tariffs.py:127-143 | the method computes the direct, then reversed, then route-minimum price |
| Tariffs.TariffStore.BasePriceSpec | backend/gars_tariffs.py:127-151 | none iff the route has no accepted row; the price is that of a direct-pair row when one exists, else of a reversed-pair row, and always of a row of the route |
| Tariffs.PriceForSegment | backend/gars_tariffs.py:186-199 | the segment price is the base price; benefit codes and the fee flag have no effect |
| GarsClient.DateTextRoundTrip | backend/gars_client.py:33-38 | the `%Y-%m-%d` text of a valid date reads back as that date |
| GarsClient.ScheduleFilter | backend/gars_client.py:33-40 | the filter is the head, the first date, the middle, the second date and the tail, each date 10 characters long |
| GarsClient.ScheduleFilterInjective | backend/gars_client.py:33-40 | the filter spans midnight of the first day to 23:59:59 of the second, and different periods give different filters |
| GarsClient.ScheduleForPeriod | backend/gars_client.py:32-47 | an HTTP status error gives the empty list, other failures propagate, and otherwise the fetched rows |
| GarsClient.ScheduleOfKeys | backend/gars_client.py:66-82 | a route has a schedule entry iff some row of it has a route key and both times |
| GarsClient.ScheduleOfFirst | backend/gars_client.py:66-82 | the entry holds the times of the route's first complete row; incomplete rows neither count nor block later ones |
| GarsClient.ScheduleMap | backend/gars_client.py:56-85 | a failed catalogue request gives the empty map, otherwise the first-complete-row map |
| GarsClient.StopIndexSpec | backend/gars_client.py:93-97 | folder stops are excluded; the index has exactly the keys of non-folder stops, each with the last such stop, and fails on a non-folder stop without a key |
| GarsClient.StopName | backend/gars_client.py:119-128 | the short name, else the description, else "Остановка"; never falsy |
| GarsClient.SegmentOfRow | backend/gars_client.py:105-149 | a row is skipped iff it lacks a route, a point, a non-zero price or a known stop; otherwise it yields a bus segment with id `gars_<recorder>_<line>`, the stop names, the numeric price and the route's schedule times or null |
| GarsClient.RowsSegmentsFail | backend/gars_client.py:105-151 | a document's rows fail iff some row that passes the key check, the price-truthiness check and the stop lookup has a price that is not numeric |
| GarsClient.RowsSegmentsMembers | backend/gars_client.py:105-151 | a segment is produced iff some row emits it |
| GarsClient.DocsSegmentsFailSound | backend/gars_client.py:101-151 | the whole build fails only if some row of some document raises |
| GarsClient.DocsSegmentsFailComplete | backend/gars_client.py:101-151 | a raising row in any document makes the whole build fail |
| GarsClient.AppendRowSegments | backend/gars_client.py:105-151 | the row loop appends exactly the segments of one document's rows to the running list, or fails where Python raises |
| GarsClient.BuildDemoSegments | backend/gars_client.py:87-153 | the nested loops compute the segments of all documents in order, or fail where Python raises |
| YandexRasp.Norm | backend/yandex_rasp_client.py:19-20 | none or empty gives "", and the result is no longer than the input |
| YandexRasp.NormIdempotent | backend/yandex_rasp_client.py:19-20 | normalising twice is normalising once |
| YandexRasp.LooksLikeCodeSpec | backend/yandex_rasp_client.py:23-27 | a code is `c`, `s` or `y` followed by at least one digit after stripping; none and "" are not codes |
| YandexRasp.FirstCodeSpec | backend/yandex_rasp_client.py:62-77 | no code iff no settlement qualifies; otherwise the code of the first one that does |
| YandexRasp.ScanSettlements | backend/yandex_rasp_client.py:64-77 | the innermost loop continues the first exact match and, while there is none, the first partial match |
| YandexRasp.ScanRegions | backend/yandex_rasp_client.py:63-80 | the region loop, with its break, continues the first exact and first partial match over the regions |
| YandexRasp.LookupSpec | backend/yandex_rasp_client.py:56-90 | a code is found iff some coded settlement's title contains the query; an exact title match wins and is the first such |
| YandexRasp.ResolvedSpec | backend/yandex_rasp_client.py:48-90 | a blank city fails; a code-like input is returned stripped without the station list; otherwise the lookup's code, or a not-found error |
| YandexRasp.ScanCountries | backend/yandex_rasp_client.py:62-83 | the triple loop with its breaks finds the first exact match, and if there is none the first partial match |
| YandexRasp.ResolveCode | backend/yandex_rasp_client.py:48-90 | the method answers as the resolution specification |
| YandexRasp.LegOf | backend/yandex_rasp_client.py:118-139 | a leg gets `city:` ids from the normalised titles, the id `yandex_leg:<uid>_<dep>`, type air, price 15000, risk 0.18, source yandex_rasp, and the carrier title else the thread title |
| YandexRasp.Hops | backend/yandex_rasp_client.py:113-116 | only details with a thread are kept |
| YandexRasp.ExplodedLegsSpec | backend/yandex_rasp_client.py:113-125 | one leg per detail with a thread, in order; transfer blocks give nothing |
| YandexRasp.ExplodeSegment | backend/yandex_rasp_client.py:106-141 | the loop computes the exploded legs |
| YandexRasp.AllLegsSpec | backend/yandex_rasp_client.py:182-189 | every collected leg is an air leg at the fallback price, made from a hop of some segment |
| YandexRasp.CollectLegs | backend/yandex_rasp_client.py:182-189 | the loop concatenates every segment's legs in order |
| YandexRasp.SearchSegmentsBetween | backend/yandex_rasp_client.py:145-189 | no API key or a failed resolution gives []; otherwise the in-order concatenation of the found segments' legs |
| MapView.NormName | frontend/src/components/MapView.jsx:68-70 | a missing name gives ""; otherwise the lower-cased, trimmed name |
| MapView.CoordForStopSpec | frontend/src/components/MapView.jsx:72-77 | a stop resolves iff its id or its normalised name is in a table; a known id wins; the point comes from a table |
| MapView.PolylineOfSpec | frontend/src/components/MapView.jsx:83-108 | a segment is drawn iff both endpoints resolve, as the line between them with the segment's own names |
| MapView.CollectConcat | frontend/src/components/MapView.jsx:83-110 | an unresolvable segment does not affect the others: drawing distributes over concatenation |
| MapView.CollectCount | frontend/src/components/MapView.jsx:83-110 | at most one line per segment, one each when all resolve, none iff none resolves |
| MapView.CollectMembers | frontend/src/components/MapView.jsx:83-110 | every line comes from some segment and every resolvable segment's line is drawn |
| MapView.Polylines | frontend/src/components/MapView.jsx:80-111 | a missing route or segment list draws nothing; otherwise the lines of resolvable segments in order |
| MapView.NothingDrawn | frontend/src/components/MapView.jsx:113-132 | with nothing drawn the map is centred on [62, 110] and has no markers |
| MapView.CenterOnFirst | frontend/src/components/MapView.jsx:113-135 | the centre and start marker are the origin of the first resolvable segment |
| MapView.FinishOnLast | frontend/src/components/MapView.jsx:137-141 | the finish marker is the destination of the last resolvable segment |
| MapView.MoscowByName | frontend/src/components/MapView.jsx:34-77 | "Москва" resolves by its name alone |
| MapView.BestyakhByName | frontend/src/components/MapView.jsx:42-77 | "Нижний Бестях (ЖД)" resolves by its name alone |
| MapView.SangarByName | frontend/src/components/MapView.jsx:44-77 | "Сангар (речной порт)" resolves by its name alone |
| ResultsLayoutView.RoutesOf | frontend/src/components/ResultsLayout.jsx:13 | a missing routes field is the empty list |
| ResultsLayoutView.FirstRoute | frontend/src/components/ResultsLayout.jsx:18-22 | no route iff the list is empty; otherwise the first route |
| ResultsLayoutView.Toggled | frontend/src/components/ResultsLayout.jsx:38-40 | the open id becomes none iff it was this route's id; otherwise this route's id |
| ResultsLayoutView.ToggledTwice | frontend/src/components/ResultsLayout.jsx:38-40 | toggling twice restores the state iff it was closed or open on this route; another open route ends closed |
| ResultsLayoutView.ToggledOnlyThatRoute | frontend/src/components/ResultsLayout.jsx:38-40 | toggling a route never opens another route |
| ResultsLayoutView.TitleInjective | frontend/src/components/ResultsLayout.jsx:60-64 | the title wording ("Маршруты не найдены", "Найден 1 маршрут", "Найдено маршрутов: N") tells route counts apart |
| ResultsLayoutView.ResultsLayout.constructor | frontend/src/components/ResultsLayout.jsx:13-24 | on mount the first route is highlighted, or none, and no details are open |
| ResultsLayoutView.ResultsLayout.ReceiveRoutes | frontend/src/components/ResultsLayout.jsx:13-24 | new data highlights its first route, or none, and closes the details |
| ResultsLayoutView.ResultsLayout.ResetOnNewData | frontend/src/components/ResultsLayout.jsx:17-24 | the effect highlights the first route, or none, and closes the details |
| ResultsLayoutView.ResultsLayout.HoverRoute | frontend/src/components/ResultsLayout.jsx:26-34 | hovering highlights the route; leaving highlights the first route, or none |
| ResultsLayoutView.ResultsLayout.ToggleDetails | frontend/src/components/ResultsLayout.jsx:36-42 | none changes nothing; a route toggles its details and becomes highlighted |
| ResultsLayoutView.ResultsLayout.ActiveRoute | frontend/src/components/ResultsLayout.jsx:44 | the highlighted route, else the first route, else none |
| ResultsLayoutView.ResultsLayout.ActiveIsHighlighted | frontend/src/components/ResultsLayout.jsx:17-44 | under the handlers' invariant, the active route is always the highlighted one |
| RouteDisplay.TypeLabel | frontend/src/components/RouteList.jsx:4-49 | a known type gives its Russian label, an unknown one itself |
| RouteDisplay.RouteList | frontend/src/components/RouteList.jsx:20-38 | "nothing found" iff data is missing or empty; otherwise one block per route in order, selected iff it is the active route, details shown iff its id is the open id |
| RouteDisplay.AtMostOneHighlighted | frontend/src/components/RouteList.jsx:35-38 | with distinct ids at most one block is selected and at most one shows details |
| RouteDisplay.ActiveIsSelected | frontend/src/components/RouteList.jsx:35 | the active route's block is selected |
| RouteDisplay.Badge | frontend/src/components/RouteCard.jsx:3-48 | a badge appears iff the label is fastest, cheapest or reliable, with its fixed text |
| RouteDisplay.Emoji | frontend/src/components/RouteCard.jsx:9-15 | a known type gives its emoji, an unknown one "" |
| RouteDisplay.SegmentEmoji | frontend/src/components/RouteCard.jsx:44 | one emoji per segment, in order |
| RouteDisplay.EmojiRowParts | frontend/src/components/RouteCard.jsx:44 | splitting the title prefix at spaces gives back each segment's emoji, so the join loses nothing |
| RouteDisplay.TransfersTextInjective | frontend/src/components/RouteCard.jsx:26-32 | the wording "без пересадок", "1 пересадка", "N пересадки" tells transfer counts apart |
| RouteDisplay.RouteCard | frontend/src/components/RouteCard.jsx:24-63 | the card shows the badge, the wording for segments minus 1 transfers, and one line `from → to · operator` per segment in order |
| RouteDisplay.CardTransfers | frontend/src/components/RouteCard.jsx:26-32 | a card says "без пересадок" iff the route has one segment |
| RouteDisplay.DetailsModal | frontend/src/components/RouteDetailsModal.jsx:4-61 | the modal titles first origin → last destination, words the transfer count, and lists one item per segment |
| RouteDisplay.ModalAgreesWithCard | frontend/src/components/RouteDetailsModal.jsx:6-41 | the modal and the card agree on transfers and on the number of segment lines; each card line starts with the modal's line for that segment and adds ` · operator`; the card title is the emoji row before the modal title |
| UiModel.RouteTitleEnds | frontend/src/components/PurchasePage.jsx:26-27 | the title starts with the first segment's origin and ends with the last segment's destination |
| UiModel.RouteTitleConcat | frontend/src/components/PurchaseDetails.jsx:22-24 | the title of joined segment lists depends only on the first origin and the last destination |
| PurchasePage.MathRound | frontend/src/components/PurchasePage.jsx:11-12 | `Math.round` gives the integer within one half of the value, halves rounded up |
| PurchasePage.RoundPercent | frontend/src/components/PurchasePage.jsx:11-12 | rounding p% of a whole amount n is `(p·n + 50) div 100` |
| PurchasePage.Breakdown | frontend/src/components/PurchasePage.jsx:9-15 | total = base + fee + insurance; the fee is within a half of 7% of base; insurance within a half of 3% when chosen, else 0 |
| PurchasePage.WholeRoubleFees | frontend/src/components/PurchasePage.jsx:3-12 | for whole roubles the fee is `(7n + 50) div 100` and the insurance `(3n + 50) div 100` |
| PurchasePage.TotalAtLeastBase | frontend/src/components/PurchasePage.jsx:11-13 | a non-negative base gives non-negative fees and a total of at least the base |
| PurchasePage.InsuranceLabelAmount | frontend/src/components/PurchasePage.jsx:85-87 | the label amount is within a half of 3% of the route price |
| PurchasePage.InsuranceToggle | frontend/src/components/PurchasePage.jsx:12-87 | ticking insurance adds exactly the label's amount to the insurance line and the total; the fee stays |
| PurchaseDetails.TicketIdsDistinct | frontend/src/components/PurchaseDetails.jsx:16 | different passengers get different `ticket_<index>` ids |
| PurchaseDetails.Tickets | frontend/src/components/PurchaseDetails.jsx:11-25 | an error iff route or passengers are missing; otherwise one ticket per passenger in order, with their data, a price of total / count, and the route's segments and title |
| PurchaseDetails.PriceSumEqual | frontend/src/components/PurchaseDetails.jsx:20 | n equal prices sum to n times the price |
| PurchaseDetails.TicketsSplitTotal | frontend/src/components/PurchaseDetails.jsx:15-25 | the ticket prices sum to the purchase total and no two tickets share an id |
| PurchaseDetails.SegmentPrice | frontend/src/components/PurchaseDetails.jsx:68-70 | "Цена не указана" iff the price is missing or 0; otherwise the price |
| AccountPage.MultimodalMembers | frontend/src/components/AccountPage.jsx:38-40 | the array branch keeps exactly the tickets with an array `full_segments` |
| AccountPage.MultimodalConcat | frontend/src/components/AccountPage.jsx:38-49 | filtering preserves order: the filter of a concatenation is the concatenation of the filters |
| AccountPage.FromObjectSpec | frontend/src/components/AccountPage.jsx:41-51 | the object branch fails iff some value is not an array; otherwise it keeps the multimodal tickets of all values in key order |
| AccountPage.FromObjectStaysNone | frontend/src/components/AccountPage.jsx:43-50 | once a value throws, the whole object branch fails |
| AccountPage.PushMultimodal | frontend/src/components/AccountPage.jsx:45-49 | the `forEach` pushes a group's multimodal tickets onto the list |
| AccountPage.CollectFromObject | frontend/src/components/AccountPage.jsx:42-50 | the `for-in` loop computes the object branch |
| AccountPage.TicketsUrl | frontend/src/components/AccountPage.jsx:27-34 | business users fetch `/api/business/<email>/tickets`, others `/api/users/<email>/tickets` |
| AccountPage.AccountView.constructor | frontend/src/components/AccountPage.jsx:6-15 | the page starts from the stored user, with the user's name in the edit field, no tickets, not editing, no hint |
| AccountPage.AccountView.Open | frontend/src/components/AccountPage.jsx:18-34 | the intended mount effect: no user redirects to /login and fetches nothing; otherwise the tickets URL is fetched (as written the first render throws before it without a user; see Findings) |
| AccountPage.UserDataView | frontend/src/components/AccountPage.jsx:97-119 | the data tab shows the email and the name or "Не указано", and has nothing to show, throwing, without a user |
| AccountPage.NoUserFirstRenderThrows | frontend/src/components/AccountPage.jsx:7-8 | the first render throws iff no user is stored, and only the data tab can throw |
| AccountPage.AccountView.ReceiveTickets | frontend/src/components/AccountPage.jsx:36-58 | the tickets become the normalised response; other responses give []; a throwing response leaves them |
| AccountPage.AccountView.Save | frontend/src/components/AccountPage.jsx:91-95 | only the user's name is replaced, it is stored, and editing ends |
| AccountPage.AccountView.ReceiveHint | frontend/src/components/AccountPage.jsx:78-80 | the hint data is stored and the dialog opens |
| AccountPage.AccountView.CloseHint | frontend/src/components/AccountPage.jsx:86-89 | the dialog closes and its data is cleared |
| AccountPage.HintGuardsSwapped | frontend/src/components/AccountPage.jsx:281-300 | as written, a hint with a fact and an empty weather hides the fact and shows an empty weather line and an info line |
| AccountPage.HintViewFor | frontend/src/components/AccountPage.jsx:279-304 | "loading" iff there is no hint data |
| AccountPage.HintViewShowsFields | frontend/src/components/AccountPage.jsx:281-300 | with each line guarded by its own field, a line is shown iff its field is truthy, and no empty value is shown |
| AccountPage.AccountView.HintDialog | frontend/src/components/AccountPage.jsx:275-310 | the dialog is loading iff no hint data has arrived |
| RegisterPage.Endpoint | frontend/src/components/RegisterPage.jsx:34-35 | business accounts post to `/api/business/register`, others to `/api/auth/register` |
| RegisterPage.Validate | frontend/src/components/RegisterPage.jsx:22-40 | a mismatch is reported before the length; a request iff the passwords match and have at least 6 characters; `balance` is sent iff business |
| RegisterPage.RejectionMessage | frontend/src/components/RegisterPage.jsx:43-47 | the server's non-empty `detail`, else the default message |
| RegisterPage.RegisterForm.constructor | frontend/src/components/RegisterPage.jsx:7-14 | the form starts empty, personal, with balance 0, no error, not submitting, not done |
| RegisterPage.RegisterForm.Submit | frontend/src/components/RegisterPage.jsx:18-61 | the error is cleared first; a failed check sets its message and sends nothing; otherwise the request is sent, and the answer sets the network error, the rejection message, or the stored user and done; submitting ends false |
| SearchForm.OrDefault | frontend/src/components/SearchForm.jsx:8-9 | a missing or empty value falls back, any other is kept |
| SearchForm.InitialFieldsFilled | frontend/src/components/SearchForm.jsx:8-9 | both fields start non-empty |
| SearchForm.Swapped | frontend/src/components/SearchForm.jsx:16-19 | the two places are exchanged |
| SearchForm.SwappedTwice | frontend/src/components/SearchForm.jsx:16-19 | swapping twice restores the pair, and a swap fixes a pair iff its places are equal |
| SearchForm.SearchFormState.constructor | frontend/src/components/SearchForm.jsx:8-9 | the fields start as the given values, or Москва and Сангар |
| SearchForm.SearchFormState.SetFrom | frontend/src/components/SearchForm.jsx:28 | typing sets the from field only |
| SearchForm.SearchFormState.SetTo | frontend/src/components/SearchForm.jsx:42 | typing sets the to field only |
| SearchForm.SearchFormState.Swap | frontend/src/components/SearchForm.jsx:16-19 | the fields exchange their values |
| SearchForm.SearchFormState.Submit | frontend/src/components/SearchForm.jsx:11-14 | searches for the current pair iff a callback was given |
| SearchForm.SearchFormState.Demo | frontend/src/components/SearchForm.jsx:54-69 | a demo fills Москва → destination and calls the callback with that pair unguarded |
| SearchForm.SearchFormState.DemoSangar | frontend/src/components/SearchForm.jsx:54-58 | the fields become Москва → Сангар and that pair is searched |
| SearchForm.SearchFormState.DemoOlyokminsk | frontend/src/components/SearchForm.jsx:65-69 | the fields become Москва → Олёкминск and that pair is searched |

## Left out

- HTTP plumbing is not modelled: the requests, the async wrappers, the module-level caches, the FastAPI endpoints and `startup_event`. Their outcomes enter as parameters:
  - fetched rows, or `None` when a request raised;
  - `Fetch` outcomes;
  - the Yandex station list and search response;
  - React response objects.
- Clocks are parameters. `date.today()` in `get_base_price` is the `when` argument. The base date and `07:00` default of `build_route` are the constant `DefaultDeparture` (420 minutes).
- String-to-number parsing is a parameter, and so is date and time parsing: `float`, `fromisoformat`, `isoparse`, time zone conversion and `_parse_time`.
- The `duration_hours` derivation at start-up (backend/main.py:96-120) is left out, including its 4-hour default. Durations are given as whole minutes on each segment.
- Itineraries.RiskProductBounds: the delay-risk product `1 - Π(1 - r)` is computed exactly on reals. Float rounding is not modelled.
- `total_time_hours` is kept in minutes. Its `toFixed(1)` display and every `toLocaleString` formatting are left out.
- PurchasePage.Breakdown: the rates 0.07 and 0.03 are exact. The float error of `base * 0.07` before `Math.round` is not modelled.
- Python's `1 == True` and unhashable dictionary keys are not modelled. JSON values are a datatype whose equality is structural.
- A `KeyError` on a settlement or detail without `title`, and a null carrier, are not modelled: missing titles read as `""`.
- Python's Unicode-wide `strip`, `lower` and `isdigit` are narrowed:
  - lower-casing covers ASCII and Cyrillic letters;
  - whitespace is ASCII whitespace and the no-break space;
  - digits are `0`-`9`.
- MapView.NormName: JavaScript's `toLowerCase` and `trim` are narrowed in the same way: lower-casing covers ASCII and Cyrillic letters only, and the trimmed whitespace is ASCII whitespace and the no-break space.
- RegisterPage.Validate: the length check counts characters (Unicode scalar values), while JavaScript's `password.length` counts UTF-16 code units. A password of three characters outside the Basic Multilingual Plane has length 6 in JavaScript and passes there, but is too short in the model.
- `strftime` padding is modelled for four-digit years only (`ValidDate`).
- `TariffRow.raw`, the original register record, is not kept on the accepted row.
- The debug printing and duplicate-departure report of `search_routes` (backend/main.py:254-269) change nothing and are left out.
- The `debug` fields of the `/api/routes` answer are left out.
- Prototype-inherited keys are left out: JavaScript `COORDS_BY_ID["toString"]` and similar lookups are not modelled. The coordinate tables are finite maps, and the map lemmas are stated for any tables.
- The Leaflet rendering is left out: `AutoFitBounds`, `MapContainer` and the console warning for unresolved segments.
- JavaScript enumeration order of an object's keys is given as a sequence of groups.
- `NaN` as a falsy price is not modelled.
- A `null` ticket inside a response, and a failing `res.json()`, are not modelled. A non-array group value throws, and the tickets then stay as they were.
- RouteDisplay.RouteCard, RouteDisplay.DetailsModal, UiModel.RouteTitle and PurchaseDetails.Tickets require at least one segment, because the JavaScript indexes `segments[0]` and throws on an empty list.
- The business balance request on the account page (`setBalance`) is not modelled.
- The account page's tab switching, expanded ticket and new-password field are presentation only and are not modelled. Only the initial data tab is kept, for `NoUserFirstRenderThrows`.
- AccountPage.AccountView.Open: models the intended mount effect, the redirect to the login page when no user is stored. As written the page never reaches it: the first render opens on the data tab, reads `user.email` of the missing user (frontend/src/components/AccountPage.jsx:100) and throws, so no effect runs (see Findings).
- The body of the `getRouteHint` request is not modelled. Its answer enters through `AccountView.ReceiveHint`, and a failed request changes nothing.
- AccountPage.AccountView.HintDialog renders with the corrected guards of `HintViewFor`. The as-written guards are kept in `HintViewAsWritten` (see Findings).
- The 800 ms delayed navigation after registration is not modelled.
- React's batching of state updates is not modelled; each handler's updates are applied in order.
- The state a demo button leaves after its unguarded `onSearch` call throws is not modelled. The call is reported as `MissingCallback`.
- `backend/models.py`, `hint_gpt.py`, `risk_gpt_client.py`, `gars_test_api.py`, `App.jsx`, `LoginPage.jsx`, `HeroLayout.jsx`, `HeroPage.jsx`, `RouteDetails.jsx` and `api/routes.js` are not part of this model.

## Findings

| source | as written | input that shows it | evidently intended | confidence | as-written member | corrected member |
|---|---|---|---|---|---|---|
| frontend/src/components/AccountPage.jsx:281-300 | the "Интересный факт" line is guarded by `weather`; the "Погода" and "Информация" lines are guarded by `fact` | a hint with `weather: ""` and a non-empty `fact`: the fact is hidden, and an empty weather line and an info line without text are shown | each line guarded by the field it prints | not executed | AccountPage.HintGuardsSwapped | AccountPage.HintViewShowsFields |
| frontend/src/components/AccountPage.jsx:7-100 | the page opens on the data tab, whose render reads `user.email`; the redirect for a missing user sits in a mount effect | no user in local storage: the first render throws, so the effect that would redirect to the login page never runs | without a stored user the page redirects to the login page | not executed | AccountPage.NoUserFirstRenderThrows | AccountPage.AccountView.Open |
