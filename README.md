# Transport bot core — a Dafny model

This project models the route-finding core of a Telegram bot for a city's
minibus ("microbus") network. The bot answers Arabic questions such as "how
do I get from X to Y".

- `helpers.py` builds the inline keyboards, validates callback payloads and
  finds a direct or one-transfer route between two landmarks
  (`find_route_logic`).
- `database_helper.py` reads routes, locations and route connections from
  SQLite. Its `find_best_route_with_transfers` picks the best-matching start
  and end locations and looks for a direct route, then for a transfer.
- `nlp_search.py` (`NLPSearchSystem`) indexes the landmarks, finds the best
  fuzzy match for a name, pulls start and destination out of free text,
  recognises "from area X to area Y" requests, and suggests landmark names.

The model is organised as follows:

| file | module | what it holds |
|---|---|---|
| `wrappers.dfy` | `Wrappers` | `Option` |
| `text.dfy` | `Text` | Python string semantics the core relies on: `lower`, `strip`, `split()`, `in`, `find`, `replace`, `split(sep)`, UTF-8 length, code-point order |
| `text_split.dfy` | `TextSplit` | properties of `split(sep)` |
| `sorting.dfy` | `Sorting` | a stable insertion sort; models SQL `ORDER BY` and is proved sorted and a permutation |
| `patterns.dfy` | `Patterns` | a backtracking matcher for the five regular expressions of `nlp_search.py`, with Python's leftmost, lazy and greedy priorities, plus the `\b…\b` filler removal |
| `helpers.py` → `helpers.dfy` | `Helpers` | keyboard, callback validation, `find_route_logic` |
| `database_helper.py` → `database_helper.dfy` | `DatabaseHelper` | the queries as pure functions over a database `Snapshot`, and `find_best_route_with_transfers` |
| `nlp_search.py` → `nlp_search.dfy` | `NlpSearch` | the search system's operations |

Loops in the source are modelled as methods with loop invariants. Each method
is proved equal to a specification function, and lemmas state what the
source promises about that function. Pure logic is modelled as functions and
lemmas.

The reply texts are outside the model. `find_route_logic`, for instance,
returns a formatted message; the model returns the structured answer the
message is printed from (`Helpers.RouteAnswer`). In the same way,
`find_best_route_with_transfers` returns a dictionary with a status, which
the model gives as `DatabaseHelper.TripResult`.

## Model

| member | source | states |
|---|---|---|
| Text.StripSpec | helpers.py:65 | `strip()` removes exactly the leading and trailing whitespace (the `str.isspace` set): the result is a slice of the input, neither end of the result is whitespace, and everything removed is whitespace |
| Text.TrimStartSpec | helpers.py:65 | stripping the left end removes exactly the leading whitespace |
| Text.TrimEndSpec | helpers.py:65 | stripping the right end removes exactly the trailing whitespace |
| Text.FindSpec | nlp_search.py:99-100 | the first-occurrence search succeeds exactly when `kw in text` holds, and the separator really occurs at the index it reports |
| Text.FindFirst | nlp_search.py:100 | no occurrence of the separator starts before the index the search reports |
| Text.ContainsIff | nlp_search.py:99 | an occurrence at any index makes `kw in text` true |
| Text.TakeWord | helpers.py:77 | a word of `split()` is a prefix of the text with no whitespace in it, ending at whitespace or at the end of the text |
| Text.RemoveAll | nlp_search.py:77 | `replace(w, '')` never lengthens the text and keeps only characters of the text |
| Text.RemoveAllChar | nlp_search.py:77 | after `replace('?', '')` the character is gone from the text |
| Text.Utf8Len | helpers.py:31 | the UTF-8 length of a string lies between its length in code points and four times that length |
| Text.Utf8LenConcat | helpers.py:28-31 | the UTF-8 length of a concatenation is the sum of the lengths |
| Text.StrLeTotal | database_helper.py:129 | the code-point order of SQLite's default collation is total |
| Text.StrLeTransitive | database_helper.py:129 | the code-point order is transitive |
| TextSplit.SplitFirstTwo | nlp_search.py:100-105 | `text.split(kw)[0]` is the text before the first occurrence of `kw`, and `[1]` is the text between the first and second occurrences (or up to the end when there is no second) |
| TextSplit.SplitOnChars | nlp_search.py:100 | every piece of `split(kw)` is made only of characters of the text |
| TextSplit.SplitOnTwo | nlp_search.py:99-103 | splitting on a keyword that occurs gives at least two pieces, so `len(parts) >= 2` holds after the connector loop |
| TextSplit.SplitOnHead | nlp_search.py:100 | the first piece ends at the first occurrence, and the remaining pieces are the split of the text after it |
| Sorting.SortBy | database_helper.py:82-88 | `ORDER BY` returns a permutation of the selected rows |
| Sorting.SortBySorted | database_helper.py:82-88 | under a total preorder, the rows come out ordered |
| Sorting.InsertSorted | database_helper.py:129 | inserting a row into ordered rows keeps them ordered |
| Patterns.Search | nlp_search.py:81 | `re.search` reports, when it matches, one non-empty span of the text per capturing group |
| Patterns.SearchFrom | nlp_search.py:81 | trying start positions from left to right gives well-formed group spans |
| Patterns.Match | nlp_search.py:81 | a match keeps the groups captured so far and adds one non-empty span of the text per group of the pattern |
| Patterns.FromToGroups | nlp_search.py:80 | the from-to pattern has two capturing groups |
| Patterns.HowToGoGroups | nlp_search.py:89 | the how-to-go pattern has one capturing group |
| Patterns.ResidentialGroups | nlp_search.py:179-183 | each of the three residential patterns has two capturing groups |
| Patterns.SpaceOrEndAt | nlp_search.py:80 | `(?:\s\|$)` matches exactly at whitespace or at the end of the text |
| Patterns.LazyTailStopsAtSpace | nlp_search.py:89 | a lazy group followed by `(?:\s\|$)` captures exactly up to the next whitespace or the end of the text |
| Patterns.RemoveFillers | nlp_search.py:175 | removing the filler words never lengthens the query and keeps only its characters |
| Patterns.GluedFillerStays | nlp_search.py:175 | a filler word followed by a word character is not a whole word and is kept |
| Patterns.FillerBeforeSignGoes | nlp_search.py:175 | a filler word followed by a non-word sign is removed |
| Patterns.RemoveFillersFromNoFiller | nlp_search.py:175 | a query with no filler word in it is left unchanged |
| Helpers.Truncate | helpers.py:27 | the identifier is cut to its first 30 characters, and one of 30 or fewer is kept whole |
| Helpers.ItemButtonsSound | helpers.py:15-32 | every item button shows the identifier of some item, carries `prefix:identifier[:30]`, and that payload is at most 64 bytes of UTF-8 |
| Helpers.ItemButton | helpers.py:16-32 | one pass of the item loop adds the button the item yields: none for an unsupported item, an empty name or an oversized payload |
| Helpers.BuildKeyboard | helpers.py:9-50 | the keyboard ends with the navigation row ("back" only for a non-empty target, then "cancel"); every other row holds one or two buttons and all but the last item row hold exactly two; read row by row, the item rows give all item buttons in item order |
| Helpers.PlaceButtons | helpers.py:32-36 | appending a button to the current row moves the row into the keyboard as soon as it holds two, and loses no button |
| Helpers.CloseKeyboard | helpers.py:38-48 | an unfinished row is added only when it is non-empty, and the navigation row comes last |
| Helpers.ValidateCallbackData | helpers.py:205-218 | a payload it accepts is non-empty and at most 64 characters long |
| Helpers.KeyboardCallbacksValidate | helpers.py:28-31 | every payload the keyboard builds passes `validate_callback_data` |
| Helpers.ClassifySpec | helpers.py:67-78 | only string stops match; a stop is exact when its cleaned name equals the query, partial when either contains the other, keyword when some query word of more than two characters occurs in it; the tiers are tested in that order and exclude each other |
| Helpers.CollectSound | helpers.py:67-80 | every reported index is a stop with the reported tier, and the indices increase |
| Helpers.CollectComplete | helpers.py:67-80 | every matching stop is reported |
| Helpers.StopMatchesSpec | helpers.py:62-80 | `find_location_in_route` reports each matching stop exactly once, in stop order, with its tier |
| Helpers.FindLocationInRoute | helpers.py:62-80 | the loop computes the matches `StopMatches` describes |
| Helpers.PairsWithSpec | helpers.py:95-104 | for one start match, the pairs join it to later end matches and name their stops, and every later end match gives one |
| Helpers.ValidPairsSound | helpers.py:93-104 | every entry of `valid_routes` joins a start match to a strictly later end match and names both stops |
| Helpers.ValidPairsComplete | helpers.py:93-104 | every start match followed by a later end match gives an entry |
| Helpers.ValidPairsNonEmpty | helpers.py:93-106 | `valid_routes` is non-empty exactly when some start index lies below some end index |
| Helpers.SortByPriorityPermutes | helpers.py:108-109 | the sort by combined priority only reorders the pairs |
| Helpers.SortByPriorityStable | helpers.py:109 | pairs of equal priority keep their original order, as Python's sort is stable |
| Helpers.SortByPriorityOrdered | helpers.py:108-109 | after the sort, priorities (exact 3, partial 2, keyword 1, summed) never increase, so the first pair has the highest priority |
| Helpers.BucketsDescending | helpers.py:109 | the bucketed order puts higher priorities first |
| Helpers.KeepCount | helpers.py:109 | picking the pairs of one priority keeps every copy of those pairs |
| Helpers.CollectOrdered | helpers.py:88-106 | a start stop comes before an end stop exactly when some reported start index lies below some reported end index |
| Helpers.QualifiesIff | helpers.py:88-106 | the same equivalence, stated on the route's stops and the two `find_location_in_route` results |
| Helpers.DirectEntryQualifies | helpers.py:82-114 | a route enters `direct_routes` exactly when one of its stops matching the start precedes one matching the end |
| Helpers.DirectEntrySpec | helpers.py:82-114 | a route without key points gives no entry; an entry keeps the route, and its matches are non-empty, joined from both match lists, sorted by priority, and the first is the best of all pairs |
| Helpers.DirectRoutesSound | helpers.py:82-114 | every entry of `direct_routes` is a listed route's own entry |
| Helpers.DirectRoutesEmpty | helpers.py:82-116 | `direct_routes` is empty exactly when no route qualifies |
| Helpers.SharedWithSound | helpers.py:165-171 | each copy of a route-1 stop in `common_points` is matched by a string stop of route 2 that is equal ignoring case, or that contains it or is contained in it when both are longer than five characters |
| Helpers.SharedWithNonEmpty | helpers.py:165-171 | a route-1 stop is reported exactly when some route-2 stop shares its name |
| Helpers.CommonPointsSound | helpers.py:164-171 | every transfer point is a string stop of route 1 that route 2 shares |
| Helpers.CommonPointsNonEmpty | helpers.py:164-173 | there is a transfer point exactly when some string stop of route 1 is shared |
| Helpers.TransferForSound | helpers.py:145-178 | a pair of routes contributes only when they differ, the first serves the start, the second the end, and there are transfer points |
| Helpers.TransfersFromSound | helpers.py:146-178 | the inner loop adds only such connections |
| Helpers.TransfersSound | helpers.py:143-178 | every potential connection joins two different listed routes, the first serving the start, the second the end, through at least one shared stop |
| Helpers.FindRouteSpec | helpers.py:116-192 | the answer lists direct routes exactly when some route qualifies; transfers are offered only when none does, each offered transfer is sound, and every pair of different routes, the first serving the start and the second the end, that share a stop is offered with their common points |
| Helpers.TransferForIff | helpers.py:145-178 | one pair of routes yields a connection exactly when they differ, the first serves the start, the second the end, and some stop of the first is shared; the connection carries their common points |
| Helpers.TransfersFromComplete | helpers.py:146-178 | the inner loop adds the connection of every end route that yields one |
| Helpers.TransfersComplete | helpers.py:143-178 | the outer loop keeps every connection the inner loop finds for any start route |
| Helpers.FindRouteTransfers | helpers.py:142-190 | when no route qualifies, a connecting pair of routes makes the answer a transfer offer that includes their connection |
| Helpers.PairWithEnds | helpers.py:95-104 | the inner pairing loop appends the pairs of one start match |
| Helpers.PairMatches | helpers.py:94-104 | the nested loops build `valid_routes` |
| Helpers.MatchRoute | helpers.py:83-114 | one pass of the route loop yields that route's entry, if any |
| Helpers.CommonPointsOf | helpers.py:164-171 | the nested loops build `common_points` |
| Helpers.PairTransfer | helpers.py:147-178 | one pass of the inner transfer loop yields the pair's entry, if any |
| Helpers.TransfersFromOf | helpers.py:146-178 | the inner transfer loop appends one first route's connections |
| Helpers.DirectRoutesOf | helpers.py:82-114 | the route loop builds `direct_routes` in route order |
| Helpers.FindRouteLogic | helpers.py:52-203 | `find_route_logic` gives direct routes when there are any, otherwise the transfer options, otherwise no route |
| DatabaseHelper.DecodedPointsSpec | database_helper.py:21-24 | key points are empty exactly when the column is NULL or empty, unparsable, or an empty list; otherwise they are the decoded list |
| DatabaseHelper.GetRoutesFromDb | database_helper.py:9-37 | one route record per row, in row order, with the fare suffixed by the currency, NULL areas and notes read as empty, and key points decoded |
| DatabaseHelper.Limit | database_helper.py:89 | `LIMIT n` keeps a prefix of at most `n` rows, and all rows when `n` is negative or large enough |
| DatabaseHelper.MatchingSpec | database_helper.py:81 | the `WHERE` clause selects exactly the rows whose name contains the searched name, ignoring ASCII case |
| DatabaseHelper.LocationOrderTotal | database_helper.py:82-88 | the ordering (exact name, then prefix, then the rest; then `location_type` descending) is a total preorder |
| DatabaseHelper.LocationQuerySpec | database_helper.py:77-96 | the query returns matching rows only, in that order, at most `limit` of them, and all of them when the limit allows |
| DatabaseHelper.SearchLocationsSpec | database_helper.py:77-111 | every result's name contains the searched name, results are ranked exact before prefix before others, the location type is never empty (a NULL or empty one reads "direct"), and there are at most `limit` |
| DatabaseHelper.SearchLocations | database_helper.py:98-108 | one result per selected row |
| DatabaseHelper.SearchLocationsByName | database_helper.py:69-115 | the row loop builds the result list of the query |
| DatabaseHelper.RawMatchingSpec | database_helper.py:128 | `key_points LIKE '%name%'` selects exactly the rows whose stored key-point text contains the name |
| DatabaseHelper.NameOrderTotal | database_helper.py:129 | ordering by name is a total preorder |
| DatabaseHelper.CandidatesSpec | database_helper.py:125-132 | the candidate rows are exactly the matching rows, ordered by name |
| DatabaseHelper.ServedSpec | database_helper.py:134-149 | a candidate is kept exactly when one of its string key points contains the name, ignoring case; kept rows stay in name order |
| DatabaseHelper.ServingSound | database_helper.py:117-156 | every serving route comes from a matching row, really has a stop containing the name, and the list is in name order |
| DatabaseHelper.ServingComplete | database_helper.py:117-156 | when no candidate's key points fail to parse, every matching row with such a stop is returned |
| DatabaseHelper.ServeRow | database_helper.py:136-149 | one row fails exactly when its key points do not parse, and otherwise yields its record when it serves the name |
| DatabaseHelper.ServeRows | database_helper.py:134-150 | the loop fails exactly when some row's key points do not parse, and otherwise yields the served routes |
| DatabaseHelper.GetRoutesServingLocation | database_helper.py:117-156 | the function returns the routes `Serving` describes, and `[]` when parsing raises |
| DatabaseHelper.ConnectionsSymmetric | database_helper.py:171-175 | the connections between two routes do not depend on the order the routes are given in |
| DatabaseHelper.ConnectionsSound | database_helper.py:165-175 | every result comes from a connection row linking the two routes, in either direction, joined to route names |
| DatabaseHelper.JoinConnection | database_helper.py:168-170 | the join of one connection row with both route tables |
| DatabaseHelper.FindRouteConnections | database_helper.py:158-192 | the query returns the joined connections between the two routes |
| DatabaseHelper.MatchIndices | database_helper.py:222-225 | an index is listed exactly when its key point is a string containing the name, ignoring case |
| DatabaseHelper.InOrderIndices | database_helper.py:227-228 | both index lists are non-empty with a start index below an end index exactly when a start stop precedes an end stop |
| DatabaseHelper.TransferEntries | database_helper.py:250-257 | one transfer entry per connection |
| DatabaseHelper.RoutesBetween | database_helper.py:207-270 | once both locations are found, the outcome is never "no locations found" |
| DatabaseHelper.DirectWithSpec | database_helper.py:218-233 | for one start route, an entry is added per end route with the same id whose stops visit the start before the end, and none otherwise |
| DatabaseHelper.DirectsSound | database_helper.py:216-233 | every direct entry names a start route and the best-matching locations, and some end route has its id with the stops in travel order |
| DatabaseHelper.DirectsEmpty | database_helper.py:216-235 | there is no direct entry exactly when no pair of serving routes is a direct pair |
| DatabaseHelper.TransfersWithSpec | database_helper.py:244-257 | for one start route, every entry pairs it with an end route of another id through one of their connections, and every such connection gives an entry |
| DatabaseHelper.TransfersSpec | database_helper.py:242-258 | the same, over all start routes |
| DatabaseHelper.TripNoLocations | database_helper.py:198-205 | the result is "no locations found" exactly when either search (limit 5) finds nothing |
| DatabaseHelper.TripDirect | database_helper.py:207-239 | a direct result is non-empty; each entry uses the first start and end locations and a route serving the start that some route serving the end shares the id of, with a start stop before an end stop |
| DatabaseHelper.TripTransfer | database_helper.py:241-263 | a transfer result comes only when there is no direct pair; its entries are exactly the connections between serving routes of different ids |
| DatabaseHelper.TripNoRoute | database_helper.py:265-270 | "no route found" carries both location searches, each with one to five results |
| DatabaseHelper.CompareRoutes | database_helper.py:219-228 | comparing two routes raises on a non-string key point of a same-id route, and otherwise decides the direct pair |
| DatabaseHelper.DirectWithEnds | database_helper.py:218-233 | the inner direct loop fails exactly on a raising pair, and otherwise appends one start route's entries |
| DatabaseHelper.CollectDirect | database_helper.py:216-233 | the direct loops fail exactly when some same-id pair raises, and otherwise build `direct_routes` |
| DatabaseHelper.AddTransfers | database_helper.py:250-257 | the connection loop appends one entry per connection |
| DatabaseHelper.TransfersWithEnds | database_helper.py:245-257 | the inner transfer loop appends one start route's entries |
| DatabaseHelper.CollectTransfers | database_helper.py:242-257 | the transfer loops build `transfer_routes` |
| DatabaseHelper.FindBestRouteWithTransfers | database_helper.py:194-270 | the function returns the outcome `Trip` describes |
| NlpSearch.PutKeys | nlp_search.py:39-50 | assigning a key adds it to the index, adds an entry only when the key is new, and keeps every existing key in place |
| NlpSearch.PutLookup | nlp_search.py:39-50 | after assigning a key, it maps to the new value and every other key is unchanged |
| NlpSearch.PutUnique | nlp_search.py:39-50 | assignment keeps the keys distinct |
| NlpSearch.PutAllLookup | nlp_search.py:34-50 | after a run of assignments, a key maps to its last assigned value |
| NlpSearch.BuildIndexSpec | nlp_search.py:31-51 | the index has distinct keys, exactly the lowered names of the landmarks, and each maps to the last landmark with that name |
| NlpSearch.IndexLandmark | nlp_search.py:37-50 | one landmark adds its lowered name (an empty name for a record without one) and skips unsupported entries |
| NlpSearch.BuildLandmarksIndex | nlp_search.py:31-51 | the three nested loops build the index `BuildIndex` describes |
| NlpSearch.FirstMaxSpec | nlp_search.py:60-71 | the strict-improvement scan finds nothing exactly when no score exceeds the threshold, and otherwise the first index with the highest score |
| NlpSearch.BestMatchSpec | nlp_search.py:57-73 | the best match is none exactly when no landmark scores above 0.6; otherwise it is an index entry with the highest score, the first one among ties |
| NlpSearch.FindBestMatch | nlp_search.py:57-73 | the loop computes that best match |
| NlpSearch.ExactArea | nlp_search.py:220-222 | the first area whose lowered name equals the query, and none when no area does |
| NlpSearch.PartialArea | nlp_search.py:225-227 | the first area that contains the query or is contained in it |
| NlpSearch.ResidentialAreaSpec | nlp_search.py:207-239 | the result is one of the fifteen areas; an exact name wins; otherwise an overlapping one; nothing is found exactly when no area overlaps and none scores above 0.6 |
| NlpSearch.BlankResidentialArea | nlp_search.py:209-227 | a blank name is contained in every area, so the first area is returned |
| NlpSearch.ScanExact | nlp_search.py:220-222 | the exact loop finds `ExactArea` |
| NlpSearch.ScanPartial | nlp_search.py:225-227 | the partial loop finds `PartialArea` |
| NlpSearch.ScanSimilar | nlp_search.py:230-237 | the similarity loop finds the first area with the highest ratio above 0.6 |
| NlpSearch.FindResidentialArea | nlp_search.py:207-239 | the function returns the area `ResidentialArea` describes |
| NlpSearch.FirstConnector | nlp_search.py:98-101 | the first keyword, from-keywords before to-keywords, that occurs in the text, and none when none does |
| NlpSearch.FirstConnectorIs | nlp_search.py:98-101 | a keyword that occurs with none before it occurring is the one the loop picks |
| NlpSearch.CleanQuestions | nlp_search.py:108-110 | removing question words keeps only characters of the text |
| NlpSearch.NoneIfEmpty | nlp_search.py:112 | `x or None`: none exactly for the empty string |
| NlpSearch.FromToMentions | nlp_search.py:80-86 | a from-to match gives both a start and an end |
| NlpSearch.HowToGoMentions | nlp_search.py:89-94 | a how-to-go match gives no start and a destination |
| NlpSearch.FromToMentionsWithin | nlp_search.py:84-85 | the from-to mentions are made of characters of the text |
| NlpSearch.HowToGoMentionsWithin | nlp_search.py:93 | the destination is made of characters of the text |
| NlpSearch.KeywordSplitWithin | nlp_search.py:100-110 | the keyword-split mentions are made of characters of the text |
| NlpSearch.StripChars | nlp_search.py:104 | `strip()` keeps only characters of its argument |
| NlpSearch.NormalizeNoQuestionMark | nlp_search.py:77 | the normalised text has no question mark of either script |
| NlpSearch.ExtractNoQuestionMark | nlp_search.py:75-114 | no extracted mention contains a question mark |
| NlpSearch.ExtractHowToGo | nlp_search.py:88-94 | without a from-to match, a how-to-go match leaves the start unknown |
| NlpSearch.ExtractNoConnector | nlp_search.py:96-114 | with no pattern match and no connector in the text, nothing is extracted |
| NlpSearch.ExtractKeywordSplit | nlp_search.py:96-112 | otherwise the first connector present decides: the start is the text before its first occurrence and the end the text up to its second, each stripped and cleaned of question words, an empty one giving none |
| NlpSearch.ExtractBySplit | nlp_search.py:96-112 | without a pattern match the mentions come from splitting on the first connector present |
| NlpSearch.KeywordSplitParts | nlp_search.py:100-105 | reading `parts[0]` and `parts[1]` of the split is reading around the first two occurrences |
| NlpSearch.SplitOnFirstConnector | nlp_search.py:97-101 | the connector loop splits on the first keyword present and otherwise leaves `parts` empty |
| NlpSearch.RemoveQuestionWords | nlp_search.py:108-110 | the question-word loop cleans both mentions |
| NlpSearch.ExtractLocationsFromText | nlp_search.py:75-114 | the function returns the mentions `Extract` describes |
| NlpSearch.FirstResolving | nlp_search.py:185-203 | the first residential pattern whose two groups both resolve to areas, and none when no pattern does |
| NlpSearch.ResolvedByInGazetteer | nlp_search.py:186-203 | a resolved pattern names two areas of the gazetteer |
| NlpSearch.ParseResidentialSpec | nlp_search.py:172-205 | the request is residential exactly when some pattern resolves, and then both areas are gazetteer areas |
| NlpSearch.ResolvePattern | nlp_search.py:186-203 | one pass of the pattern loop |
| NlpSearch.ParseResidentialAreas | nlp_search.py:172-205 | the function returns the result `ParseResidential` describes |
| NlpSearch.ResolveSpec | nlp_search.py:133-141 | a resolved mention is an index entry scoring above 0.6 |
| NlpSearch.SearchRouteSpec | nlp_search.py:116-154 | a residential request answers with the areas; otherwise the status is error when nothing resolves, success when both resolve and partial match when one does, and every resolved location is an index entry scoring above 0.6 |
| NlpSearch.SearchRouteFromText | nlp_search.py:116-154 | the function returns the outcome `SearchRoute` describes |
| NlpSearch.SuggestFromSpec | nlp_search.py:161-168 | from any point of the scan the suggestions grow, stay distinct, all come from landmarks whose key contains the text, stay within the limit, and include every such landmark when the limit is not reached |
| NlpSearch.SuggestionsSpec | nlp_search.py:156-170 | suggestions are distinct, each from a landmark whose key contains the text; there are at most `limit` of them (one when the limit is below one); when fewer than `limit` are returned, every matching landmark is among them |
| NlpSearch.GetSuggestionsForText | nlp_search.py:156-170 | the loop computes those suggestions |
| NlpSearch.RoundHalfEvenSpec | nlp_search.py:290 | `round(d / 80)` is the nearest integer, and ties go to the even one |
| NlpSearch.WalkingMinutes | nlp_search.py:290 | the walking time is at least one minute, and otherwise the rounded distance over 80 metres a minute |
| NlpSearch.WalkingMinutesExamples | nlp_search.py:290 | 240 m is 3 minutes, 200 m is 2 (a tie rounded to even), 280 m is 4, and 10 m is 1 |

## Left out

- Telegram, SQLite, the JSON decoder and the file system are not modelled. The database is a `DatabaseHelper.Snapshot` value passed in. A decoded `key_points` column is given as an optional decoded list beside its raw text. A connection failure, which makes every query return `[]`, is not modelled.
- `get_routes_from_db` reads table `route`, while the other queries read table `routes`. The snapshot holds one route table, and the model reads it for both.
- Text.Lower: lower-cases ASCII letters only. Arabic has no case, and SQLite's `LIKE` folds only ASCII, but Python's `lower()` also folds other scripts.
- DatabaseHelper.SearchLocationsSpec: `%` and `_` inside the searched name are treated as ordinary characters, not as `LIKE` wildcards.
- DatabaseHelper.RawMatchingSpec: the raw text of the `key_points` column is taken as given, without relating it to the decoded list. A JSON value that is not a list is not modelled.
- SQL leaves the order of rows that tie under `ORDER BY` unspecified. The model keeps table order for ties, and the join order of `find_route_connections` is modelled as connection rows, then route rows.
- `SequenceMatcher.ratio` is not modelled. The ratio is a function parameter of `FindBestMatch`, `FindResidentialArea`, `ParseResidentialAreas` and `SearchRouteFromText`. Scores are Dafny `real`s, not binary floating point.
- NlpSearch.WalkingMinutes: `distance / 80` is an exact rational here. Python's float division can round a quotient that is not exactly representable.
- DatabaseHelper.GetRoutesFromDb: the fare is taken as its text, so `f"{fare}"` of a number or of NULL is not modelled.
- The message strings and the fare formatting of the replies are not modelled. This covers `find_route_logic`'s text, the cut to three transfer options and two transfer points, and `search_route_from_text`'s messages. The model returns the structured answer the text is printed from.
- `NLPSearchSystem` is not a class in the model. Its fields are set once in `__init__` and never changed afterwards. The landmarks index is passed as a value, and the keyword lists are constants.
- `find_best_route_with_transfers` calls `.lower()` on every key point of a same-id route. A non-string key point raises `AttributeError`, which the model gives as the outcome `TripResult.KeyPointTypeError`.
- `enhanced_search_with_database` is not modelled: it calls a method the class does not define. The `_format_*` methods are reply formatting; only their walking-time expression is modelled.
- `format_time_ago` (clock-dependent), `get_neighborhoods_from_db` and `update_bot_data` (I/O only) are not modelled. `admin_dashboard.py` and `user_manager.py` are not part of this model.
- `similarity_score` is the ratio parameter above.
- Patterns.RemoveFillers: `\w`, and so `\b`, is modelled by `Patterns.IsWordChar` on ASCII, Latin-1 and the Arabic block U+0600-06FF only. Letters and digits of other scripts, such as the Arabic Supplement U+0750-077F and the presentation forms U+FB50-FDFF and U+FE70-FEFC, count as non-word characters in the model, whereas Python's `\w` accepts them.
- A record whose `name` is present but not a string is not modelled: `Helpers.Item` and `NlpSearch.Landmark` carry only an optional string. In `build_keyboard` a name such as `5` raises `TypeError` at `len()`, and in `_build_landmarks_index` a name of `None` raises `AttributeError` at `.lower()`; the model has neither error, and files a record without a name under the empty key.
