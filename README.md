# calendollar core, modelled in Dafny

calendollar is a travel calendar. For each day, a user records the cities they were in and what they did there. This project models the logic behind it:

- **The statistics endpoint** (`GET /api/statistics`).
  - It validates an inclusive `YYYY-MM-DD` range and parses a comma-separated keyword list.
  - Over the in-range days of the stored document, it tallies two things:
    - on how many distinct days each city appears (names trimmed and lower-cased);
    - how many activity descriptions contain each keyword (case-insensitive substring match).
- **The calendar component's state updaters.** These add and delete a city record, and add and delete an activity.
- **The calendar's city-to-colour map.** A round-robin over ten Tailwind classes, where the first sighting of a city wins.
- **The month grid.** City tags, the records shown on a day, and the blank cells that pad the month into Monday-first weeks.
- **The week view.** The weather-icon decision ladder and the guards of the two inline "add" forms.
- **The statistics page.** Request building, the per-fetch colour assignment, the colour lookups, and the descending sort of the city list.

Modules, one per file:

| module | file | models |
|---|---|---|
| `Options` | options.dfy | `undefined`/`null` as `Option`, error responses as `Result` |
| `JsText` | jstext.dfy | `trim`, ASCII `toLowerCase`/`toUpperCase`, `includes`, `split(',')`/`join`, `<`/`<=` on strings, the date-key regular expression |
| `CalendarTypes` | calendar_types.dfy | the client's entities (src/types/index.ts) |
| `CityColors` | colors.dfy | the ten-entry palette and the grey fallback |
| `StatisticsRoute` | statistics_route.dfy | validation, keyword parsing, the tally loops, and the intended answer they compute |
| `Calendar` | calendar.dfy | the four `setCalendarState` updaters, the colour-map effect, `getCityColor` |
| `MonthView` | month_view.dfy | `getCityAbbreviation`, `getCityRecordsForDay`, the grid padding |
| `WeekView` | week_view.dfy | `getWeatherIcon`, `handleConfirmAddCity` and `handleConfirmAddActivity` |
| `StatisticsPage` | statistics_page.dfy | `handleFetchStats`, `assignColor`, `getCityColorClass`, the sort |
| `PrototypeKeys` | prototype_keys.dfy | the tallies' object literals as JavaScript evaluates them (see Findings) |

## How the model is built

**The statistics route is imperative.** It follows the handler's own loops:

- `Aggregate` is the `for…in` over date keys.
- `TallyDay` is one in-range day.
- `UniqueCities` followed by `AddDay` is `uniqueCitiesToday` and its `forEach`.
- `CountRecords`, `CountActivities` and `CountDescription` are the nested `forEach` loops of the keyword tally.

Each loop is proved against a ghost function that states the answer directly:

- `CityDurations`: the number of distinct in-range days on which each city is counted.
- `KeywordCounts`: the number of times the keyword is listed, times the number of in-range matching activities.

The iteration order of the date keys is left open: the loop picks any pending key.

**The calendar updaters are functions** from the old events map to the new one. The fresh id and the fetched weather are parameters.

**The colour-map effect is a method with a loop.** `UpdateColorMap` is the `setCityColorMap` updater, and `RefreshColorMap` is the whole effect. Both are proved against `ExtendColors`, a function that meets the cities one at a time.

**`assignColor` is a class.** The closure's map and running index become the fields of `StatisticsPage.ColorAssigner`. The `forEach` over the answer's keys is `AssignAll`.

**Row order on the statistics page.** The page sorts with the engine's stable `Array.prototype.sort`. The model uses a stable insertion sort instead. Its results are proved to be exactly what the source relies on:

- a permutation of the input;
- non-increasing by count;
- stable among equal counts.

## Model

| member | source | states |
|---|---|---|
| StatisticsRoute.CheckDates | src/app/api/statistics/route.ts:37-47 | the "missing" error exactly when a date is absent or empty; the format error exactly when both are present and one does not match `YYYY-MM-DD`; the start-after-end error exactly when both match and start > end in string order; success otherwise, returning the two dates; never the 500 |
| StatisticsRoute.StatusCode | src/app/api/statistics/route.ts:38-43 | validation errors are 400 and the store failure 500 |
| StatisticsRoute.ParseKeywords | src/app/api/statistics/route.ts:49 | an absent or empty parameter gives no keywords; otherwise each non-empty keyword occurs as often as it is the trim of a comma-separated piece; no keyword is empty, has outer white space or contains a comma |
| StatisticsRoute.TrimmedNonEmpty | src/app/api/statistics/route.ts:49 | `.map(trim).filter(k => k)` keeps every non-empty trimmed piece, as often as it occurs, and nothing else |
| StatisticsRoute.ParseJoin | src/app/api/statistics/route.ts:49 | parsing comma-joined keywords that are non-empty, trimmed and comma-free gives the same list back, in order and with repeats |
| StatisticsRoute.KeywordsIgnoreOuterSpace | src/app/api/statistics/route.ts:49 | white space around the whole parameter does not change the parsed keyword list |
| StatisticsRoute.SplitPadded | src/app/api/statistics/route.ts:49 | splitting `w1 + m + w2` on commas gives the pieces of `m`, with `w1` on the first and `w2` on the last |
| StatisticsRoute.UniqueCities | src/app/api/statistics/route.ts:92-97 | the day's set is exactly the trimmed, lower-cased names of the records whose city is a string that is not white space only |
| StatisticsRoute.AddDay | src/app/api/statistics/route.ts:98-100 | every city of the day goes up by one, a new city starting at zero; nothing else changes |
| StatisticsRoute.Bump | src/app/api/statistics/route.ts:98-100 | the tally's keys are the old keys plus the day's cities |
| StatisticsRoute.CountDescription | src/app/api/statistics/route.ts:109-115 | each keyword whose lower-cased form is non-empty and occurs in the description goes up once per time it is listed; the key set is unchanged |
| StatisticsRoute.CountActivities | src/app/api/statistics/route.ts:106-117 | each keyword goes up by (times listed) × (matching activities of the record); activities without a string description are skipped |
| StatisticsRoute.CountRecords | src/app/api/statistics/route.ts:105-119 | each keyword goes up by (times listed) × (matching activities of the day); records without activities contribute nothing |
| StatisticsRoute.TallyDay | src/app/api/statistics/route.ts:88-120 | one in-range day bumps exactly its counted cities and adds its matches to each keyword; a day without records changes nothing |
| StatisticsRoute.Aggregate | src/app/api/statistics/route.ts:80-122 | whatever order the date keys are visited in, the loop ends with exactly the intended city durations and keyword counts |
| StatisticsRoute.GetStatistics | src/app/api/statistics/route.ts:37-129 | a validation error is returned whatever the store holds; a failed read is a 500; otherwise the answer holds the city durations, plus the keyword counts exactly when the keyword list is non-empty |
| StatisticsRoute.EmptyEventsStatistics | src/app/api/statistics/route.ts:67-77 | with no events the city durations are empty and every requested keyword counts zero |
| StatisticsRoute.DurationsStep | src/app/api/statistics/route.ts:98-100 | counting one more day bumps exactly the cities of that day |
| StatisticsRoute.KeywordCountsStep | src/app/api/statistics/route.ts:104-120 | counting one more day adds that day's matches to every keyword |
| StatisticsRoute.MatchCountPick | src/app/api/statistics/route.ts:84 | the keyword total does not depend on the order in which days are visited |
| StatisticsRoute.DurationKeys | src/app/api/statistics/route.ts:91-101 | a city is reported if and only if it is counted on some in-range day |
| StatisticsRoute.DurationBounds | src/app/api/statistics/route.ts:91-101 | every reported city has at least one day and at most as many days as there are in-range date keys |
| StatisticsRoute.OutOfRangeIgnored | src/app/api/statistics/route.ts:84-87 | two documents that agree on every in-range date key give the same statistics |
| StatisticsRoute.CitySpellingsMerge | src/app/api/statistics/route.ts:94-95 | names that differ only in letter case and surrounding white space are counted as one city |
| StatisticsRoute.MatchIgnoresDescriptionCase | src/app/api/statistics/route.ts:109-112 | the match is blind to the case of the description |
| StatisticsRoute.MatchIsOccurrence | src/app/api/statistics/route.ts:112 | a match means that the lower-cased keyword occurs at some offset of the lower-cased description |
| StatisticsRoute.DuplicateKeywordDoubles | src/app/api/statistics/route.ts:110-113 | a keyword listed twice gets one key whose count is twice the number of matching activities |
| StatisticsRoute.DuplicateParameterDoubles | src/app/api/statistics/route.ts:49-113 | the parameter `k,k` parses to `[k, k]`, and `k` then counts every matching activity twice |
| JsText.TrimShape | src/app/api/statistics/route.ts:94 | `trim()` is empty exactly for all-space text, and otherwise starts and ends with a non-space |
| JsText.TrimSplitsOff | src/app/api/statistics/route.ts:49 | every string is leading white space + its trim + trailing white space |
| JsText.TrimUnique | src/app/api/statistics/route.ts:49 | the trim is the unique middle part that has white space around it and none at its own ends |
| JsText.TrimIgnoresPadding | src/app/api/statistics/route.ts:49 | white space around a string never changes its trim |
| JsText.TrimIdempotent | src/app/api/statistics/route.ts:49 | trimming twice is trimming once |
| JsText.IncludesIsSubstring | src/app/api/statistics/route.ts:112 | `includes` holds exactly when the substring occurs at some offset |
| JsText.JoinSplit | src/app/api/statistics/route.ts:49 | joining the pieces of `split(',')` with commas gives the string back |
| JsText.SplitJoin | src/app/api/statistics/route.ts:49 | splitting comma-joined pieces that hold no comma gives the pieces back |
| JsText.LexLeIsTotalOrder | src/app/api/statistics/route.ts:87 | `<=` on strings is reflexive, antisymmetric, transitive and total |
| Calendar.NewCityRecord | src/app/components/Calendar.tsx:223-228 | the new record has the given id, `city || ''`, no activities and the fetched weather |
| Calendar.AddCityRecord | src/app/components/Calendar.tsx:230-243 | appends the new record to the end of the day's records; creates the day with the given date when it is absent; every other day is unchanged |
| Calendar.AppendToRecord | src/app/components/Calendar.tsx:255-266 | only records with the id get the activity appended; all other records are identical; order and length are kept |
| Calendar.AddActivity | src/app/components/Calendar.tsx:251-278 | an absent day leaves the events unchanged; otherwise only that day's records change, as `AppendToRecord` says, and its date stays |
| Calendar.WithoutRecord | src/app/components/Calendar.tsx:289-291 | keeps exactly the records with another id |
| Calendar.DeleteCityRecord | src/app/components/Calendar.tsx:285-313 | unchanged for an absent or already empty day; a day left without records is removed, otherwise it keeps the remaining records; no other day changes |
| Calendar.RemoveFromRecord | src/app/components/Calendar.tsx:324-331 | only records with the id lose the activity; all other records are identical |
| Calendar.DeleteActivity | src/app/components/Calendar.tsx:320-356 | unchanged for an absent or already empty day; otherwise the day keeps exactly the records that survive the clean-up filter after the activity is removed, in order, and is removed when none survives; no other day changes |
| Calendar.Filter | src/app/components/Calendar.tsx:289-291 | `Array.prototype.filter`: exactly the elements that pass |
| Calendar.FilterAppend | src/app/components/Calendar.tsx:332 | filtering works piece by piece, so the survivors keep their order |
| Calendar.UpdatersKeepNoEmptyDays | src/app/components/Calendar.tsx:216-357 | starting without empty days, none of the four updaters leaves an empty day behind |
| Calendar.AddThenDeleteCityRecord | src/app/components/Calendar.tsx:230-313 | deleting a freshly added record restores the events, except that a day that was present but empty is removed |
| Calendar.AddThenDeleteActivity | src/app/components/Calendar.tsx:251-356 | deleting a freshly added activity restores the events when every record of the day survives the clean-up filter |
| Calendar.CollectRecordNames | src/app/components/Calendar.tsx:39-43 | appends, in record order, the trimmed name of every named record not yet listed, so the list stays free of repeats |
| Calendar.CollectCities | src/app/components/Calendar.tsx:37-44 | `allCities` lists every collected name exactly once, in the order first met along the key order |
| Calendar.AppendNewAppend | src/app/components/Calendar.tsx:37-44 | adding names to the Set in two batches is adding them in one |
| Calendar.ExtendColorsAppendNew | src/app/components/Calendar.tsx:46-58 | colouring the de-duplicated names is colouring the names with their repeats |
| Calendar.UpdateColorMap | src/app/components/Calendar.tsx:46-61 | the new map is the old one extended city by city; `updated` holds exactly when some city was new; with no new city the old map itself is returned |
| Calendar.RefreshColorMap | src/app/components/Calendar.tsx:36-63 | the new map extends the old one along every record name in the order the effect meets them, so new cities get consecutive palette entries (`ExtendColorsRoundRobin`); the keys are the old keys plus every collected name; existing bindings never change; with no new city the map is unchanged |
| Calendar.ExtendColorsKeys | src/app/components/Calendar.tsx:51-56 | after meeting cities, the keys are the old keys plus those cities |
| Calendar.ExtendColorsKeeps | src/app/components/Calendar.tsx:52 | a binding, once made, is never changed |
| Calendar.ExtendColorsPalette | src/app/components/Calendar.tsx:53 | every new binding is a palette colour |
| Calendar.ExtendColorsSize | src/app/components/Calendar.tsx:55 | over distinct new cities the map grows by one per city |
| Calendar.ExtendColorsAppend | src/app/components/Calendar.tsx:51-58 | meeting `a` then `b` is meeting `a + b` |
| Calendar.ExtendColorsRoundRobin | src/app/components/Calendar.tsx:49-56 | over distinct new cities, the n-th (from 0) gets the palette entry at the starting size plus n, taken modulo 10 |
| Calendar.ExtendColorsGrows | src/app/components/Calendar.tsx:56-60 | the map gains a key exactly when some city is new |
| Calendar.CityColor | src/app/components/Calendar.tsx:67-72 | grey for an empty or unmapped trimmed name, otherwise the class bound to the trimmed name |
| Calendar.RecordsAreColoured | src/app/components/Calendar.tsx:36-72 | after the effect, every named record shows the palette colour bound to its trimmed name, never grey |
| CityColors.PaletteAtCycles | src/app/components/Calendar.tsx:53 | every running index picks a palette colour, and indices ten apart pick the same one |
| CityColors.PaletteShape | src/app/components/Calendar.tsx:13-16 | the palette holds ten distinct colours, none of them the grey fallback |
| CityColors.ClassNameInjective | src/app/components/Calendar.tsx:13-16 | distinct colours have distinct class names |
| MonthView.CityAbbreviation | src/app/components/MonthView.tsx:31-46 | the tag has at most two characters and is empty exactly for the empty name |
| MonthView.AbbreviationIsUpperPrefix | src/app/components/MonthView.tsx:34-44 | on every branch, the tag is the first two characters passed through upper-casing (the identity when the name has no ASCII letter) |
| MonthView.AbbreviationShape | src/app/components/MonthView.tsx:31-46 | the tag is as long as the name allows, up to two characters, with no lower-case letter |
| MonthView.AbbreviationIdempotent | src/app/components/MonthView.tsx:31-46 | tagging a tag gives the tag back |
| MonthView.AbbreviationIgnoresCase | src/app/components/MonthView.tsx:37 | names that differ only in letter case share a tag |
| MonthView.RecordsForDay | src/app/components/MonthView.tsx:75-78 | a missing date gives no records, a present one gives its records |
| MonthView.RecordsAfterAdd | src/app/components/MonthView.tsx:75-78 | after adding a record the day shows its old records and then the new one; other days show the same |
| MonthView.RecordsAfterDelete | src/app/components/MonthView.tsx:75-78 | after a delete the day shows exactly its old records with another id; other days show the same |
| MonthView.LeadingBlanks | src/app/components/MonthView.tsx:119 | fewer than seven blanks, and the first of the month lands under the header of its own weekday |
| MonthView.LeadingBlanksClosedForm | src/app/components/MonthView.tsx:119 | the lead is `(startDay + 6) % 7` |
| MonthView.TrailingBlanks | src/app/components/MonthView.tsx:162 | fewer than seven blanks, and lead + days + trail is a multiple of seven |
| MonthView.TrailingBlanksMinimal | src/app/components/MonthView.tsx:162 | no smaller count also fills the last row |
| MonthView.GridShape | src/app/components/MonthView.tsx:113-164 | the grid is whole weeks, and day k sits in order under the header of its own weekday |
| MonthView.GridRows | src/app/components/MonthView.tsx:119-162 | a month of 28 to 31 days takes four to six rows |
| WeekView.WeatherIcon | src/app/components/WeekView.tsx:30-92 | an icon wrapped in a span always carries an animation |
| WeekView.MissingConditionIsNa | src/app/components/WeekView.tsx:31-34 | an undefined condition gives the N/A icon, unanimated |
| WeekView.NaIffUnrecognised | src/app/components/WeekView.tsx:33-80 | the N/A icon is drawn exactly when no word of the ladder occurs |
| WeekView.IconIgnoresCase | src/app/components/WeekView.tsx:31 | conditions that differ only in letter case get the same icon |
| WeekView.IconOfLowered | src/app/components/WeekView.tsx:31 | a condition already in lower case is read as it stands |
| WeekView.SunnyWins | src/app/components/WeekView.tsx:37-39 | "sunny" wins over any other word of the condition |
| WeekView.WordsConsistent | src/app/components/WeekView.tsx:43-56 | "partly cloudy" contains "cloudy", and both shower phrases contain "rain" |
| WeekView.PrecipitationBranches | src/app/components/WeekView.tsx:54-67 | past the earlier branches, rain is drawn as showers or by the rain sub-ladder, and snow without rain by the snow sub-ladder; "light" wins within both sub-ladders; neither is animated |
| WeekView.AnimatedExactly | src/app/components/WeekView.tsx:37-91 | an icon is animated exactly when the sunny, clear or cloud branches match and no blizzard is mentioned |
| WeekView.AnimationKind | src/app/components/WeekView.tsx:37-51 | sunny and clear spin; the three cloud branches float |
| WeekView.ConfirmAddCity | src/app/components/WeekView.tsx:132-138 | submits, exactly when the trimmed text is non-empty and a day is chosen, the untrimmed text, then clears the form; otherwise nothing changes |
| WeekView.ConfirmAddActivity | src/app/components/WeekView.tsx:150-156 | submits, exactly when the trimmed text is non-empty, the untrimmed text for the pressed record, then clears the form; otherwise nothing changes |
| WeekView.BlankNeverSubmitted | src/app/components/WeekView.tsx:133-152 | text is held back from either form exactly when it is all white space |
| WeekView.ConfirmOnce | src/app/components/WeekView.tsx:133-155 | a second confirm, made once the first has completed, submits nothing, on either form |
| StatisticsPage.RequestParams | src/app/statistics/page.tsx:60-89 | no request without both dates; the keywords parameter is sent trimmed, and only when something is left |
| StatisticsPage.RequestMatchesRoute | src/app/statistics/page.tsx:83-89 | a request that is sent never fails the route's missing-date check, and the route parses the same keywords as from the text as typed |
| StatisticsPage.ColorAssigner.constructor | src/app/statistics/page.tsx:69-70 | each fetch starts from an empty map and index 0 |
| StatisticsPage.ColorAssigner.AssignColor | src/app/statistics/page.tsx:71-79 | a known city keeps its colour and the index stays; a new city takes `palette[index % 10]` and the index advances; the index always counts the map's entries |
| StatisticsPage.AssignAll | src/app/statistics/page.tsx:95-99 | one `assignColor` per city, in order, on a fresh map builds `ExtendColors` of the cities |
| StatisticsPage.ColorMapFor | src/app/statistics/page.tsx:69-101 | the fetched map has exactly one entry per key of the city durations, and the n-th key gets `palette[n % 10]` |
| StatisticsPage.FreshMapRoundRobin | src/app/statistics/page.tsx:75-78 | on a fresh map, the n-th distinct city gets palette entry n modulo 10 |
| StatisticsPage.ColorMapPalette | src/app/statistics/page.tsx:75-77 | the fetched map holds palette colours only |
| StatisticsPage.CityColorClass | src/app/statistics/page.tsx:47-56 | never empty; grey for an unmapped city |
| StatisticsPage.FetchedCitiesColoured | src/app/statistics/page.tsx:47-56 | after a fetch every city of the answer is drawn in its own palette colour, never grey, and every other name in grey |
| StatisticsPage.SortByCount | src/app/statistics/page.tsx:190-192 | the sorted list is a permutation of the entries |
| StatisticsPage.SortIsDescending | src/app/statistics/page.tsx:190-192 | the sorted list is non-increasing by count |
| StatisticsPage.SortIsStable | src/app/statistics/page.tsx:190-192 | entries with equal counts keep the order they came in |
| StatisticsPage.InsertDescending | src/app/statistics/page.tsx:192 | inserting keeps a descending list descending |
| StatisticsPage.InsertWithCount | src/app/statistics/page.tsx:192 | the inserted entry goes after every larger count and before every equal one |
| PrototypeKeys.ConstructorCityGarbled | src/app/api/statistics/route.ts:99 | as written, a city named "constructor" starts at the text of `Object` with "1" appended, where 1 is intended |
| PrototypeKeys.ProtoCityDropped | src/app/api/statistics/route.ts:99 | as written, a city named "__proto__" is never reported, where a count of 1 is intended |
| PrototypeKeys.AgreesElsewhere | src/app/api/statistics/route.ts:99 | on every other key the tally as written agrees with the corrected `Bump` |
| PrototypeKeys.ProtoKeywordDropped | src/app/api/statistics/route.ts:81 | as written, the keyword "__proto__" gets no tally at all |
| PrototypeKeys.InitCountsAgreeElsewhere | src/app/api/statistics/route.ts:81 | as written, the tallies start at zero for exactly the keywords other than "__proto__" |
| PrototypeKeys.InitCounts | src/app/api/statistics/route.ts:81 | corrected: every keyword, and nothing else, starts at zero |
| PrototypeKeys.InitCountsIntended | src/app/api/statistics/route.ts:74-81 | the corrected start is the intended answer for a document without events |

## Left out

- Authentication, the session check and the 401 reply are not modelled (src/lib/authOptions.ts is not part of this model). The caller is trusted.
- Database access is not modelled. `GetStatistics` takes the outcome of reading the document as a `StoreRead` input: a failure or an optional document.
- The weather proxy and `fetchWeather` are not modelled. The snapshot is a parameter that the model carries along without looking inside.
- `YearView.tsx` is left out, together with the UI-only files and the configuration.
- The date-fns calls are replaced by their results:
  - `format` is replaced by the date key;
  - `getDay(startOfMonth(...))` by the `startDay` weekday;
  - `eachDayOfInterval` by the number of days.
- Ids produced by `uuidv4` are parameters.
- The client's `Date` values are kept as opaque instants.
- axios calls, `console` output, React state scheduling and rendering are left out. Each updater is modelled as the pure transition it returns.
- The awaited weather fetch inside `handleAddCityRecord`, and the awaited `onAddCityRecord` in `handleConfirmAddCity`, are not modelled. Their interleavings and failures are left out.
- WeekView.ConfirmOnce: holds only for a second confirm made after the first has finished. `handleConfirmAddCity` clears the form only after its awaited `onAddCityRecord`. While that is pending, the button and the Enter key stay live, so two quick confirms submit the city twice.
- Case mapping covers ASCII letters only. `toLowerCase` and `toUpperCase` of other characters are taken as the identity.
- Strings are sequences of Unicode characters, not UTF-16 code units. This affects three places:
  - string comparison outside the Basic Multilingual Plane;
  - `substring(0, 2)` on an astral character;
  - `length` of such names.
- The enumeration order of JavaScript object keys is a parameter wherever order matters. `Calendar.CollectCities` takes the order of `Object.values(events)`. `StatisticsPage.ColorMapFor` takes the order of `Object.keys(cityDurations)`. For city durations and keyword counts the result does not depend on the order, and `Aggregate` is proved for every order.
- StatisticsRoute.Aggregate: the stored document cannot hold values on which the handler throws. The 500 reply from the `catch` (src/app/api/statistics/route.ts:131-133) is therefore not reached through these:
  - a `null` day or record;
  - a `null` activity, read through `activity.description`;
  - a `cityRecords` or `activities` value that is truthy but not an array, on which `.forEach` fails.
- Non-object `events` values other than "absent" are folded into `None`.
- `StatisticsRoute.Aggregate` computes the tallies as maps. The object-literal behaviour of the source on prototype keys is modelled separately (see Findings).
- `PrototypeKeys.Inherited` models only the two inherited properties whose names are all lower-case, `constructor` and `__proto__`. Only these can clash:
  - city keys are lower-cased;
  - keyword keys are written as own properties before they are read.
- The weather temperature is a float in the source and an integer here. It is never computed with.
- `StatisticsPage.CityColorClass` does not model the `|| ''` fallback, because every class name in the model is non-empty.
- `StatisticsPage.SortByCount`: `Array.prototype.sort` is modelled by a stable insertion sort, and only the properties the page relies on are proved about it: permutation, descending order and stability. The engine's comparison sequence is not modelled.
- `WeekView.WeatherIcon` models the blizzard fragment as one icon value, `StrongWindAndSnow`.

## Findings

| source | as written | input that shows it | evidently intended | confidence | as-written member | corrected member |
|---|---|---|---|---|---|---|
| src/app/api/statistics/route.ts:99 | `cityDurations` is a plain `{}`, so `cityDurations[city] \|\| 0` reads inherited properties | a record whose city, trimmed and lower-cased, is "constructor" (reported as the text of `Object` with "1" appended) or "__proto__" (never reported) | every counted city is reported with its number of days | not executed | PrototypeKeys.ConstructorCityGarbled | StatisticsRoute.Bump |
| src/app/api/statistics/route.ts:81 | the keyword tallies start from `{}` through `acc[key] = 0`, which is ignored for the key "__proto__" | the keywords parameter "__proto__" (no `keywordCounts` entry at all) | every parsed keyword has a tally that starts at 0 | not executed | PrototypeKeys.ProtoKeywordDropped | PrototypeKeys.InitCounts |
