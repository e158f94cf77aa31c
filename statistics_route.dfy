/** The statistics endpoint (`GET /api/statistics`): validates an
    inclusive date range, parses a comma-separated keyword list, and tallies
    (a) on how many distinct in-range days each normalized city appears and
    (b) how many in-range activity descriptions contain each keyword.

    The stored calendar document is semi-structured JSON, so its shape here
    is looser than the client's typed state: a city may be something other
    than a string, a record's activity list may be absent, a description
    may be missing or not a string. */
module StatisticsRoute {
  import opened Options
  import opened JsText

  // ---------------------------------------------------------------------
  // The stored document
  // ---------------------------------------------------------------------

  /** `description`: `None` when it is missing or not a string. */
  datatype StoredActivity = StoredActivity(description: Option<string>)

  /** `city`: `None` when it is not a string; `activities`: `None` when
      the field is absent. */
  datatype StoredRecord = StoredRecord(city: Option<string>, activities: Option<seq<StoredActivity>>)

  /** `cityRecords`: `None` when the field is absent. */
  datatype StoredDay = StoredDay(cityRecords: Option<seq<StoredRecord>>)

  type StoredEvents = map<string, StoredDay>

  /** `events`: `None` when it is absent, falsy or not an object. */
  datatype StoredDocument = StoredDocument(events: Option<StoredEvents>)

  /** What reading the caller's document from the store produced. */
  datatype StoreRead = ReadFailed | Loaded(document: Option<StoredDocument>)

  // ---------------------------------------------------------------------
  // Request and response
  // ---------------------------------------------------------------------

  /** The query parameters; `None` is a parameter that is not there. */
  datatype Query = Query(startDate: Option<string>, endDate: Option<string>, keywords: Option<string>)

  datatype RouteError = MissingDates | BadDateFormat | StartAfterEnd | InternalError

  function StatusCode(e: RouteError): (code: nat)
    ensures code == 400 || code == 500
    ensures code == 500 <==> e == InternalError
  {
    if e == InternalError then 500 else 400
  }

  datatype Statistics = Statistics(cityDurations: map<string, nat>, keywordCounts: Option<map<string, nat>>)

  datatype Response = Ok(stats: Statistics) | Failed(error: RouteError)

  /** A query parameter is truthy: present and not the empty string. */
  predicate Present(p: Option<string>) {
    p.Some? && p.value != ""
  }

  /** The three 400 checks, in the order the handler makes them. */
  function CheckDates(q: Query): (r: Result<(string, string), RouteError>)
    ensures r == Failure(MissingDates) <==> !Present(q.startDate) || !Present(q.endDate)
    ensures r.Success? <==>
      && Present(q.startDate) && Present(q.endDate)
      && IsDateKey(q.startDate.value) && IsDateKey(q.endDate.value)
      && LexLe(q.startDate.value, q.endDate.value)
    ensures r == Failure(BadDateFormat) <==>
      && Present(q.startDate) && Present(q.endDate)
      && (!IsDateKey(q.startDate.value) || !IsDateKey(q.endDate.value))
    ensures r == Failure(StartAfterEnd) <==>
      && Present(q.startDate) && Present(q.endDate)
      && IsDateKey(q.startDate.value) && IsDateKey(q.endDate.value)
      && !LexLe(q.startDate.value, q.endDate.value)
    ensures r.Success? ==> r.value == (q.startDate.value, q.endDate.value)
    ensures r.Failure? ==> r.error != InternalError
  {
    if !Present(q.startDate) || !Present(q.endDate) then Failure(MissingDates)
    else
      var start, end := q.startDate.value, q.endDate.value;
      if !IsDateKey(start) || !IsDateKey(end) then Failure(BadDateFormat)
      else if LexLess(end, start) then Failure(StartAfterEnd)
      else Success((start, end))
  }

  // ---------------------------------------------------------------------
  // Keywords
  // ---------------------------------------------------------------------

  /** `.map(k => k.trim())`. */
  function TrimEach(parts: seq<string>): (r: seq<string>)
    ensures |r| == |parts|
    ensures forall i :: 0 <= i < |parts| ==> r[i] == Trim(parts[i])
  {
    seq(|parts|, i requires 0 <= i < |parts| => Trim(parts[i]))
  }

  /** `.filter(k => k)` on strings: every element but `z` (the empty
      string) is kept, as often as it occurs and in order. */
  function DropAll<T(==,!new)>(u: seq<T>, z: T): (r: seq<T>)
    ensures |r| <= |u|
    ensures forall k :: k in r ==> k in u && k != z
    ensures forall k :: k != z ==> multiset(r)[k] == multiset(u)[k]
    ensures forall i :: 0 <= i < |u| && u[i] != z ==> u[i] in r
    decreases |u|
  {
    if u == [] then []
    else
      var head := if u[0] != z then [u[0]] else [];
      var rest := DropAll(u[1..], z);
      KeepStep(u, z, head, rest);
      head + rest
  }

  /** Dropping every `z` from a list with a given head: the head goes in
      front of what is kept of the tail, unless it is a `z`. */
  lemma KeepStep<T(!new)>(u: seq<T>, z: T, head: seq<T>, rest: seq<T>)
    requires |u| > 0
    requires head == if u[0] != z then [u[0]] else []
    requires forall k :: k in rest ==> k in u[1..] && k != z
    requires forall k :: k != z ==> multiset(rest)[k] == multiset(u[1..])[k]
    ensures forall k :: k in head + rest ==> k in u && k != z
    ensures forall k :: k != z ==> multiset(head + rest)[k] == multiset(u)[k]
    ensures forall i :: 0 <= i < |u| && u[i] != z ==> u[i] in head + rest
  {
    assert u == [u[0]] + u[1..];
    assert multiset(u) == multiset{u[0]} + multiset(u[1..]);
    assert multiset(head + rest) == multiset(head) + multiset(rest);
    forall i | 0 <= i < |u| && u[i] != z ensures u[i] in head + rest {
      assert u[i] in multiset(u);
    }
  }

  /** A list without `z` passes unchanged. */
  lemma {:induction false} DropAllNone<T(!new)>(u: seq<T>, z: T)
    requires z !in u
    ensures DropAll(u, z) == u
    decreases |u|
  {
    if u != [] {
      assert u[0] != z;
      assert forall k :: k in u[1..] ==> k in u;
      DropAllNone(u[1..], z);
      assert u == [u[0]] + u[1..];
    }
  }

  /** Every piece, once trimmed, is its own trim. */
  lemma TrimEachClean(parts: seq<string>)
    ensures forall k :: k in TrimEach(parts) ==> Trim(k) == k
  {
    forall i | 0 <= i < |parts| ensures Trim(TrimEach(parts)[i]) == TrimEach(parts)[i] {
      TrimIdempotent(parts[i]);
    }
  }

  /** `.map(k => k.trim()).filter(k => k)`: every non-empty trimmed piece
      is kept, as often as it occurs, and nothing else. */
  function TrimmedNonEmpty(parts: seq<string>): (r: seq<string>)
    ensures |r| <= |parts|
    ensures forall k :: k in r ==> k != "" && Trim(k) == k
    ensures forall k :: k != "" ==> multiset(r)[k] == multiset(TrimEach(parts))[k]
    ensures forall i :: 0 <= i < |parts| && Trim(parts[i]) != "" ==> Trim(parts[i]) in r
  {
    TrimEachClean(parts);
    DropAll(TrimEach(parts), "")
  }

  /** Pieces that are already trimmed and non-empty pass unchanged. */
  lemma TrimmedNonEmptyOfClean(ks: seq<string>)
    requires forall k :: k in ks ==> k != "" && Trim(k) == k
    ensures TrimmedNonEmpty(ks) == ks
  {
    assert TrimEach(ks) == ks;
    DropAllNone(ks, "");
  }

  /** `.map(trim).filter(k => k)` keeps out any character the pieces keep out. */
  lemma TrimmedNonEmptyKeepsOut(parts: seq<string>, sep: char)
    requires forall p :: p in parts ==> sep !in p
    ensures forall k :: k in TrimmedNonEmpty(parts) ==> sep !in k
  {
    forall i | 0 <= i < |parts| ensures sep !in TrimEach(parts)[i] {
      assert parts[i] in parts;
      TrimKeepsOut(parts[i], sep);
    }
  }

  /** `keywordsParam ? keywordsParam.split(',').map(trim).filter(k => k) : []`. */
  function ParseKeywords(param: Option<string>): (keywords: seq<string>)
    ensures forall k :: k in keywords ==> k != "" && Trim(k) == k && ',' !in k
    ensures !Present(param) ==> keywords == []
    ensures Present(param) ==> forall k :: k != "" ==>
      multiset(keywords)[k] == multiset(TrimEach(Split(param.value, ',')))[k]
  {
    if !Present(param) then []
    else
      TrimmedNonEmptyKeepsOut(Split(param.value, ','), ',');
      TrimmedNonEmpty(Split(param.value, ','))
  }

  /** Parsing comma-joined keywords that are non-empty, trimmed and free
      of commas gives the same keywords back, in order and with repeats. */
  lemma ParseJoin(ks: seq<string>)
    requires forall k :: k in ks ==> k != "" && Trim(k) == k && ',' !in k
    ensures ParseKeywords(Some(Join(ks, ','))) == ks
  {
    if ks != [] {
      assert ks[0] in ks;
      assert |Join(ks, ',')| >= |ks[0]| > 0;
      SplitJoin(ks, ',');
      TrimmedNonEmptyOfClean(ks);
    }
  }

  /** Pieces with the same trims give the same keywords. */
  lemma TrimmedNonEmptyPointwise(a: seq<string>, b: seq<string>)
    requires |a| == |b|
    requires forall i :: 0 <= i < |a| ==> Trim(a[i]) == Trim(b[i])
    ensures TrimmedNonEmpty(a) == TrimmedNonEmpty(b)
  {
    assert TrimEach(a) == TrimEach(b);
  }

  lemma SpaceHasNoComma(w: string)
    requires AllSpace(w)
    ensures ',' !in w
  {
  }

  /** Splitting `w1 + m + w2` cuts the same pieces as splitting `m`, with
      `w1` stuck to the first and `w2` to the last. */
  lemma SplitPadded(w1: string, m: string, w2: string) returns (whole: seq<string>, parts: seq<string>)
    requires ',' !in w1 && ',' !in w2
    ensures whole == Split(w1 + m + w2, ',') && parts == Split(m, ',')
    ensures |whole| == |parts|
    ensures forall i :: 0 <= i < |parts| ==>
      whole[i] == (if i == 0 then w1 else "") + parts[i] + (if i == |parts| - 1 then w2 else "")
  {
    parts := Split(m, ',');
    var n := |parts|;
    SplitPrefix(w1, m, ',');
    var front := Split(w1 + m, ',');
    assert front == [w1 + parts[0]] + parts[1..];
    SplitSuffix(w1 + m, w2, ',');
    whole := Split(w1 + m + w2, ',');
    PadEnds(w1, parts, w2, front, whole);
  }

  /** Lengthening the first piece in front and the last piece behind. */
  lemma PadEnds<T>(w1: seq<T>, parts: seq<seq<T>>, w2: seq<T>, front: seq<seq<T>>, whole: seq<seq<T>>)
    requires |parts| >= 1
    requires front == [w1 + parts[0]] + parts[1..]
    requires whole == front[..|parts| - 1] + [front[|parts| - 1] + w2]
    ensures |whole| == |parts|
    ensures forall i :: 0 <= i < |parts| ==>
      whole[i] == (if i == 0 then w1 else []) + parts[i] + (if i == |parts| - 1 then w2 else [])
  {
    var n := |parts|;
    forall i | 0 <= i < n
      ensures whole[i] == (if i == 0 then w1 else []) + parts[i] + (if i == n - 1 then w2 else [])
    {
      var f := if i == 0 then w1 + parts[0] else parts[i];
      assert front[i] == f;
      assert f == (if i == 0 then w1 else []) + parts[i];
      if i == n - 1 {
        assert whole[i] == f + w2;
      } else {
        assert whole[i] == f;
        assert f + [] == f;
      }
    }
  }

  /** White space around the whole parameter does not change the keyword
      list, so a parameter trimmed by the caller parses the same. */
  lemma KeywordsIgnoreOuterSpace(s: string)
    ensures ParseKeywords(Some(Trim(s))) == ParseKeywords(Some(s))
  {
    var w1, w2 := TrimSplitsOff(s);
    var m := Trim(s);
    if m == "" {
      assert AllSpace(s);
      SpaceHasNoComma(s);
      if s != "" {
        SplitPlain(s, ',', []);
        assert s + [] == s;
      }
    } else {
      SpaceHasNoComma(w1);
      SpaceHasNoComma(w2);
      var whole, parts := SplitPadded(w1, m, w2);
      forall i | 0 <= i < |parts| ensures Trim(whole[i]) == Trim(parts[i]) {
        TrimIgnoresPadding(if i == 0 then w1 else "", parts[i], if i == |parts| - 1 then w2 else "");
      }
      TrimmedNonEmptyPointwise(whole, parts);
    }
  }

  // ---------------------------------------------------------------------
  // City durations: specification
  // ---------------------------------------------------------------------

  /** `dateStr >= startDateParam && dateStr <= endDateParam`. */
  predicate InRange(key: string, start: string, end: string) {
    LexLe(start, key) && LexLe(key, end)
  }

  /** The name a record is counted under (`city.trim().toLowerCase()`), or
      `None` when its city is not a string or only white space. */
  function CountedCity(r: StoredRecord): Option<string> {
    if r.city.Some? && Trim(r.city.value) != "" then Some(ToLower(Trim(r.city.value))) else None
  }

  /** The set of counted cities of a day's records (`uniqueCitiesToday`). */
  function RecordCities(records: seq<StoredRecord>): set<string> {
    set r | r in records && CountedCity(r).Some? :: CountedCity(r).value
  }

  lemma RecordCitiesSnoc(records: seq<StoredRecord>, i: int)
    requires 0 <= i < |records|
    ensures RecordCities(records[..i + 1])
         == RecordCities(records[..i]) + (if CountedCity(records[i]).Some? then {CountedCity(records[i]).value} else {})
  {
    assert records[..i + 1] == records[..i] + [records[i]];
  }

  function DayCities(day: StoredDay): set<string> {
    if day.cityRecords.Some? then RecordCities(day.cityRecords.value) else {}
  }

  ghost function InRangeAmong(keys: set<string>, start: string, end: string): set<string> {
    set d | d in keys && InRange(d, start, end)
  }

  lemma InRangeAmongStep(keys: set<string>, d: string, start: string, end: string)
    ensures InRangeAmong(keys + {d}, start, end)
         == InRangeAmong(keys, start, end) + (if InRange(d, start, end) then {d} else {})
  {
  }

  /** Taking one more element out of the pending ones. */
  lemma VisitOne<T>(all: set<T>, pending: set<T>, x: T)
    requires x in pending
    ensures all - (pending - {x}) == (all - pending) + (if x in all then {x} else {})
  {
  }

  /** The in-range date keys of the document. */
  ghost function InRangeDays(events: StoredEvents, start: string, end: string): set<string> {
    InRangeAmong(events.Keys, start, end)
  }

  /** Each date key of the document, mapped to the cities counted on it. */
  function CitiesByDay(events: StoredEvents): (byDay: map<string, set<string>>)
    ensures byDay.Keys == events.Keys
  {
    map d | d in events :: DayCities(events[d])
  }

  /** The days among `days` on which city `c` is counted. */
  ghost function Visits(byDay: map<string, set<string>>, days: set<string>, c: string): set<string> {
    set d | d in days && d in byDay && c in byDay[d]
  }

  /** Every city counted on some day among `days`. */
  ghost function Seen(byDay: map<string, set<string>>, days: set<string>): set<string> {
    set d, c | d in days && d in byDay && c in byDay[d] :: c
  }

  ghost function Durations(byDay: map<string, set<string>>, days: set<string>): map<string, nat> {
    map c | c in Seen(byDay, days) :: |Visits(byDay, days, c)|
  }

  /** The intended `cityDurations`: each city seen in range, mapped to the
      number of distinct in-range days it is seen on. */
  ghost function CityDurations(events: StoredEvents, start: string, end: string): map<string, nat> {
    Durations(CitiesByDay(events), InRangeDays(events, start, end))
  }

  /** One day's contribution: every city in `cities` goes up by one,
      starting from zero when it is new. */
  function Bump(durations: map<string, nat>, cities: set<string>): (r: map<string, nat>)
    ensures r.Keys == durations.Keys + cities
  {
    map c | c in durations.Keys + cities ::
      (if c in durations then durations[c] else 0) + (if c in cities then 1 else 0)
  }

  lemma SeenStep(byDay: map<string, set<string>>, days: set<string>, d: string)
    requires d in byDay
    ensures Seen(byDay, days + {d}) == Seen(byDay, days) + byDay[d]
  {
  }

  lemma VisitsStep(byDay: map<string, set<string>>, days: set<string>, d: string, c: string)
    requires d in byDay && d !in days
    ensures Visits(byDay, days + {d}, c) == Visits(byDay, days, c) + (if c in byDay[d] then {d} else {})
  {
  }

  lemma VisitsUnseen(byDay: map<string, set<string>>, days: set<string>, c: string)
    requires c !in Seen(byDay, days)
    ensures Visits(byDay, days, c) == {}
  {
  }

  /** Counting one more day bumps exactly the cities of that day. */
  lemma DurationsStep(byDay: map<string, set<string>>, days: set<string>, d: string)
    requires d in byDay && d !in days
    ensures Durations(byDay, days + {d}) == Bump(Durations(byDay, days), byDay[d])
  {
    var before := Durations(byDay, days);
    var after := Durations(byDay, days + {d});
    var bumped := Bump(before, byDay[d]);
    SeenStep(byDay, days, d);
    assert after.Keys == bumped.Keys;
    forall c | c in after.Keys ensures after[c] == bumped[c] {
      VisitsStep(byDay, days, d, c);
      if c !in Seen(byDay, days) {
        VisitsUnseen(byDay, days, c);
      }
    }
  }

  // ---------------------------------------------------------------------
  // Keyword counts: specification
  // ---------------------------------------------------------------------

  /** The activity passes the description check and its lowercased
      description contains the (already lowercased) keyword. */
  predicate ActivityMatches(a: StoredActivity, lowerKeyword: string) {
    && a.description.Some? && a.description.value != ""
    && lowerKeyword != ""
    && Includes(ToLower(a.description.value), lowerKeyword)
  }

  function ActivityMatchCount(activities: seq<StoredActivity>, lowerKeyword: string): nat
    decreases |activities|
  {
    if activities == [] then 0
    else
      var n := |activities| - 1;
      ActivityMatchCount(activities[..n], lowerKeyword) + (if ActivityMatches(activities[n], lowerKeyword) then 1 else 0)
  }

  function RecordMatchCount(r: StoredRecord, lowerKeyword: string): nat {
    if r.activities.Some? then ActivityMatchCount(r.activities.value, lowerKeyword) else 0
  }

  function RecordsMatchCount(records: seq<StoredRecord>, lowerKeyword: string): nat
    decreases |records|
  {
    if records == [] then 0
    else
      var n := |records| - 1;
      RecordsMatchCount(records[..n], lowerKeyword) + RecordMatchCount(records[n], lowerKeyword)
  }

  function DayMatchCount(day: StoredDay, lowerKeyword: string): nat {
    if day.cityRecords.Some? then RecordsMatchCount(day.cityRecords.value, lowerKeyword) else 0
  }

  function DayMatchesAt(events: StoredEvents, d: string, lowerKeyword: string): nat {
    if d in events then DayMatchCount(events[d], lowerKeyword) else 0
  }

  /** The number of matching activities over the days `days`. */
  ghost function MatchCount(events: StoredEvents, days: set<string>, lowerKeyword: string): nat
    decreases days
  {
    if days == {} then 0
    else
      var d :| d in days;
      DayMatchesAt(events, d, lowerKeyword) + MatchCount(events, days - {d}, lowerKeyword)
  }

  /** The sum does not depend on which day is taken out first. */
  lemma {:induction false} MatchCountPick(events: StoredEvents, days: set<string>, d: string, lowerKeyword: string)
    requires d in days
    ensures MatchCount(events, days, lowerKeyword)
         == DayMatchesAt(events, d, lowerKeyword) + MatchCount(events, days - {d}, lowerKeyword)
    decreases days
  {
    var e :| e in days && MatchCount(events, days, lowerKeyword)
                          == DayMatchesAt(events, e, lowerKeyword) + MatchCount(events, days - {e}, lowerKeyword);
    if e != d {
      MatchCountPick(events, days - {e}, d, lowerKeyword);
      MatchCountPick(events, days - {d}, e, lowerKeyword);
      assert days - {e} - {d} == days - {d} - {e};
    }
  }

  /** How many times a keyword occurs in the list. */
  function Occurrences(keywords: seq<string>, k: string): nat {
    multiset(keywords)[k]
  }

  /** The intended `keywordCounts`: every listed keyword, mapped to the
      number of in-range matching activities times the number of times the
      keyword is listed. */
  ghost function KeywordCounts(events: StoredEvents, start: string, end: string, keywords: seq<string>): map<string, nat> {
    map k | k in keywords :: Occurrences(keywords, k) * MatchCount(events, InRangeDays(events, start, end), ToLower(k))
  }

  /** The whole intended answer for a document's events. */
  ghost function ExpectedStatistics(events: StoredEvents, start: string, end: string, keywords: seq<string>): Statistics {
    Statistics(
      CityDurations(events, start, end),
      if |keywords| > 0 then Some(KeywordCounts(events, start, end, keywords)) else None)
  }

  /** The events a loaded document offers; none when it or its `events`
      are absent. */
  function EventsOf(document: Option<StoredDocument>): StoredEvents {
    if document.Some? && document.value.events.Some? then document.value.events.value else map[]
  }

  // ---------------------------------------------------------------------
  // The handler
  // ---------------------------------------------------------------------

  /** `uniqueCitiesToday`, built record by record. */
  method UniqueCities(records: seq<StoredRecord>) returns (cities: set<string>)
    ensures cities == RecordCities(records)
  {
    cities := {};
    for i := 0 to |records|
      invariant cities == RecordCities(records[..i])
    {
      var city := records[i].city;
      if city.Some? && Trim(city.value) != "" {
        cities := cities + {ToLower(Trim(city.value))};
      }
      RecordCitiesSnoc(records, i);
    }
    assert records[..|records|] == records;
  }

  /** `uniqueCitiesToday.forEach(city => cityDurations[city] = (cityDurations[city] || 0) + 1)`. */
  method AddDay(durations: map<string, nat>, cities: set<string>) returns (r: map<string, nat>)
    ensures r == Bump(durations, cities)
  {
    r := durations;
    var rest := cities;
    while rest != {}
      invariant rest <= cities
      invariant r == Bump(durations, cities - rest)
      decreases rest
    {
      var c :| c in rest;
      assert Bump(durations, cities - (rest - {c})) == Bump(durations, cities - rest)[c := (if c in r then r[c] else 0) + 1];
      r := r[c := (if c in r then r[c] else 0) + 1];
      rest := rest - {c};
    }
  }

  /** The innermost `keywords.forEach`: one lowercased description against
      every keyword of the list. */
  method CountDescription(counts: map<string, nat>, keywords: seq<string>, desc: string) returns (r: map<string, nat>)
    requires forall k :: k in keywords ==> k in counts
    ensures r.Keys == counts.Keys
    ensures forall k :: k in counts ==>
      r[k] == counts[k] + (if ToLower(k) != "" && Includes(desc, ToLower(k)) then Occurrences(keywords, k) else 0)
  {
    r := counts;
    for j := 0 to |keywords|
      invariant r.Keys == counts.Keys
      invariant forall k :: k in counts ==>
        r[k] == counts[k] + (if ToLower(k) != "" && Includes(desc, ToLower(k)) then Occurrences(keywords[..j], k) else 0)
    {
      var keyword := keywords[j];
      var lowerKeyword := ToLower(keyword);
      assert keywords[..j + 1] == keywords[..j] + [keyword];
      if lowerKeyword != "" && Includes(desc, lowerKeyword) {
        r := r[keyword := r[keyword] + 1];
      }
    }
    assert keywords[..|keywords|] == keywords;
  }

  lemma ActivityMatchCountSnoc(activities: seq<StoredActivity>, j: int, lowerKeyword: string)
    requires 0 <= j < |activities|
    ensures ActivityMatchCount(activities[..j + 1], lowerKeyword)
         == ActivityMatchCount(activities[..j], lowerKeyword) + (if ActivityMatches(activities[j], lowerKeyword) then 1 else 0)
  {
    assert activities[..j + 1][..j] == activities[..j];
  }

  lemma RecordsMatchCountSnoc(records: seq<StoredRecord>, i: int, lowerKeyword: string)
    requires 0 <= i < |records|
    ensures RecordsMatchCount(records[..i + 1], lowerKeyword)
         == RecordsMatchCount(records[..i], lowerKeyword) + RecordMatchCount(records[i], lowerKeyword)
  {
    assert records[..i + 1][..i] == records[..i];
  }

  lemma Distribute(m: nat, a: nat, b: nat)
    ensures m * a + m * b == m * (a + b)
  {
  }

  /** `record.activities.forEach(...)` for one record's activities. */
  method CountActivities(counts: map<string, nat>, keywords: seq<string>, activities: seq<StoredActivity>)
    returns (r: map<string, nat>)
    requires forall k :: k in keywords ==> k in counts
    ensures r.Keys == counts.Keys
    ensures forall k :: k in counts ==>
      r[k] == counts[k] + Occurrences(keywords, k) * ActivityMatchCount(activities, ToLower(k))
  {
    r := counts;
    for j := 0 to |activities|
      invariant r.Keys == counts.Keys
      invariant forall k :: k in counts ==>
        r[k] == counts[k] + Occurrences(keywords, k) * ActivityMatchCount(activities[..j], ToLower(k))
    {
      ghost var before := r;
      var activity := activities[j];
      if activity.description.Some? && activity.description.value != "" {
        var desc := ToLower(activity.description.value);
        r := CountDescription(r, keywords, desc);
      }
      forall k | k in counts
        ensures r[k] == counts[k] + Occurrences(keywords, k) * ActivityMatchCount(activities[..j + 1], ToLower(k))
      {
        ActivityMatchCountSnoc(activities, j, ToLower(k));
        Distribute(Occurrences(keywords, k), ActivityMatchCount(activities[..j], ToLower(k)),
          if ActivityMatches(activity, ToLower(k)) then 1 else 0);
      }
    }
    assert activities[..|activities|] == activities;
  }

  /** `dayData.cityRecords.forEach(...)` for the keyword tally of one day. */
  method CountRecords(counts: map<string, nat>, keywords: seq<string>, records: seq<StoredRecord>)
    returns (r: map<string, nat>)
    requires forall k :: k in keywords ==> k in counts
    ensures r.Keys == counts.Keys
    ensures forall k :: k in counts ==>
      r[k] == counts[k] + Occurrences(keywords, k) * RecordsMatchCount(records, ToLower(k))
  {
    r := counts;
    for i := 0 to |records|
      invariant r.Keys == counts.Keys
      invariant forall k :: k in counts ==>
        r[k] == counts[k] + Occurrences(keywords, k) * RecordsMatchCount(records[..i], ToLower(k))
    {
      ghost var before := r;
      var record := records[i];
      if record.activities.Some? {
        r := CountActivities(r, keywords, record.activities.value);
      }
      forall k | k in counts
        ensures r[k] == counts[k] + Occurrences(keywords, k) * RecordsMatchCount(records[..i + 1], ToLower(k))
      {
        RecordsMatchCountSnoc(records, i, ToLower(k));
        Distribute(Occurrences(keywords, k), RecordsMatchCount(records[..i], ToLower(k)), RecordMatchCount(record, ToLower(k)));
      }
    }
    assert records[..|records|] == records;
  }

  /** Adding one more in-range day to the keyword tally. */
  lemma KeywordCountsStep(events: StoredEvents, counted: set<string>, d: string, keywords: seq<string>,
                          before: map<string, nat>, after: map<string, nat>)
    requires d !in counted
    requires after.Keys == before.Keys
    requires forall k :: k in before ==> before[k] == Occurrences(keywords, k) * MatchCount(events, counted, ToLower(k))
    requires forall k :: k in before ==> after[k] == before[k] + Occurrences(keywords, k) * DayMatchesAt(events, d, ToLower(k))
    ensures forall k :: k in after ==> after[k] == Occurrences(keywords, k) * MatchCount(events, counted + {d}, ToLower(k))
  {
    forall k | k in after
      ensures after[k] == Occurrences(keywords, k) * MatchCount(events, counted + {d}, ToLower(k))
    {
      MatchCountPick(events, counted + {d}, d, ToLower(k));
      assert counted + {d} - {d} == counted;
      Distribute(Occurrences(keywords, k), MatchCount(events, counted, ToLower(k)), DayMatchesAt(events, d, ToLower(k)));
    }
  }

  /** The body of the date loop for one in-range day: its cities each get
      one more day, and each keyword its matches on that day. */
  method TallyDay(day: StoredDay, keywords: seq<string>, durations: map<string, nat>, counts: map<string, nat>)
    returns (durations': map<string, nat>, counts': map<string, nat>)
    requires forall k :: k in keywords ==> k in counts
    ensures durations' == Bump(durations, DayCities(day))
    ensures counts'.Keys == counts.Keys
    ensures forall k :: k in counts ==>
      counts'[k] == counts[k] + Occurrences(keywords, k) * DayMatchCount(day, ToLower(k))
  {
    durations', counts' := durations, counts;
    if day.cityRecords.Some? && |day.cityRecords.value| > 0 {
      var cities := UniqueCities(day.cityRecords.value);
      durations' := AddDay(durations, cities);
    } else {
      assert Bump(durations, {}) == durations;
    }
    if |keywords| > 0 && day.cityRecords.Some? && |day.cityRecords.value| > 0 {
      counts' := CountRecords(counts, keywords, day.cityRecords.value);
    }
  }

  /** The `for (const dateStr in userEvents.events)` loop. */
  method Aggregate(events: StoredEvents, start: string, end: string, keywords: seq<string>)
    returns (cityDurations: map<string, nat>, keywordCounts: map<string, nat>)
    ensures cityDurations == CityDurations(events, start, end)
    ensures keywordCounts == KeywordCounts(events, start, end, keywords)
  {
    cityDurations := map[];
    keywordCounts := map k | k in keywords :: 0;
    var pending := events.Keys;
    ghost var counted: set<string> := {};
    ghost var byDay := CitiesByDay(events);
    while pending != {}
      invariant pending <= events.Keys
      invariant counted == InRangeAmong(events.Keys - pending, start, end)
      invariant cityDurations == Durations(byDay, counted)
      invariant keywordCounts.Keys == set k | k in keywords
      invariant forall k :: k in keywordCounts ==>
        keywordCounts[k] == Occurrences(keywords, k) * MatchCount(events, counted, ToLower(k))
      decreases pending
    {
      var dateStr :| dateStr in pending;
      InRangeAmongStep(events.Keys - pending, dateStr, start, end);
      VisitOne(events.Keys, pending, dateStr);
      if LexLe(start, dateStr) && LexLe(dateStr, end) {
        var day := events[dateStr];
        assert byDay[dateStr] == DayCities(day);
        DurationsStep(byDay, counted, dateStr);
        ghost var before := keywordCounts;
        cityDurations, keywordCounts := TallyDay(day, keywords, cityDurations, keywordCounts);
        KeywordCountsStep(events, counted, dateStr, keywords, before, keywordCounts);
        counted := counted + {dateStr};
      }
      pending := pending - {dateStr};
    }
    assert events.Keys - pending == events.Keys;
  }

  /** `GET /api/statistics` for an authenticated caller: the dates are
      checked before the store is touched, a failed read is a 500, and
      otherwise the answer is the tally of the loaded document. */
  method GetStatistics(query: Query, store: StoreRead) returns (response: Response)
    ensures CheckDates(query).Failure? ==> response == Failed(CheckDates(query).error)
    ensures CheckDates(query).Success? && store.ReadFailed? ==> response == Failed(InternalError)
    ensures CheckDates(query).Success? && store.Loaded? ==>
      var (start, end) := CheckDates(query).value;
      response == Ok(ExpectedStatistics(EventsOf(store.document), start, end, ParseKeywords(query.keywords)))
  {
    var dates := CheckDates(query);
    if dates.Failure? {
      return Failed(dates.error);
    }
    var (start, end) := dates.value;
    var keywords := ParseKeywords(query.keywords);
    if store.ReadFailed? {
      return Failed(InternalError);
    }
    var document := store.document;
    if document.None? || document.value.events.None? || |document.value.events.value.Keys| == 0 {
      var zeros := map k | k in keywords :: 0;
      EmptyEventsStatistics(EventsOf(document), start, end, keywords);
      return Ok(Statistics(map[], if |keywords| > 0 then Some(zeros) else None));
    }
    var cityDurations, keywordCounts := Aggregate(document.value.events.value, start, end, keywords);
    return Ok(Statistics(cityDurations, if |keywords| > 0 then Some(keywordCounts) else None));
  }

  // ---------------------------------------------------------------------
  // Properties of the intended answer
  // ---------------------------------------------------------------------

  /** With no events there are no city durations and every requested
      keyword counts zero. */
  lemma EmptyEventsStatistics(events: StoredEvents, start: string, end: string, keywords: seq<string>)
    requires events == map[]
    ensures CityDurations(events, start, end) == map[]
    ensures KeywordCounts(events, start, end, keywords) == map k | k in keywords :: 0
  {
    assert InRangeDays(events, start, end) == {};
    assert Seen(CitiesByDay(events), {}) == {};
  }

  /** A city is reported exactly when it is counted on some in-range day. */
  lemma DurationKeys(events: StoredEvents, start: string, end: string, c: string)
    ensures c in CityDurations(events, start, end) <==>
      exists d :: d in events && InRange(d, start, end) && c in DayCities(events[d])
  {
    var byDay := CitiesByDay(events);
    if exists d :: d in events && InRange(d, start, end) && c in DayCities(events[d]) {
      var d :| d in events && InRange(d, start, end) && c in DayCities(events[d]);
      assert d in InRangeDays(events, start, end) && c in byDay[d];
    }
  }

  /** Every reported city has at least one day and no more days than the
      range has date keys. */
  lemma DurationBounds(events: StoredEvents, start: string, end: string, c: string)
    requires c in CityDurations(events, start, end)
    ensures 1 <= CityDurations(events, start, end)[c] <= |InRangeDays(events, start, end)|
  {
    var byDay := CitiesByDay(events);
    var days := InRangeDays(events, start, end);
    var d, c' :| d in days && d in byDay && c' in byDay[d] && c' == c;
    assert d in Visits(byDay, days, c);
    assert Visits(byDay, days, c) <= days;
    SubsetCardinality(Visits(byDay, days, c), days);
  }

  lemma {:induction false} SubsetCardinality(a: set<string>, b: set<string>)
    requires a <= b
    ensures |a| <= |b|
    decreases b
  {
    if a != {} {
      var x :| x in a;
      SubsetCardinality(a - {x}, b - {x});
    }
  }

  /** Durations only look at the days they are asked about. */
  lemma DurationsLocal(b1: map<string, set<string>>, b2: map<string, set<string>>, days: set<string>)
    requires forall d :: d in days ==> (d in b1 <==> d in b2) && (d in b1 ==> b1[d] == b2[d])
    ensures Durations(b1, days) == Durations(b2, days)
  {
    assert Seen(b1, days) == Seen(b2, days);
    forall c | c in Seen(b1, days) ensures Visits(b1, days, c) == Visits(b2, days, c) {
    }
  }

  /** The match count only looks at the days it is asked about. */
  lemma {:induction false} MatchCountLocal(e1: StoredEvents, e2: StoredEvents, days: set<string>, lowerKeyword: string)
    requires forall d :: d in days ==> (d in e1 <==> d in e2) && (d in e1 ==> e1[d] == e2[d])
    ensures MatchCount(e1, days, lowerKeyword) == MatchCount(e2, days, lowerKeyword)
    decreases days
  {
    if days != {} {
      var d :| d in days;
      MatchCountPick(e1, days, d, lowerKeyword);
      MatchCountPick(e2, days, d, lowerKeyword);
      MatchCountLocal(e1, e2, days - {d}, lowerKeyword);
    }
  }

  /** Days outside the requested range never influence the answer: two
      documents that agree on every in-range date give the same
      statistics. */
  lemma OutOfRangeIgnored(e1: StoredEvents, e2: StoredEvents, start: string, end: string, keywords: seq<string>)
    requires forall d :: InRange(d, start, end) ==> (d in e1 <==> d in e2) && (d in e1 ==> e1[d] == e2[d])
    ensures ExpectedStatistics(e1, start, end, keywords) == ExpectedStatistics(e2, start, end, keywords)
  {
    var days := InRangeDays(e1, start, end);
    assert days == InRangeDays(e2, start, end);
    DurationsLocal(CitiesByDay(e1), CitiesByDay(e2), days);
    assert CityDurations(e1, start, end) == CityDurations(e2, start, end);
    forall k | k in keywords ensures MatchCount(e1, days, ToLower(k)) == MatchCount(e2, days, ToLower(k)) {
      MatchCountLocal(e1, e2, days, ToLower(k));
    }
    assert KeywordCounts(e1, start, end, keywords) == KeywordCounts(e2, start, end, keywords);
  }

  /** Records whose city names differ only in case and surrounding white
      space count as one city. */
  lemma CitySpellingsMerge(r1: StoredRecord, r2: StoredRecord, w1: string, w2: string)
    requires r1.city.Some? && r2.city.Some?
    requires AllSpace(w1) && AllSpace(w2)
    requires r2.city.value == w1 + ToUpper(r1.city.value) + w2
    ensures CountedCity(r1) == CountedCity(r2)
  {
    var city := r1.city.value;
    TrimIgnoresPadding(w1, ToUpper(city), w2);
    TrimUpper(city);
    LowerUpper(Trim(city));
    if Trim(city) == "" {
      assert Trim(ToUpper(city)) == "";
    }
  }

  /** Counting is blind to the case of a description. */
  lemma MatchIgnoresDescriptionCase(desc: string, lowerKeyword: string)
    ensures ActivityMatches(StoredActivity(Some(ToUpper(desc))), lowerKeyword)
        == ActivityMatches(StoredActivity(Some(desc)), lowerKeyword)
  {
    LowerUpper(desc);
  }

  /** An activity matches exactly when the lowercased keyword occurs at
      some position of the lowercased description. */
  lemma MatchIsOccurrence(a: StoredActivity, lowerKeyword: string)
    requires a.description.Some? && a.description.value != "" && lowerKeyword != ""
    ensures ActivityMatches(a, lowerKeyword) <==> exists i :: OccursAt(ToLower(a.description.value), lowerKeyword, i)
  {
    IncludesIsSubstring(ToLower(a.description.value), lowerKeyword);
  }

  /** Listing a keyword twice doubles its count. */
  lemma DuplicateKeywordDoubles(events: StoredEvents, start: string, end: string, keywords: seq<string>, k: string)
    requires k !in keywords
    ensures KeywordCounts(events, start, end, keywords + [k, k])[k]
         == 2 * MatchCount(events, InRangeDays(events, start, end), ToLower(k))
  {
    assert multiset(keywords + [k, k])[k] == 2;
  }

  /** The same, from the query text: `keywords=k,k` counts each matching
      activity twice under the one key `k`. */
  lemma DuplicateParameterDoubles(events: StoredEvents, start: string, end: string, k: string)
    requires k != "" && Trim(k) == k && ',' !in k
    ensures ParseKeywords(Some(k + "," + k)) == [k, k]
    ensures KeywordCounts(events, start, end, ParseKeywords(Some(k + "," + k)))[k]
         == 2 * MatchCount(events, InRangeDays(events, start, end), ToLower(k))
  {
    assert Join([k, k], ',') == k + "," + k by {
      assert [k, k][1..] == [k];
    }
    ParseJoin([k, k]);
    DuplicateKeywordDoubles(events, start, end, [], k);
    assert [] + [k, k] == [k, k];
  }
}
