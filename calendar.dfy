/** The calendar component's state transitions (the `setCalendarState`
    updaters for adding and deleting city records and activities) and its
    city-to-colour map. The date key, the fresh ids produced by `uuidv4`
    and the fetched weather are parameters. */
module Calendar {
  import opened Options
  import opened JsText
  import opened CalendarTypes
  import opened CityColors

  // ---------------------------------------------------------------------
  // Array filtering
  // ---------------------------------------------------------------------

  /** `s.filter(keep)`: the elements that pass, in their original order. */
  function Filter<T(!new)>(s: seq<T>, keep: T -> bool): (r: seq<T>)
    ensures |r| <= |s|
    ensures forall x :: x in r <==> x in s && keep(x)
    decreases |s|
  {
    if s == [] then []
    else (if keep(s[0]) then [s[0]] else []) + Filter(s[1..], keep)
  }

  /** Filtering a list with a given head. */
  lemma FilterCons<T(!new)>(x: T, t: seq<T>, keep: T -> bool)
    ensures Filter([x] + t, keep) == (if keep(x) then [x] else []) + Filter(t, keep)
  {
    assert ([x] + t)[0] == x;
    assert ([x] + t)[1..] == t;
  }

  /** Filtering works piece by piece, so it keeps the relative order. */
  lemma {:induction false} FilterAppend<T(!new)>(a: seq<T>, b: seq<T>, keep: T -> bool)
    ensures Filter(a + b, keep) == Filter(a, keep) + Filter(b, keep)
    decreases |a|
  {
    if a == [] {
      assert a + b == b;
    } else {
      var x, t := a[0], a[1..];
      var head := if keep(x) then [x] else [];
      assert a == [x] + t;
      assert a + b == [x] + (t + b);
      FilterCons(x, t + b, keep);
      FilterCons(x, t, keep);
      FilterAppend(t, b, keep);
      ConcatAssoc(head, Filter(t, keep), Filter(b, keep));
    }
  }

  lemma ConcatAssoc<T>(a: seq<T>, b: seq<T>, c: seq<T>)
    ensures a + (b + c) == (a + b) + c
  {
  }

  /** Filtering keeps everything exactly when everything passes. */
  lemma {:induction false} FilterKeepsAll<T(!new)>(s: seq<T>, keep: T -> bool)
    requires forall i :: 0 <= i < |s| ==> keep(s[i])
    ensures Filter(s, keep) == s
    decreases |s|
  {
    if s != [] {
      FilterKeepsAll(s[1..], keep);
    }
  }

  // ---------------------------------------------------------------------
  // handleAddCityRecord
  // ---------------------------------------------------------------------

  /** The record the handler creates: `city || ''`, no activities, and the
      weather snapshot when one was fetched. */
  function NewCityRecord(id: string, city: Option<string>, weather: Option<Weather>): (r: CityRecord)
    ensures r.id == id && r.activities == [] && r.weather == weather
    ensures r.city == (if city.Some? then city.value else "")
  {
    CityRecord(id, city.GetOr(""), [], weather)
  }

  /** Appends the new record to the day's list, creating the day (with the
      given date) when it is absent. */
  function AddCityRecord(events: Events, dateStr: string, date: Instant, id: string, city: Option<string>, weather: Option<Weather>)
    : (r: Events)
    ensures r.Keys == events.Keys + {dateStr}
    ensures forall d :: d in events && d != dateStr ==> r[d] == events[d]
    ensures dateStr in events ==> r[dateStr].date == events[dateStr].date
    ensures dateStr !in events ==> r[dateStr].date == date
    ensures r[dateStr].cityRecords
         == (if dateStr in events then events[dateStr].cityRecords else []) + [NewCityRecord(id, city, weather)]
  {
    var existing := if dateStr in events then events[dateStr] else DayData(date, []);
    events[dateStr := existing.(cityRecords := existing.cityRecords + [NewCityRecord(id, city, weather)])]
  }

  // ---------------------------------------------------------------------
  // handleAddActivity
  // ---------------------------------------------------------------------

  /** `cityRecords.map(...)`: every record with the id gets the activity
      appended; the others are returned as they are. */
  function AppendToRecord(records: seq<CityRecord>, recordId: string, activity: Activity): (r: seq<CityRecord>)
    ensures |r| == |records|
    ensures forall i :: 0 <= i < |records| ==>
      r[i].id == records[i].id && r[i].city == records[i].city && r[i].weather == records[i].weather
    ensures forall i :: 0 <= i < |records| && records[i].id == recordId ==>
      r[i].activities == records[i].activities + [activity]
    ensures forall i :: 0 <= i < |records| && records[i].id != recordId ==> r[i] == records[i]
  {
    seq(|records|, i requires 0 <= i < |records| =>
      if records[i].id == recordId then records[i].(activities := records[i].activities + [activity]) else records[i])
  }

  function AddActivity(events: Events, dateStr: string, recordId: string, activityId: string, description: Option<string>)
    : (r: Events)
    ensures dateStr !in events ==> r == events
    ensures r.Keys == events.Keys
    ensures forall d :: d in events && d != dateStr ==> r[d] == events[d]
    ensures dateStr in events ==>
      && r[dateStr].date == events[dateStr].date
      && r[dateStr].cityRecords
         == AppendToRecord(events[dateStr].cityRecords, recordId, Activity(activityId, description.GetOr("")))
  {
    if dateStr !in events then events
    else
      var day := events[dateStr];
      events[dateStr := day.(cityRecords := AppendToRecord(day.cityRecords, recordId, Activity(activityId, description.GetOr(""))))]
  }

  // ---------------------------------------------------------------------
  // handleDeleteCityRecord
  // ---------------------------------------------------------------------

  function WithoutRecord(records: seq<CityRecord>, recordId: string): (r: seq<CityRecord>)
    ensures forall x :: x in r <==> x in records && x.id != recordId
  {
    Filter(records, (x: CityRecord) => x.id != recordId)
  }

  function DeleteCityRecord(events: Events, dateStr: string, recordId: string): (r: Events)
    ensures dateStr !in events ==> r == events
    ensures dateStr in events && events[dateStr].cityRecords == [] ==> r == events
    ensures forall d :: d != dateStr ==> (d in r <==> d in events) && (d in r ==> r[d] == events[d])
    ensures dateStr in r ==> dateStr in events && r[dateStr].date == events[dateStr].date
    ensures dateStr in r && events[dateStr].cityRecords != [] ==>
      r[dateStr].cityRecords == WithoutRecord(events[dateStr].cityRecords, recordId)
    ensures dateStr in r ==> forall x :: x in r[dateStr].cityRecords ==> x.id != recordId
    ensures dateStr in events && events[dateStr].cityRecords != [] ==>
      (dateStr !in r <==> forall x :: x in events[dateStr].cityRecords ==> x.id == recordId)
  {
    if dateStr !in events then events
    else
      var day := events[dateStr];
      var remaining := WithoutRecord(day.cityRecords, recordId);
      assert |remaining| > 0 ==> remaining[0] in remaining;
      if |remaining| == 0 && |day.cityRecords| > 0 then events - {dateStr}
      else if |remaining| > 0 then events[dateStr := day.(cityRecords := remaining)]
      else events
  }

  // ---------------------------------------------------------------------
  // handleDeleteActivity
  // ---------------------------------------------------------------------

  function WithoutActivity(activities: seq<Activity>, activityId: string): (r: seq<Activity>)
    ensures forall a :: a in r <==> a in activities && a.id != activityId
  {
    Filter(activities, (a: Activity) => a.id != activityId)
  }

  /** `cityRecords.map(...)`: the activity is removed from every record
      with the id. */
  function RemoveFromRecord(records: seq<CityRecord>, recordId: string, activityId: string): (r: seq<CityRecord>)
    ensures |r| == |records|
    ensures forall i :: 0 <= i < |records| ==>
      r[i].id == records[i].id && r[i].city == records[i].city && r[i].weather == records[i].weather
    ensures forall i :: 0 <= i < |records| && records[i].id == recordId ==>
      r[i].activities == WithoutActivity(records[i].activities, activityId)
    ensures forall i :: 0 <= i < |records| && records[i].id != recordId ==> r[i] == records[i]
  {
    seq(|records|, i requires 0 <= i < |records| =>
      if records[i].id == recordId then records[i].(activities := WithoutActivity(records[i].activities, activityId))
      else records[i])
  }

  /** The clean-up filter: a record survives while it still has an
      activity or a (non-empty) city name. */
  predicate Kept(r: CityRecord) {
    |r.activities| > 0 || r.city != ""
  }

  function DeleteActivity(events: Events, dateStr: string, recordId: string, activityId: string): (r: Events)
    ensures dateStr !in events ==> r == events
    ensures dateStr in events && events[dateStr].cityRecords == [] ==> r == events
    ensures forall d :: d != dateStr ==> (d in r <==> d in events) && (d in r ==> r[d] == events[d])
    ensures dateStr in r ==> dateStr in events && r[dateStr].date == events[dateStr].date
    ensures dateStr in r && events[dateStr].cityRecords != [] ==>
      r[dateStr].cityRecords == Filter(RemoveFromRecord(events[dateStr].cityRecords, recordId, activityId), Kept)
    ensures dateStr in r ==> forall x :: x in r[dateStr].cityRecords ==> Kept(x) || x in events[dateStr].cityRecords
    ensures dateStr in r && events[dateStr].cityRecords != [] ==>
      forall x :: x in r[dateStr].cityRecords ==>
        Kept(x) && (x.id == recordId ==> forall a :: a in x.activities ==> a.id != activityId)
    ensures dateStr in events && events[dateStr].cityRecords != [] ==>
      (dateStr !in r <==> forall x :: x in RemoveFromRecord(events[dateStr].cityRecords, recordId, activityId) ==> !Kept(x))
  {
    if dateStr !in events then events
    else
      var day := events[dateStr];
      var updated := Filter(RemoveFromRecord(day.cityRecords, recordId, activityId), Kept);
      assert |updated| > 0 ==> updated[0] in updated;
      if |updated| == 0 && |day.cityRecords| > 0 then events - {dateStr}
      else events[dateStr := day.(cityRecords := if |updated| > 0 then updated else day.cityRecords)]
  }

  // ---------------------------------------------------------------------
  // Properties of the updaters
  // ---------------------------------------------------------------------

  /** Every stored day has at least one city record. */
  predicate NoEmptyDays(events: Events) {
    forall d :: d in events ==> events[d].cityRecords != []
  }

  /** Starting from a map without empty days, none of the four updaters
      ever leaves an empty day behind. */
  lemma UpdatersKeepNoEmptyDays(events: Events, dateStr: string, date: Instant, recordId: string, activityId: string,
                                city: Option<string>, weather: Option<Weather>, description: Option<string>)
    requires NoEmptyDays(events)
    ensures NoEmptyDays(AddCityRecord(events, dateStr, date, recordId, city, weather))
    ensures NoEmptyDays(AddActivity(events, dateStr, recordId, activityId, description))
    ensures NoEmptyDays(DeleteCityRecord(events, dateStr, recordId))
    ensures NoEmptyDays(DeleteActivity(events, dateStr, recordId, activityId))
  {
    AddCityRecordKeepsNoEmptyDays(events, dateStr, date, recordId, city, weather);
    AddActivityKeepsNoEmptyDays(events, dateStr, recordId, activityId, description);
    DeleteCityRecordKeepsNoEmptyDays(events, dateStr, recordId);
    DeleteActivityKeepsNoEmptyDays(events, dateStr, recordId, activityId);
  }

  lemma AddCityRecordKeepsNoEmptyDays(events: Events, dateStr: string, date: Instant, id: string,
                                      city: Option<string>, weather: Option<Weather>)
    requires NoEmptyDays(events)
    ensures NoEmptyDays(AddCityRecord(events, dateStr, date, id, city, weather))
  {
  }

  lemma AddActivityKeepsNoEmptyDays(events: Events, dateStr: string, recordId: string, activityId: string,
                                    description: Option<string>)
    requires NoEmptyDays(events)
    ensures NoEmptyDays(AddActivity(events, dateStr, recordId, activityId, description))
  {
    var r := AddActivity(events, dateStr, recordId, activityId, description);
    forall d | d in r ensures r[d].cityRecords != [] {
      if d == dateStr {
        assert |r[d].cityRecords| == |events[d].cityRecords|;
      }
    }
  }

  lemma DeleteCityRecordKeepsNoEmptyDays(events: Events, dateStr: string, recordId: string)
    requires NoEmptyDays(events)
    ensures NoEmptyDays(DeleteCityRecord(events, dateStr, recordId))
  {
  }

  lemma DeleteActivityKeepsNoEmptyDays(events: Events, dateStr: string, recordId: string, activityId: string)
    requires NoEmptyDays(events)
    ensures NoEmptyDays(DeleteActivity(events, dateStr, recordId, activityId))
  {
  }

  /** Deleting a freshly added city record undoes the addition, except that
      a day which was present but empty is gone afterwards. */
  lemma AddThenDeleteCityRecord(events: Events, dateStr: string, date: Instant, id: string,
                                city: Option<string>, weather: Option<Weather>)
    requires dateStr in events ==> forall x :: x in events[dateStr].cityRecords ==> x.id != id
    ensures DeleteCityRecord(AddCityRecord(events, dateStr, date, id, city, weather), dateStr, id)
         == if dateStr in events && events[dateStr].cityRecords == [] then events - {dateStr} else events
  {
    var rec := NewCityRecord(id, city, weather);
    var added := AddCityRecord(events, dateStr, date, id, city, weather);
    if dateStr in events && events[dateStr].cityRecords != [] {
      DeleteFreshRecord(events, dateStr, rec, added);
    } else {
      assert added[dateStr].cityRecords == [rec];
      DeleteOnlyRecord(events, dateStr, rec, added);
      assert dateStr !in events ==> events - {dateStr} == events;
    }
  }

  /** Deleting the record appended to a day that had others. */
  lemma DeleteFreshRecord(events: Events, dateStr: string, rec: CityRecord, added: Events)
    requires dateStr in events && events[dateStr].cityRecords != []
    requires forall x :: x in events[dateStr].cityRecords ==> x.id != rec.id
    requires added == events[dateStr := events[dateStr].(cityRecords := events[dateStr].cityRecords + [rec])]
    ensures DeleteCityRecord(added, dateStr, rec.id) == events
  {
    var earlier := events[dateStr].cityRecords;
    WithoutFreshRecord(earlier, rec, rec.id);
    DeleteKeepsRemaining(added, dateStr, rec.id);
    assert events[dateStr].(cityRecords := earlier) == events[dateStr];
  }

  /** Deleting the only record of a day removes the day. */
  lemma DeleteOnlyRecord(events: Events, dateStr: string, rec: CityRecord, added: Events)
    requires dateStr in added && added[dateStr].cityRecords == [rec]
    requires added - {dateStr} == events - {dateStr}
    ensures DeleteCityRecord(added, dateStr, rec.id) == events - {dateStr}
  {
    assert WithoutRecord([rec], rec.id) == [];
  }

  /** Deleting a record that leaves others behind only rewrites that day. */
  lemma DeleteKeepsRemaining(events: Events, dateStr: string, recordId: string)
    requires dateStr in events
    requires WithoutRecord(events[dateStr].cityRecords, recordId) != []
    ensures DeleteCityRecord(events, dateStr, recordId)
         == events[dateStr := events[dateStr].(cityRecords := WithoutRecord(events[dateStr].cityRecords, recordId))]
  {
  }

  lemma WithoutFreshRecord(earlier: seq<CityRecord>, record: CityRecord, id: string)
    requires forall x :: x in earlier ==> x.id != id
    requires record.id == id
    ensures WithoutRecord(earlier + [record], id) == earlier
  {
    var keep := (x: CityRecord) => x.id != id;
    FilterAppend(earlier, [record], keep);
    assert Filter([record], keep) == [];
    FilterKeepsAll(earlier, keep);
  }

  /** No record of the day holds an activity with this id. */
  predicate ActivityIdFresh(records: seq<CityRecord>, activityId: string) {
    forall i, j :: 0 <= i < |records| && 0 <= j < |records[i].activities| ==> records[i].activities[j].id != activityId
  }

  /** Deleting a freshly added activity restores the events, provided every
      record of that day survives the clean-up filter to begin with. */
  lemma AddThenDeleteActivity(events: Events, dateStr: string, recordId: string, activityId: string, description: Option<string>)
    requires dateStr in events ==> ActivityIdFresh(events[dateStr].cityRecords, activityId)
    requires dateStr in events ==> forall x :: x in events[dateStr].cityRecords ==> Kept(x)
    ensures DeleteActivity(AddActivity(events, dateStr, recordId, activityId, description), dateStr, recordId, activityId) == events
  {
    if dateStr in events {
      var day := events[dateStr];
      var records := day.cityRecords;
      RemoveUndoesAppend(records, recordId, Activity(activityId, description.GetOr("")));
      KeptAll(records);
      assert day.(cityRecords := records) == day;
    }
  }

  lemma KeptAll(records: seq<CityRecord>)
    requires forall x :: x in records ==> Kept(x)
    ensures Filter(records, Kept) == records
  {
    forall i | 0 <= i < |records| ensures Kept(records[i]) {
      assert records[i] in records;
    }
    FilterKeepsAll(records, Kept);
  }

  /** Removing a fresh activity from the records it was appended to gives
      the records back. */
  lemma RemoveUndoesAppend(records: seq<CityRecord>, recordId: string, activity: Activity)
    requires ActivityIdFresh(records, activity.id)
    ensures RemoveFromRecord(AppendToRecord(records, recordId, activity), recordId, activity.id) == records
  {
    var restored := RemoveFromRecord(AppendToRecord(records, recordId, activity), recordId, activity.id);
    forall i | 0 <= i < |records| ensures restored[i] == records[i] {
      if records[i].id == recordId {
        WithoutFreshActivity(records[i].activities, activity);
      }
    }
  }

  lemma WithoutFreshActivity(acts: seq<Activity>, activity: Activity)
    requires forall j :: 0 <= j < |acts| ==> acts[j].id != activity.id
    ensures WithoutActivity(acts + [activity], activity.id) == acts
  {
    var keep := (a: Activity) => a.id != activity.id;
    FilterAppend(acts, [activity], keep);
    assert Filter([activity], keep) == [];
    FilterKeepsAll(acts, keep);
  }

  // ---------------------------------------------------------------------
  // The city-to-colour map
  // ---------------------------------------------------------------------

  /** The cities the effect collects from a list of records: the trimmed
      name of every record whose name is not the empty string. A name made
      only of white space therefore contributes the empty name. */
  function RecordNames(records: seq<CityRecord>): set<string> {
    set r | r in records && r.city != "" :: Trim(r.city)
  }

  lemma RecordNamesSnoc(records: seq<CityRecord>, j: int)
    requires 0 <= j < |records|
    ensures RecordNames(records[..j + 1])
         == RecordNames(records[..j]) + (if records[j].city != "" then {Trim(records[j].city)} else {})
  {
    assert records[..j + 1] == records[..j] + [records[j]];
  }

  /** The names collected from the days listed in `keys`. */
  ghost function NamesOn(events: Events, keys: seq<string>): set<string> {
    set d, r | d in keys && d in events && r in events[d].cityRecords && r.city != "" :: Trim(r.city)
  }

  /** `allCities`: every name collected from the whole map. */
  ghost function AllCities(events: Events): set<string> {
    set d, r | d in events && r in events[d].cityRecords && r.city != "" :: Trim(r.city)
  }

  lemma NamesOnSnoc(events: Events, keys: seq<string>, i: int)
    requires 0 <= i < |keys| && keys[i] in events
    ensures NamesOn(events, keys[..i + 1]) == NamesOn(events, keys[..i]) + RecordNames(events[keys[i]].cityRecords)
  {
    assert keys[..i + 1] == keys[..i] + [keys[i]];
  }

  lemma NamesOnAll(events: Events, keys: seq<string>)
    requires forall d :: d in events <==> d in keys
    ensures NamesOn(events, keys) == AllCities(events)
  {
  }

  /** The name a record contributes, if any. */
  function NameOf(r: CityRecord): seq<string> {
    if r.city != "" then [Trim(r.city)] else []
  }

  /** The names of a list of records, in list order, repeats included. */
  function NameList(records: seq<CityRecord>): seq<string>
    decreases |records|
  {
    if records == [] then [] else NameList(records[..|records| - 1]) + NameOf(records[|records| - 1])
  }

  /** The names met along the days listed in `keys`, in that order. */
  function NamesAlong(events: Events, keys: seq<string>): seq<string>
    decreases |keys|
  {
    if keys == [] then []
    else
      var d := keys[|keys| - 1];
      NamesAlong(events, keys[..|keys| - 1]) + (if d in events then NameList(events[d].cityRecords) else [])
  }

  /** What adding the names of `s`, in order, to a JavaScript `Set` that
      already lists `c` leaves: each name not yet present is appended. */
  function AppendNew<K(==)>(c: seq<K>, s: seq<K>): seq<K>
    decreases |s|
  {
    if s == [] then c
    else
      var a := AppendNew(c, s[..|s| - 1]);
      var x := s[|s| - 1];
      if x in a then a else a + [x]
  }

  lemma AppendNewSnoc<K>(c: seq<K>, s: seq<K>, x: K)
    ensures AppendNew(c, s + [x]) == if x in AppendNew(c, s) then AppendNew(c, s) else AppendNew(c, s) + [x]
  {
    assert (s + [x])[..|s|] == s;
  }

  /** Adding `a` and then `b` is adding `a + b`. */
  lemma {:induction false} AppendNewAppend<K>(c: seq<K>, a: seq<K>, b: seq<K>)
    ensures AppendNew(AppendNew(c, a), b) == AppendNew(c, a + b)
    decreases |b|
  {
    if b == [] {
      assert a + b == a;
    } else {
      var b' := b[..|b| - 1];
      var x := b[|b| - 1];
      assert b == b' + [x];
      AppendNewAppend(c, a, b');
      AppendNewSnoc(AppendNew(c, a), b', x);
      assert a + b == (a + b') + [x];
      AppendNewSnoc(c, a + b', x);
    }
  }

  /** The Set stays free of repeats and holds exactly the names met. */
  lemma {:induction false} AppendNewMembers<K>(c: seq<K>, s: seq<K>)
    requires forall p, q :: 0 <= p < q < |c| ==> c[p] != c[q]
    ensures forall p, q :: 0 <= p < q < |AppendNew(c, s)| ==> AppendNew(c, s)[p] != AppendNew(c, s)[q]
    ensures forall x :: x in AppendNew(c, s) <==> x in c || x in s
    decreases |s|
  {
    if s != [] {
      var s' := s[..|s| - 1];
      AppendNewMembers(c, s');
      assert s == s' + [s[|s| - 1]];
    }
  }

  /** Colouring the de-duplicated list is colouring the list itself:
      `ExtendColors` passes over cities it has already met. */
  lemma {:induction false} ExtendColorsAppendNew<K(!new)>(m: map<K, Color>, c: seq<K>, s: seq<K>)
    ensures ExtendColors(m, AppendNew(c, s)) == ExtendColors(m, c + s)
    decreases |s|
  {
    if s == [] {
      assert c + s == c;
    } else {
      var s' := s[..|s| - 1];
      var x := s[|s| - 1];
      var a := AppendNew(c, s');
      ExtendColorsAppendNew(m, c, s');
      assert c + s == (c + s') + [x];
      ExtendColorsSnoc(m, c + s', x);
      if x in a {
        AppendNewIn(c, s', x);
        ExtendColorsKeys(m, c + s');
      } else {
        ExtendColorsSnoc(m, a, x);
      }
    }
  }

  lemma {:induction false} AppendNewIn<K>(c: seq<K>, s: seq<K>, x: K)
    requires x in AppendNew(c, s)
    ensures x in c || x in s
    decreases |s|
  {
    if s != [] && x != s[|s| - 1] {
      AppendNewIn(c, s[..|s| - 1], x);
    }
  }

  /** One more record's name offered to the Set. */
  lemma AppendNewName(c: seq<string>, records: seq<CityRecord>, j: int)
    requires 0 <= j < |records|
    ensures AppendNew(c, NameList(records[..j + 1]))
         == var a := AppendNew(c, NameList(records[..j]));
            if records[j].city != "" && Trim(records[j].city) !in a then a + [Trim(records[j].city)] else a
  {
    assert records[..j + 1][..j] == records[..j];
    var s := NameList(records[..j]);
    if records[j].city != "" {
      AppendNewSnoc(c, s, Trim(records[j].city));
    } else {
      assert s + NameOf(records[j]) == s;
    }
  }

  /** `dayData.cityRecords.forEach(...)` of the effect: adds each name not
      met before to the end of `cities`. */
  method CollectRecordNames(records: seq<CityRecord>, cities: seq<string>) returns (cities': seq<string>)
    requires forall p, q :: 0 <= p < q < |cities| ==> cities[p] != cities[q]
    ensures cities' == AppendNew(cities, NameList(records))
    ensures forall p, q :: 0 <= p < q < |cities'| ==> cities'[p] != cities'[q]
    ensures forall c :: c in cities' <==> c in cities || c in RecordNames(records)
  {
    cities' := cities;
    for j := 0 to |records|
      invariant cities' == AppendNew(cities, NameList(records[..j]))
    {
      AppendNewName(cities, records, j);
      if records[j].city != "" {
        var name := Trim(records[j].city);
        if name !in cities' {
          cities' := cities' + [name];
        }
      }
    }
    assert records[..|records|] == records;
    AppendNewMembers(cities, NameList(records));
    NameListNames(records);
  }

  /** The names listed are the names collected. */
  lemma {:induction false} NameListNames(records: seq<CityRecord>)
    ensures forall x :: x in NameList(records) <==> x in RecordNames(records)
    decreases |records|
  {
    if records != [] {
      var k := |records| - 1;
      NameListNames(records[..k]);
      RecordNamesSnoc(records, k);
      assert records[..k + 1] == records;
    }
  }

  /** The Set-building loop of the effect over `Object.values(events)`; the
      enumeration order of the keys is a parameter. The result lists each
      collected name once, in the order first met. */
  method CollectCities(events: Events, order: seq<string>) returns (cities: seq<string>)
    requires forall d :: d in events <==> d in order
    ensures cities == AppendNew([], NamesAlong(events, order))
    ensures forall i, j :: 0 <= i < j < |cities| ==> cities[i] != cities[j]
    ensures forall c :: c in cities <==> c in AllCities(events)
  {
    cities := [];
    for i := 0 to |order|
      invariant cities == AppendNew([], NamesAlong(events, order[..i]))
      invariant forall p, q :: 0 <= p < q < |cities| ==> cities[p] != cities[q]
      invariant forall c :: c in cities <==> c in NamesOn(events, order[..i])
    {
      var before := NamesAlong(events, order[..i]);
      cities := CollectRecordNames(events[order[i]].cityRecords, cities);
      NamesOnSnoc(events, order, i);
      assert order[..i + 1][..i] == order[..i];
      assert NamesAlong(events, order[..i + 1]) == before + NameList(events[order[i]].cityRecords);
      AppendNewAppend([], before, NameList(events[order[i]].cityRecords));
    }
    assert order[..|order|] == order;
    NamesOnAll(events, order);
  }

  /** The colour map after meeting `cities` in order: a city already in the
      map keeps its colour; a new one gets the palette entry at the map's
      current size, modulo the palette's length. */
  function ExtendColors<K(!new)>(colors: map<K, Color>, cities: seq<K>): map<K, Color>
    decreases |cities|
  {
    if cities == [] then colors
    else
      var m := ExtendColors(colors, cities[..|cities| - 1]);
      var city := cities[|cities| - 1];
      if city in m then m else m[city := PaletteAt(|m|)]
  }

  /** The `setCityColorMap` updater: copies the previous map, gives every
      new city its colour and returns the previous map itself when no city
      was new. */
  method UpdateColorMap(prev: map<string, Color>, cities: seq<string>) returns (next: map<string, Color>, updated: bool)
    ensures next == ExtendColors(prev, cities)
    ensures updated <==> exists c :: c in cities && c !in prev
    ensures !updated ==> next == prev
  {
    var newMap := prev;
    updated := false;
    var currentMapSize := |prev|;
    for i := 0 to |cities|
      invariant newMap == ExtendColors(prev, cities[..i])
      invariant currentMapSize == |newMap|
      invariant prev.Keys <= newMap.Keys
      invariant updated <==> newMap.Keys != prev.Keys
      invariant !updated ==> newMap == prev
    {
      var city := cities[i];
      ExtendColorsSnoc(prev, cities[..i], city);
      assert cities[..i + 1] == cities[..i] + [city];
      if city !in newMap {
        var color := PaletteAt(currentMapSize);
        newMap := newMap[city := color];
        currentMapSize := currentMapSize + 1;
        updated := true;
        assert city in newMap.Keys - prev.Keys;
      }
    }
    assert cities[..|cities|] == cities;
    ExtendColorsGrows(prev, cities);
    next := if updated then newMap else prev;
  }

  /** Meeting one more city. */
  lemma ExtendColorsSnoc<K(!new)>(colors: map<K, Color>, s: seq<K>, x: K)
    ensures ExtendColors(colors, s + [x])
         == if x in ExtendColors(colors, s) then ExtendColors(colors, s)
            else ExtendColors(colors, s)[x := PaletteAt(|ExtendColors(colors, s)|)]
  {
    assert (s + [x])[..|s + [x]| - 1] == s;
    assert (s + [x])[|s + [x]| - 1] == x;
  }

  /** The map gains a key exactly when some city is new. */
  lemma ExtendColorsGrows<K(!new)>(colors: map<K, Color>, cities: seq<K>)
    ensures ExtendColors(colors, cities).Keys != colors.Keys <==> exists c :: c in cities && c !in colors
  {
    ExtendColorsKeys(colors, cities);
    if exists c :: c in cities && c !in colors {
      var c :| c in cities && c !in colors;
      assert c in ExtendColors(colors, cities).Keys;
    }
  }

  /** The effect that runs whenever the events change. */
  method RefreshColorMap(prev: map<string, Color>, events: Events, order: seq<string>) returns (next: map<string, Color>)
    requires forall d :: d in events <==> d in order
    ensures next == ExtendColors(prev, NamesAlong(events, order))
    ensures next.Keys == prev.Keys + AllCities(events)
    ensures forall c :: c in prev ==> next[c] == prev[c]
    ensures forall c :: c in next && c !in prev ==> next[c] in Palette
    ensures AllCities(events) <= prev.Keys ==> next == prev
  {
    var cities := CollectCities(events, order);
    var updated;
    next, updated := UpdateColorMap(prev, cities);
    ExtendColorsOver(prev, cities, AllCities(events));
    ExtendColorsAppendNew(prev, [], NamesAlong(events, order));
    assert [] + NamesAlong(events, order) == NamesAlong(events, order);
  }

  /** What meeting the cities of a set, in any order, does to the map. */
  lemma ExtendColorsOver<K(!new)>(prev: map<K, Color>, cities: seq<K>, all: set<K>)
    requires forall c :: c in cities <==> c in all
    ensures ExtendColors(prev, cities).Keys == prev.Keys + all
    ensures forall c :: c in prev ==> ExtendColors(prev, cities)[c] == prev[c]
    ensures forall c :: c in ExtendColors(prev, cities) && c !in prev ==> ExtendColors(prev, cities)[c] in Palette
    ensures all <= prev.Keys ==> ExtendColors(prev, cities) == prev
  {
    ExtendColorsKeys(prev, cities);
    ExtendColorsKeeps(prev, cities);
    ExtendColorsPalette(prev, cities);
  }

  lemma {:induction false} ExtendColorsKeys<K(!new)>(colors: map<K, Color>, cities: seq<K>)
    ensures forall c :: c in ExtendColors(colors, cities) <==> c in colors || c in cities
    decreases |cities|
  {
    if cities != [] {
      var n := |cities| - 1;
      ExtendColorsKeys(colors, cities[..n]);
      assert cities == cities[..n] + [cities[n]];
    }
  }

  /** First city seen wins: a binding, once made, is never changed. */
  lemma {:induction false} ExtendColorsKeeps<K(!new)>(colors: map<K, Color>, cities: seq<K>)
    ensures forall c :: c in colors ==> c in ExtendColors(colors, cities) && ExtendColors(colors, cities)[c] == colors[c]
    decreases |cities|
  {
    if cities != [] {
      ExtendColorsKeeps(colors, cities[..|cities| - 1]);
    }
  }

  lemma {:induction false} ExtendColorsPalette<K(!new)>(colors: map<K, Color>, cities: seq<K>)
    ensures forall c :: c in ExtendColors(colors, cities) && c !in colors ==> ExtendColors(colors, cities)[c] in Palette
    decreases |cities|
  {
    if cities != [] {
      var prefix := cities[..|cities| - 1];
      ExtendColorsPalette(colors, prefix);
      PaletteAtCycles(|ExtendColors(colors, prefix)|);
    }
  }

  /** Over distinct new cities the map grows by one per city. */
  lemma {:induction false} ExtendColorsSize<K(!new)>(colors: map<K, Color>, cities: seq<K>)
    requires forall i, j :: 0 <= i < j < |cities| ==> cities[i] != cities[j]
    requires forall c :: c in cities ==> c !in colors
    ensures |ExtendColors(colors, cities)| == |colors| + |cities|
    decreases |cities|
  {
    if cities != [] {
      var k := |cities| - 1;
      var prefix, last := cities[..k], cities[k];
      assert forall c :: c in prefix ==> c in cities;
      ExtendColorsSize(colors, prefix);
      ExtendColorsKeys(colors, prefix);
      assert last !in prefix;
      assert last !in colors;
      var m := ExtendColors(colors, prefix);
      assert ExtendColors(colors, cities) == m[last := PaletteAt(|m|)];
      MapAddSize(m, last, PaletteAt(|m|));
    }
  }

  lemma MapAddSize<K, V>(m: map<K, V>, x: K, v: V)
    requires x !in m
    ensures |m[x := v]| == |m| + 1
  {
  }

  /** Meeting `a` then `b` is meeting `a + b`. */
  lemma {:induction false} ExtendColorsAppend<K(!new)>(colors: map<K, Color>, a: seq<K>, b: seq<K>)
    ensures ExtendColors(colors, a + b) == ExtendColors(ExtendColors(colors, a), b)
    decreases |b|
  {
    if b == [] {
      assert a + b == a;
    } else {
      var n := |b| - 1;
      ExtendColorsAppend(colors, a, b[..n]);
      assert (a + b)[..|a + b| - 1] == a + b[..n];
      assert (a + b)[|a + b| - 1] == b[n];
    }
  }

  /** A city met for the first time at the end gets the palette entry at
      the size of the map built so far. */
  lemma ExtendColorsNewLast<K(!new)>(colors: map<K, Color>, s: seq<K>)
    requires s != []
    requires s[|s| - 1] !in ExtendColors(colors, s[..|s| - 1])
    ensures s[|s| - 1] in ExtendColors(colors, s)
    ensures ExtendColors(colors, s)[s[|s| - 1]] == PaletteAt(|ExtendColors(colors, s[..|s| - 1])|)
  {
  }

  /** A binding made while meeting `a` survives meeting `b` afterwards. */
  lemma ExtendColorsStays<K(!new)>(colors: map<K, Color>, a: seq<K>, b: seq<K>, c: K)
    requires c in ExtendColors(colors, a)
    ensures c in ExtendColors(colors, a + b)
    ensures ExtendColors(colors, a + b)[c] == ExtendColors(colors, a)[c]
  {
    ExtendColorsAppend(colors, a, b);
    ExtendColorsKeeps(ExtendColors(colors, a), b);
  }

  /** A city first met at position n gets the palette entry at the size
      of the map built from the cities before it, and keeps it. */
  lemma ExtendColorsAt<K(!new)>(colors: map<K, Color>, cities: seq<K>, n: int)
    requires 0 <= n < |cities|
    requires cities[n] !in ExtendColors(colors, cities[..n])
    ensures cities[n] in ExtendColors(colors, cities)
    ensures ExtendColors(colors, cities)[cities[n]] == PaletteAt(|ExtendColors(colors, cities[..n])|)
  {
    var upTo := cities[..n + 1];
    assert upTo[..|upTo| - 1] == cities[..n] && upTo[|upTo| - 1] == cities[n];
    ExtendColorsNewLast(colors, upTo);
    var rest := cities[n + 1..];
    assert upTo + rest == cities;
    ExtendColorsStays(colors, upTo, rest, cities[n]);
  }

  /** Before the n-th of distinct new cities is met, the map has grown by
      n and does not hold it yet. */
  lemma ExtendColorsBefore<K(!new)>(colors: map<K, Color>, cities: seq<K>, n: int)
    requires forall i, j :: 0 <= i < j < |cities| ==> cities[i] != cities[j]
    requires forall c :: c in cities ==> c !in colors
    requires 0 <= n < |cities|
    ensures |ExtendColors(colors, cities[..n])| == |colors| + n
    ensures cities[n] !in ExtendColors(colors, cities[..n])
  {
    var before := cities[..n];
    assert forall c :: c in before ==> c in cities;
    ExtendColorsKeys(colors, before);
    ExtendColorsSize(colors, before);
    assert cities[n] !in before;
  }

  /** Over distinct new cities the n-th one (from 0) gets the palette
      entry at the starting size plus n. */
  lemma ExtendColorsRoundRobin<K(!new)>(colors: map<K, Color>, cities: seq<K>, n: int)
    requires forall i, j :: 0 <= i < j < |cities| ==> cities[i] != cities[j]
    requires forall c :: c in cities ==> c !in colors
    requires 0 <= n < |cities|
    ensures cities[n] in ExtendColors(colors, cities)
    ensures ExtendColors(colors, cities)[cities[n]] == PaletteAt(|colors| + n)
  {
    ExtendColorsBefore(colors, cities, n);
    ExtendColorsAt(colors, cities, n);
    var size := |ExtendColors(colors, cities[..n])|;
    assert size == |colors| + n;
  }

  /** `getCityColor`: the class bound to the trimmed name, or the grey
      fallback for an empty name or an unbound one. */
  function CityColor(colors: map<string, Color>, city: string): (cls: string)
    ensures city == "" ==> cls == ClassName(Default)
    ensures city != "" && Trim(city) in colors ==> cls == ClassName(colors[Trim(city)])
    ensures city != "" && Trim(city) !in colors ==> cls == ClassName(Default)
  {
    if city == "" then ClassName(Default)
    else if Trim(city) in colors then ClassName(colors[Trim(city)])
    else ClassName(Default)
  }

  /** After the effect has run, every record with a name shows a palette
      colour, the one bound to its trimmed name, when the map started out
      with palette colours only. */
  lemma RecordsAreColoured(prev: map<string, Color>, events: Events, order: seq<string>,
                           next: map<string, Color>, d: string, r: CityRecord)
    requires forall c :: c in prev ==> prev[c] in Palette
    requires next.Keys == prev.Keys + AllCities(events)
    requires forall c :: c in prev ==> next[c] == prev[c]
    requires forall c :: c in next && c !in prev ==> next[c] in Palette
    requires d in events && r in events[d].cityRecords && r.city != ""
    ensures Trim(r.city) in next && next[Trim(r.city)] in Palette
    ensures CityColor(next, r.city) == ClassName(next[Trim(r.city)])
    ensures CityColor(next, r.city) != ClassName(Default)
  {
    assert Trim(r.city) in AllCities(events);
    var c := next[Trim(r.city)];
    if ClassName(c) == ClassName(Default) {
      ClassNameInjective(c, Default);
      PaletteShape();
    }
  }
}
