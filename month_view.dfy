/** The month grid: the two-letter city tags, the records shown on a day,
    and the blank cells that pad the days of the month into whole
    Monday-first weeks. The weekday of the first of the month (`getDay`,
    Sunday = 0) and the number of days in the month are inputs. */
module MonthView {
  import opened Options
  import opened JsText
  import opened CalendarTypes
  import Calendar

  // ---------------------------------------------------------------------
  // getCityAbbreviation
  // ---------------------------------------------------------------------

  function Min(a: int, b: int): int {
    if a <= b then a else b
  }

  /** `s.substring(0, n)` for `n >= 0`: the first `n` characters, or all
      of `s` when it is shorter. */
  function Prefix(s: string, n: nat): (p: string)
    ensures |p| == Min(n, |s|)
    ensures p == s[..|p|]
  {
    s[..Min(n, |s|)]
  }

  /** A city with an ASCII letter is tagged with its first two characters
      upper-cased; any other city with its first two characters (all of
      it when it is at most two long); the empty name with nothing. */
  function CityAbbreviation(city: string): (abbr: string)
    ensures |abbr| <= 2
    ensures abbr == "" <==> city == ""
  {
    if city == "" then ""
    else if HasAsciiLetter(city) then ToUpper(Prefix(city, 2))
    else if |city| <= 2 then city
    else Prefix(city, 2)
  }

  /** Whichever branch is taken, the tag is the upper-cased two-character
      prefix: without an ASCII letter upper-casing changes nothing. */
  lemma AbbreviationIsUpperPrefix(city: string)
    ensures CityAbbreviation(city) == ToUpper(Prefix(city, 2))
  {
    var p := Prefix(city, 2);
    if !HasAsciiLetter(city) {
      forall i | 0 <= i < |p| ensures ToUpper(p)[i] == p[i] {
        assert p[i] == city[i];
      }
    }
  }

  /** The tag has no lower-case ASCII letter and is as long as the city
      allows, up to two characters. */
  lemma AbbreviationShape(city: string)
    ensures |CityAbbreviation(city)| == Min(2, |city|)
    ensures forall i :: 0 <= i < |CityAbbreviation(city)| ==> !IsLower(CityAbbreviation(city)[i])
  {
    AbbreviationIsUpperPrefix(city);
  }

  /** Tagging a tag gives the tag back. */
  lemma AbbreviationIdempotent(city: string)
    ensures CityAbbreviation(CityAbbreviation(city)) == CityAbbreviation(city)
  {
    var abbr := CityAbbreviation(city);
    AbbreviationIsUpperPrefix(city);
    AbbreviationIsUpperPrefix(abbr);
    assert Prefix(abbr, 2) == abbr;
    ToUpperIdempotent(Prefix(city, 2));
  }

  /** Two spellings that differ only in the case of ASCII letters share a
      tag. */
  lemma AbbreviationIgnoresCase(a: string, b: string)
    requires ToUpper(a) == ToUpper(b)
    ensures CityAbbreviation(a) == CityAbbreviation(b)
  {
    AbbreviationIsUpperPrefix(a);
    AbbreviationIsUpperPrefix(b);
    var pa := Prefix(a, 2);
    var pb := Prefix(b, 2);
    assert |pa| == |pb|;
    forall i | 0 <= i < |pa| ensures ToUpper(pa)[i] == ToUpper(pb)[i] {
      assert ToUpper(a)[i] == ToUpper(b)[i];
    }
  }

  // ---------------------------------------------------------------------
  // getCityRecordsForDay
  // ---------------------------------------------------------------------

  /** `events[dateStr]?.cityRecords || []`. */
  function RecordsForDay(events: Events, dateStr: string): (records: seq<CityRecord>)
    ensures dateStr !in events ==> records == []
    ensures dateStr in events ==> records == events[dateStr].cityRecords
  {
    if dateStr in events then events[dateStr].cityRecords else []
  }

  /** After adding a city record the day shows what it showed before, then
      the new record; no other day changes. */
  lemma RecordsAfterAdd(events: Events, dateStr: string, date: Instant, id: string,
                        city: Option<string>, weather: Option<Weather>, other: string)
    ensures RecordsForDay(Calendar.AddCityRecord(events, dateStr, date, id, city, weather), dateStr)
         == RecordsForDay(events, dateStr) + [Calendar.NewCityRecord(id, city, weather)]
    ensures other != dateStr ==>
      RecordsForDay(Calendar.AddCityRecord(events, dateStr, date, id, city, weather), other) == RecordsForDay(events, other)
  {
  }

  /** After deleting a city record the day shows exactly the records it
      showed before that carry another id, and no other day changes. */
  lemma RecordsAfterDelete(events: Events, dateStr: string, id: string, other: string)
    ensures forall x :: x in RecordsForDay(Calendar.DeleteCityRecord(events, dateStr, id), dateStr)
                    <==> x in RecordsForDay(events, dateStr) && x.id != id
    ensures other != dateStr ==>
      RecordsForDay(Calendar.DeleteCityRecord(events, dateStr, id), other) == RecordsForDay(events, other)
  {
    var before := RecordsForDay(events, dateStr);
    if dateStr in events && before != [] && Calendar.DeleteCityRecord(events, dateStr, id) == events - {dateStr} {
      assert dateStr !in Calendar.DeleteCityRecord(events, dateStr, id);
    }
  }

  // ---------------------------------------------------------------------
  // Padding the grid
  // ---------------------------------------------------------------------

  /** A `getDay` result: Sunday = 0 through Saturday = 6. */
  type Weekday = d: int | 0 <= d < 7

  /** The grid's column headers run Monday to Sunday; column `i` holds
      weekday `(i + 1) % 7`. */
  function ColumnWeekday(column: nat): (d: Weekday)
  {
    (column + 1) % 7
  }

  /** The blank cells before the first of the month. */
  function LeadingBlanks(startDay: Weekday): (lead: nat)
    ensures lead < 7
    ensures ColumnWeekday(lead) == startDay
  {
    if startDay == 0 then 6 else startDay - 1
  }

  /** Monday-first position of a weekday, as a closed form. */
  lemma LeadingBlanksClosedForm(startDay: Weekday)
    ensures LeadingBlanks(startDay) == (startDay + 6) % 7
  {
  }

  /** The blank cells after the last day, filling the last row. */
  function TrailingBlanks(lead: nat, days: nat): (trail: nat)
    ensures trail < 7
    ensures (lead + days + trail) % 7 == 0
  {
    (7 - (days + lead) % 7) % 7
  }

  /** No fewer blanks would also fill the row: the grid never ends with a
      row of blanks only. */
  lemma TrailingBlanksMinimal(lead: nat, days: nat, t: nat)
    requires t < TrailingBlanks(lead, days)
    ensures (lead + days + t) % 7 != 0
  {
  }

  datatype Cell = Blank | Day(n: nat)

  function Blanks(n: nat): (cells: seq<Cell>)
    ensures |cells| == n && forall i :: 0 <= i < n ==> cells[i] == Blank
  {
    seq(n, i => Blank)
  }

  function Days(days: nat): (cells: seq<Cell>)
    ensures |cells| == days && forall i :: 0 <= i < days ==> cells[i] == Day(i + 1)
  {
    seq(days, i requires 0 <= i < days => Day(i + 1))
  }

  /** The cells of the grid in reading order. */
  function Grid(startDay: Weekday, days: nat): seq<Cell> {
    var lead := LeadingBlanks(startDay);
    Blanks(lead) + Days(days) + Blanks(TrailingBlanks(lead, days))
  }

  /** Moving one column right from `x`, read modulo the row width. */
  lemma NextColumn(x: nat)
    ensures (x % 7 + 1) % 7 == (x + 1) % 7
  {
    var q := x / 7;
    assert x == 7 * q + x % 7;
  }

  /** Day `k` of the month sits in column `(lead + k - 1) % 7`, under the
      header of its own weekday. */
  lemma DayUnderItsWeekday(startDay: Weekday, k: nat)
    requires 1 <= k
    ensures ColumnWeekday((LeadingBlanks(startDay) + k - 1) % 7) == (startDay + k - 1) % 7
  {
    var lead := LeadingBlanks(startDay);
    NextColumn(lead + k - 1);
    if startDay == 0 {
      assert lead + k == (k - 1) + 7;
    } else {
      assert lead + k == startDay + k - 1;
    }
  }

  /** The grid is whole rows of seven; no row is made only of blanks; and
      day `k` of the month sits in order, under the header of its own
      weekday. */
  lemma GridShape(startDay: Weekday, days: nat, k: nat)
    requires 1 <= k <= days
    ensures |Grid(startDay, days)| % 7 == 0
    ensures LeadingBlanks(startDay) < 7 && TrailingBlanks(LeadingBlanks(startDay), days) < 7
    ensures Grid(startDay, days)[LeadingBlanks(startDay) + k - 1] == Day(k)
    ensures ColumnWeekday((LeadingBlanks(startDay) + k - 1) % 7) == (startDay + k - 1) % 7
  {
    var lead := LeadingBlanks(startDay);
    var trail := TrailingBlanks(lead, days);
    var g := Grid(startDay, days);
    assert |g| == lead + days + trail;
    assert g[lead + k - 1] == Days(days)[k - 1];
    DayUnderItsWeekday(startDay, k);
  }

  /** A month of 28 to 31 days fills four to six rows. */
  lemma GridRows(startDay: Weekday, days: nat)
    requires 28 <= days <= 31
    ensures 4 <= |Grid(startDay, days)| / 7 <= 6
  {
  }
}
