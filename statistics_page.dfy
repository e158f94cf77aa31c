/** The statistics page: the request it sends, the colours it gives the
    cities of the answer, and the order it lists them in. */
module StatisticsPage {
  import opened Options
  import opened JsText
  import opened CityColors
  import Calendar
  import StatisticsRoute

  // ---------------------------------------------------------------------
  // handleFetchStats: the guard and the query parameters
  // ---------------------------------------------------------------------

  datatype FetchError = MissingDate

  datatype Params = Params(startDate: string, endDate: string, keywords: Option<string>)

  /** Both date inputs must be filled in, or no request is made; the
      keyword text is sent trimmed, and only when something is left. */
  function RequestParams(startDate: string, endDate: string, keywords: string): (r: Result<Params, FetchError>)
    ensures r.Failure? <==> startDate == "" || endDate == ""
    ensures r.Success? ==> r.value.startDate == startDate && r.value.endDate == endDate
    ensures r.Success? ==> (r.value.keywords.Some? <==> Trim(keywords) != "")
    ensures r.Success? && r.value.keywords.Some? ==> r.value.keywords.value == Trim(keywords)
  {
    if startDate == "" || endDate == "" then Failure(MissingDate)
    else Success(Params(startDate, endDate, if Trim(keywords) != "" then Some(Trim(keywords)) else None))
  }

  /** The query string the route receives for these parameters. */
  function QueryOf(p: Params): StatisticsRoute.Query {
    StatisticsRoute.Query(Some(p.startDate), Some(p.endDate), p.keywords)
  }

  /** A request that is sent never trips the route's missing-date check,
      and the route parses the same keywords from the trimmed parameter
      as it would from the text as typed. */
  lemma RequestMatchesRoute(startDate: string, endDate: string, keywords: string)
    requires RequestParams(startDate, endDate, keywords).Success?
    ensures StatisticsRoute.CheckDates(QueryOf(RequestParams(startDate, endDate, keywords).value))
         != Failure(StatisticsRoute.MissingDates)
    ensures StatisticsRoute.ParseKeywords(RequestParams(startDate, endDate, keywords).value.keywords)
         == StatisticsRoute.ParseKeywords(Some(keywords))
  {
    StatisticsRoute.KeywordsIgnoreOuterSpace(keywords);
  }

  // ---------------------------------------------------------------------
  // assignColor
  // ---------------------------------------------------------------------

  /** The colour map a fetch builds, with the running palette index. */
  class ColorAssigner {
    var colors: map<string, Color>
    var nextIndex: nat

    /** The index counts the cities coloured so far. */
    predicate Valid()
      reads this
    {
      nextIndex == |colors|
    }

    constructor ()
      ensures Valid() && colors == map[] && nextIndex == 0
    {
      colors := map[];
      nextIndex := 0;
    }

    /** A known city keeps its colour and the index stays; a new one
        takes the palette entry at the index, which then advances. */
    method AssignColor(city: string) returns (color: Color)
      requires Valid()
      modifies this
      ensures Valid()
      ensures city in old(colors) ==> color == old(colors)[city] && colors == old(colors) && nextIndex == old(nextIndex)
      ensures city !in old(colors) ==>
        color == PaletteAt(old(nextIndex)) && colors == old(colors)[city := color] && nextIndex == old(nextIndex) + 1
      ensures colors == Calendar.ExtendColors(old(colors), [city])
    {
      if city in colors {
        color := colors[city];
      } else {
        color := PaletteAt(nextIndex);
        colors := colors[city := color];
        nextIndex := nextIndex + 1;
      }
    }
  }

  /** One `assignColor` per city, in order, on a fresh map. */
  method AssignAll(order: seq<string>) returns (colors: map<string, Color>)
    ensures colors == Calendar.ExtendColors(map[], order)
  {
    var assigner := new ColorAssigner();
    var i := 0;
    while i < |order|
      invariant 0 <= i <= |order|
      invariant assigner.Valid()
      invariant assigner.colors == Calendar.ExtendColors(map[], order[..i])
    {
      var city := order[i];
      var _ := assigner.AssignColor(city);
      Calendar.ExtendColorsAppend(map[], order[..i], [city]);
      assert order[..i + 1] == order[..i] + [city];
      i := i + 1;
    }
    assert order[..|order|] == order;
    colors := assigner.colors;
  }

  /** The colour map of one fetch: rebuilt from empty, one `assignColor`
      per key of `cityDurations`, in key order. */
  method ColorMapFor(durations: map<string, nat>, order: seq<string>) returns (colors: map<string, Color>)
    requires forall c :: c in durations <==> c in order
    requires forall i, j :: 0 <= i < j < |order| ==> order[i] != order[j]
    ensures colors == Calendar.ExtendColors(map[], order)
    ensures colors.Keys == durations.Keys
    ensures forall n :: 0 <= n < |order| ==> colors[order[n]] == PaletteAt(n)
  {
    colors := AssignAll(order);
    Calendar.ExtendColorsKeys(map[], order);
    FreshMapRoundRobin(order);
  }

  /** On a fresh map the n-th distinct city (from 0) gets palette entry n. */
  lemma FreshMapRoundRobin<K(!new)>(order: seq<K>)
    requires forall i, j :: 0 <= i < j < |order| ==> order[i] != order[j]
    ensures forall n :: 0 <= n < |order| ==>
      order[n] in Calendar.ExtendColors(map[], order) && Calendar.ExtendColors(map[], order)[order[n]] == PaletteAt(n)
  {
    var empty: map<K, Color> := map[];
    assert |empty| == 0;
    forall n | 0 <= n < |order|
      ensures order[n] in Calendar.ExtendColors(empty, order) && Calendar.ExtendColors(empty, order)[order[n]] == PaletteAt(n)
    {
      Calendar.ExtendColorsRoundRobin(empty, order, n);
    }
  }

  /** `getCityColorClass`: the city's class, or grey when the city has no
      colour. The `|| ''` fallback of the source never applies: every
      colour has a class name. */
  function CityColorClass(colors: map<string, Color>, city: string): (cls: string)
    ensures cls != ""
    ensures city !in colors ==> cls == ClassName(Default)
  {
    if city in colors then ClassName(colors[city]) else ClassName(Default)
  }

  /** After a fetch every city of the answer is drawn in its own palette
      colour, never in grey; any other name is drawn in grey. */
  lemma FetchedCitiesColoured(durations: map<string, nat>, order: seq<string>, colors: map<string, Color>, city: string)
    requires colors.Keys == durations.Keys
    requires forall c :: c in colors ==> colors[c] in Palette
    ensures city in durations ==> CityColorClass(colors, city) == ClassName(colors[city]) && colors[city] in Palette
    ensures city in durations ==> CityColorClass(colors, city) != ClassName(Default)
    ensures city !in durations ==> CityColorClass(colors, city) == ClassName(Default)
  {
    PaletteShape();
    if city in durations && CityColorClass(colors, city) == ClassName(Default) {
      ClassNameInjective(colors[city], Default);
    }
  }

  /** The fetched map holds palette colours only. */
  lemma ColorMapPalette(order: seq<string>)
    ensures forall c :: c in Calendar.ExtendColors(map[], order) ==> Calendar.ExtendColors(map[], order)[c] in Palette
  {
    Calendar.ExtendColorsPalette(map[], order);
  }

  // ---------------------------------------------------------------------
  // The city list: sorted by count, descending, stable
  // ---------------------------------------------------------------------

  type Entry = (string, nat)

  /** The counts never increase along the list. */
  predicate Descending(s: seq<Entry>) {
    forall i, j :: 0 <= i < j < |s| ==> s[i].1 >= s[j].1
  }

  /** The entries with count `c`, in list order. */
  function WithCount(s: seq<Entry>, c: nat): seq<Entry> {
    Calendar.Filter(s, (e: Entry) => e.1 == c)
  }

  /** Puts `x` in front of the first entry whose count is not larger. */
  function Insert(x: Entry, s: seq<Entry>): (r: seq<Entry>)
    ensures multiset(r) == multiset(s) + multiset{x}
    decreases |s|
  {
    if s == [] || x.1 >= s[0].1 then [x] + s
    else
      assert s == [s[0]] + s[1..];
      [s[0]] + Insert(x, s[1..])
  }

  /** A head no smaller than anything after it extends a descending list. */
  lemma DescendingCons(h: Entry, t: seq<Entry>)
    requires Descending(t)
    requires forall e :: e in t ==> e.1 <= h.1
    ensures Descending([h] + t)
  {
    var r := [h] + t;
    forall i, j | 0 <= i < j < |r| ensures r[i].1 >= r[j].1 {
      assert r[j] == t[j - 1];
      if i > 0 {
        assert r[i] == t[i - 1];
      } else {
        assert t[j - 1] in t;
      }
    }
  }

  /** Inserting below a bound stays below it. */
  lemma InsertBounded(x: Entry, s: seq<Entry>, b: nat)
    requires x.1 <= b
    requires forall e :: e in s ==> e.1 <= b
    ensures forall e :: e in Insert(x, s) ==> e.1 <= b
  {
    forall e | e in Insert(x, s) ensures e.1 <= b {
      assert e in multiset(Insert(x, s));
      assert e == x || e in multiset(s);
    }
  }

  /** Inserting keeps a descending list descending. */
  lemma {:induction false} InsertDescending(x: Entry, s: seq<Entry>)
    requires Descending(s)
    ensures Descending(Insert(x, s))
    decreases |s|
  {
    if s == [] || x.1 >= s[0].1 {
      forall e | e in s ensures e.1 <= x.1 {
        var k :| 0 <= k < |s| && s[k] == e;
        assert k == 0 || s[0].1 >= s[k].1;
      }
      DescendingCons(x, s);
    } else {
      var t := s[1..];
      assert Descending(t) by {
        forall i, j | 0 <= i < j < |t| ensures t[i].1 >= t[j].1 {
          assert t[i] == s[i + 1] && t[j] == s[j + 1];
        }
      }
      InsertDescending(x, t);
      forall e | e in t ensures e.1 <= s[0].1 {
        var k :| 0 <= k < |t| && t[k] == e;
        assert s[k + 1] == e;
      }
      InsertBounded(x, t, s[0].1);
      DescendingCons(s[0], Insert(x, t));
    }
  }

  /** `Object.entries(cityDurations).sort((a, b) => b[1] - a[1])`: an
      insertion sort, which like the engine's sort is stable. */
  function SortByCount(s: seq<Entry>): (r: seq<Entry>)
    ensures multiset(r) == multiset(s)
    decreases |s|
  {
    if s == [] then []
    else
      assert s == [s[0]] + s[1..];
      Insert(s[0], SortByCount(s[1..]))
  }

  /** The sorted list is descending by count. */
  lemma {:induction false} SortIsDescending(s: seq<Entry>)
    ensures Descending(SortByCount(s))
    decreases |s|
  {
    if s != [] {
      SortIsDescending(s[1..]);
      InsertDescending(s[0], SortByCount(s[1..]));
    }
  }

  /** `x` lands after every entry with a larger count and before every
      entry with an equal one. */
  lemma {:induction false} InsertWithCount(x: Entry, s: seq<Entry>, c: nat)
    ensures WithCount(Insert(x, s), c) == if x.1 == c then [x] + WithCount(s, c) else WithCount(s, c)
    decreases |s|
  {
    var keep := (e: Entry) => e.1 == c;
    if s == [] || x.1 >= s[0].1 {
      Calendar.FilterAppend([x], s, keep);
    } else {
      var rest := Insert(x, s[1..]);
      Calendar.FilterAppend([s[0]], rest, keep);
      Calendar.FilterAppend([s[0]], s[1..], keep);
      assert s == [s[0]] + s[1..];
      InsertWithCount(x, s[1..], c);
    }
  }

  /** Stability: among entries with the same count the sorted list keeps
      the order they came in. */
  lemma {:induction false} SortIsStable(s: seq<Entry>, c: nat)
    ensures WithCount(SortByCount(s), c) == WithCount(s, c)
    decreases |s|
  {
    if s != [] {
      var keep := (e: Entry) => e.1 == c;
      SortIsStable(s[1..], c);
      InsertWithCount(s[0], SortByCount(s[1..]), c);
      Calendar.FilterAppend([s[0]], s[1..], keep);
      assert s == [s[0]] + s[1..];
    }
  }
}
