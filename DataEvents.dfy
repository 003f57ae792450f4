/** The data-shaping part of the attendance chart's `render`: filtered events become
    points, the points are sorted by date and grouped into one series per city,
    the y axis is bounded above the largest attendance, city names are capitalised
    for the tooltip and dates show their year only when it is not the current one.
    Dates arrive already parsed, as (year, month, day). */
module DataEvents {
  import opened JsString
  import opened JsValue

  datatype Date = Date(year: int, month: int, day: int)

  /** Chronological order on dates. */
  predicate DateLe(a: Date, b: Date) {
    a.year < b.year || (a.year == b.year && (a.month < b.month || (a.month == b.month && a.day <= b.day)))
  }

  /** An event of the filtered collection, as the chart reads it. */
  datatype FilteredEvent = FilteredEvent(date: Date, attendeeIds: seq<Value>, city: string)

  /** A point of the chart: its date, its attendance, its city, and the date it is
      drawn at on the x axis. */
  datatype Point = Point(date: Date, attendees: nat, city: string, axisDate: Date)

  /** One city's line. */
  datatype Series = Series(name: string, values: seq<Point>)

  // ---------------------------------------------------------------------------
  // Points

  /** The point of one event; its axis date is the first day of the event's month. */
  function ToPoint(e: FilteredEvent): (p: Point)
    ensures p.date == e.date && p.city == e.city && p.attendees == |e.attendeeIds|
    ensures p.axisDate.year == e.date.year && p.axisDate.month == e.date.month && p.axisDate.day == 1
  {
    Point(e.date, |e.attendeeIds|, e.city, Date(e.date.year, e.date.month, 1))
  }

  /** Two points are drawn at the same x exactly when their events fall in the same
      month of the same year; a point is never drawn after its date. */
  lemma AxisDateIsMonth(e: FilteredEvent, f: FilteredEvent)
    ensures ToPoint(e).axisDate == ToPoint(f).axisDate <==> e.date.year == f.date.year && e.date.month == f.date.month
    ensures ToPoint(e).axisDate.day == 1
    ensures e.date.day >= 1 ==> DateLe(ToPoint(e).axisDate, e.date)
  {
  }

  /** `_(events).map(...)`: one point per event, in the events' order, each counting
      the event's attendees. */
  function Points(events: seq<FilteredEvent>): (ps: seq<Point>)
    ensures |ps| == |events|
    ensures forall k :: 0 <= k < |events| ==> ps[k] == ToPoint(events[k])
    ensures forall k :: 0 <= k < |events| ==> ps[k].attendees == |events[k].attendeeIds| && ps[k].city == events[k].city
  {
    if events == [] then [] else [ToPoint(events[0])] + Points(events[1..])
  }

  // ---------------------------------------------------------------------------
  // _.sortBy(points, date): a stable sort

  predicate Sorted(s: seq<Point>) {
    forall i, j :: 0 <= i < j < |s| ==> DateLe(s[i].date, s[j].date)
  }

  /** The points of `s` dated `d`, in order. */
  function OfDate(s: seq<Point>, d: Date): seq<Point> {
    if s == [] then [] else OfDate(s[..|s| - 1], d) + (if s[|s| - 1].date == d then [s[|s| - 1]] else [])
  }

  /** Inserts `p` after every element not later than it. */
  function InsertByDate(s: seq<Point>, p: Point): (r: seq<Point>)
    ensures |r| == |s| + 1
    ensures multiset(r) == multiset(s) + multiset{p}
    ensures Sorted(s) ==> Sorted(r)
  {
    if s == [] then [p]
    else
      var n := |s| - 1;
      if DateLe(s[n].date, p.date) then
        assert (s + [p])[..|s|] == s;
        s + [p]
      else
        var r := InsertByDate(s[..n], p) + [s[n]];
        assert s[..n] + [s[n]] == s;
        assert r[..|r| - 1] == InsertByDate(s[..n], p);
        SortedAfterInsert(s, p, r);
        r
  }

  lemma SortedAfterInsert(s: seq<Point>, p: Point, r: seq<Point>)
    requires s != [] && !DateLe(s[|s| - 1].date, p.date)
    requires r == InsertByDate(s[..|s| - 1], p) + [s[|s| - 1]]
    requires multiset(InsertByDate(s[..|s| - 1], p)) == multiset(s[..|s| - 1]) + multiset{p}
    requires Sorted(s[..|s| - 1]) ==> Sorted(InsertByDate(s[..|s| - 1], p))
    ensures Sorted(s) ==> Sorted(r)
  {
    if Sorted(s) {
      var n := |s| - 1;
      var front := InsertByDate(s[..n], p);
      assert Sorted(s[..n]);
      forall i | 0 <= i < |front| ensures DateLe(front[i].date, s[n].date) {
        assert front[i] in multiset(front);
        if front[i] != p {
          assert front[i] in multiset(s[..n]);
          var k :| 0 <= k < n && s[..n][k] == front[i];
          assert s[k] == front[i];
        }
      }
    }
  }

  /** `_.sortBy(points, d => d.date)`: the points in date order; points with the same
      date keep their relative order (underscore breaks ties by position). */
  function SortByDate(ps: seq<Point>): (r: seq<Point>)
    ensures |r| == |ps|
    ensures Sorted(r)
    ensures multiset(r) == multiset(ps)
  {
    if ps == [] then []
    else
      var n := |ps| - 1;
      assert ps[..n] + [ps[n]] == ps;
      InsertByDate(SortByDate(ps[..n]), ps[n])
  }

  /** Inserting `p` puts it after the points of its date and moves no other point
      past one of the same date. */
  lemma {:induction false} InsertKeepsDateOrder(s: seq<Point>, p: Point, d: Date)
    ensures OfDate(InsertByDate(s, p), d) == OfDate(s, d) + (if p.date == d then [p] else [])
  {
    var mine := if p.date == d then [p] else [];
    if s == [] {
      assert OfDate([p], d) == OfDate([], d) + mine;
    } else {
      var n := |s| - 1;
      if DateLe(s[n].date, p.date) {
        assert InsertByDate(s, p) == s + [p];
        assert (s + [p])[..|s|] == s;
        assert OfDate(s + [p], d) == OfDate(s, d) + mine;
      } else {
        InsertKeepsDateOrder(s[..n], p, d);
        InsertBeforeLater(s, p, d);
      }
    }
  }

  /** The step of the above where `p` goes before the last point, which is later. */
  lemma InsertBeforeLater(s: seq<Point>, p: Point, d: Date)
    requires s != [] && !DateLe(s[|s| - 1].date, p.date)
    requires OfDate(InsertByDate(s[..|s| - 1], p), d) == OfDate(s[..|s| - 1], d) + (if p.date == d then [p] else [])
    ensures OfDate(InsertByDate(s, p), d) == OfDate(s, d) + (if p.date == d then [p] else [])
  {
    var n := |s| - 1;
    var mine := if p.date == d then [p] else [];
    var front := InsertByDate(s[..n], p);
    var r := front + [s[n]];
    assert r == InsertByDate(s, p);
    assert r[..|r| - 1] == front && r[|r| - 1] == s[n];
    var last := if s[n].date == d then [s[n]] else [];
    assert s[n].date != p.date;
    calc {
      OfDate(r, d);
      OfDate(front, d) + last;
      OfDate(s[..n], d) + mine + last;
      { assert mine + last == last + mine; }
      OfDate(s[..n], d) + last + mine;
      OfDate(s, d) + mine;
    }
  }

  /** The sort is stable: the points of each date keep their order. */
  lemma {:induction false} SortByDateStable(ps: seq<Point>, d: Date)
    ensures OfDate(SortByDate(ps), d) == OfDate(ps, d)
  {
    if ps != [] {
      var n := |ps| - 1;
      assert ps[..n] + [ps[n]] == ps;
      SortByDateStable(ps[..n], d);
      InsertKeepsDateOrder(SortByDate(ps[..n]), ps[n], d);
    }
  }

  // ---------------------------------------------------------------------------
  // _.groupBy(points, city), then one series per key

  /** The points of `s` in `city`, in order. */
  function OfCity(s: seq<Point>, city: string): (r: seq<Point>)
    ensures forall k :: 0 <= k < |r| ==> r[k].city == city
  {
    if s == [] then [] else OfCity(s[..|s| - 1], city) + (if s[|s| - 1].city == city then [s[|s| - 1]] else [])
  }

  /** Keeping the points of one city keeps date order. */
  lemma {:induction false} OfCitySorted(s: seq<Point>, city: string)
    requires Sorted(s)
    ensures Sorted(OfCity(s, city))
    ensures forall k :: 0 <= k < |OfCity(s, city)| ==> OfCity(s, city)[k] in s
  {
    if s != [] {
      var n := |s| - 1;
      assert Sorted(s[..n]);
      OfCitySorted(s[..n], city);
      var front := OfCity(s[..n], city);
      forall k | 0 <= k < |front| ensures front[k] in s && DateLe(front[k].date, s[n].date) {
        var j :| 0 <= j < n && s[..n][j] == front[k];
        assert s[j] == front[k];
      }
    }
  }

  /** A city that no point has has no points. */
  lemma {:induction false} OfCityAbsent(s: seq<Point>, city: string)
    requires forall k :: 0 <= k < |s| ==> s[k].city != city
    ensures OfCity(s, city) == []
  {
    if s != [] {
      OfCityAbsent(s[..|s| - 1], city);
    }
  }

  /** `gs` is what `groupBy` followed by the map into series makes of `ps`: the series
      have distinct names, none is empty, each holds exactly the points of its city in
      their order in `ps`, and every point's city has a series. */
  predicate GroupedBy(ps: seq<Point>, gs: seq<Series>) {
    && (forall i, j :: 0 <= i < j < |gs| ==> gs[i].name != gs[j].name)
    && (forall i :: 0 <= i < |gs| ==> gs[i].values != [] && gs[i].values == OfCity(ps, gs[i].name))
    && (forall k :: 0 <= k < |ps| ==> exists i :: 0 <= i < |gs| && gs[i].name == ps[k].city)
  }

  /** The position of the series named `city`, or -1. */
  function FindSeries(gs: seq<Series>, city: string): (i: int)
    ensures -1 <= i < |gs|
    ensures i >= 0 ==> gs[i].name == city
    ensures i < 0 ==> forall j :: 0 <= j < |gs| ==> gs[j].name != city
  {
    if gs == [] then -1
    else if gs[0].name == city then 0
    else
      var k := FindSeries(gs[1..], city);
      if k < 0 then -1 else k + 1
  }

  /** One step of `groupBy`: the point joins its city's series, or opens a new one at
      the end when its city has none yet. */
  function AddToSeries(gs: seq<Series>, p: Point): (r: seq<Series>)
    ensures |gs| <= |r| <= |gs| + 1 && forall j :: 0 <= j < |gs| ==> r[j].name == gs[j].name
  {
    var i := FindSeries(gs, p.city);
    if i < 0 then gs + [Series(p.city, [p])]
    else gs[i := Series(gs[i].name, gs[i].values + [p])]
  }

  /** A point opens a new series at the end when its city has none, and otherwise
      joins the end of one series of its city, every other series unchanged. */
  lemma AddToSeriesJoins(gs: seq<Series>, p: Point)
    ensures var r := AddToSeries(gs, p);
      (forall j :: 0 <= j < |gs| ==> gs[j].name != p.city) ==> r == gs + [Series(p.city, [p])]
    ensures var r := AddToSeries(gs, p);
      (exists j :: 0 <= j < |gs| && gs[j].name == p.city) ==>
        && |r| == |gs|
        && exists j :: 0 <= j < |gs| && gs[j].name == p.city && r[j].values == gs[j].values + [p]
             && forall k :: 0 <= k < |gs| && k != j ==> r[k] == gs[k]
  {
    var r := AddToSeries(gs, p);
    var i := FindSeries(gs, p.city);
    if i >= 0 {
      assert r[i].values == gs[i].values + [p];
    }
  }

  lemma {:induction false} AddToSeriesGroups(ps: seq<Point>, gs: seq<Series>, p: Point)
    requires GroupedBy(ps, gs)
    ensures GroupedBy(ps + [p], AddToSeries(gs, p))
  {
    var qs := ps + [p];
    assert qs[..|ps|] == ps;
    var r := AddToSeries(gs, p);
    var i := FindSeries(gs, p.city);
    if i < 0 {
      OfCityAbsent(ps, p.city);
      assert r[|gs|].values == OfCity(qs, p.city);
      forall k | 0 <= k < |qs| ensures exists j :: 0 <= j < |r| && r[j].name == qs[k].city {
        if k < |ps| {
          var j :| 0 <= j < |gs| && gs[j].name == ps[k].city;
          assert r[j].name == qs[k].city;
        } else {
          assert r[|gs|].name == qs[k].city;
        }
      }
    } else {
      forall k | 0 <= k < |qs| ensures exists j :: 0 <= j < |r| && r[j].name == qs[k].city {
        if k < |ps| {
          var j :| 0 <= j < |gs| && gs[j].name == ps[k].city;
          assert r[j].name == qs[k].city;
        } else {
          assert r[i].name == qs[k].city;
        }
      }
    }
  }

  /** `_.groupBy(ps, d => d.city)` mapped to `{name, values}`: the series in the order
      their cities first appear. */
  function GroupByCity(ps: seq<Point>): (gs: seq<Series>)
    ensures GroupedBy(ps, gs)
  {
    if ps == [] then []
    else
      var n := |ps| - 1;
      assert ps[..n] + [ps[n]] == ps;
      AddToSeriesGroups(ps[..n], GroupByCity(ps[..n]), ps[n]);
      AddToSeries(GroupByCity(ps[..n]), ps[n])
  }

  /** The chart's series: the points, sorted by date, grouped by city. */
  function CitySeries(events: seq<FilteredEvent>): (gs: seq<Series>)
    ensures GroupedBy(SortByDate(Points(events)), gs)
    ensures forall i :: 0 <= i < |gs| ==> multiset(gs[i].values) <= multiset(Points(events))
  {
    var sorted := SortByDate(Points(events));
    GroupsWithinPoints(sorted, GroupByCity(sorted));
    GroupByCity(sorted)
  }

  /** A grouping takes no point more often than the points hold it. */
  lemma GroupsWithinPoints(ps: seq<Point>, gs: seq<Series>)
    requires GroupedBy(ps, gs)
    ensures forall i :: 0 <= i < |gs| ==> multiset(gs[i].values) <= multiset(ps)
  {
    forall i | 0 <= i < |gs| ensures multiset(gs[i].values) <= multiset(ps) {
      OfCityMultiset(ps, gs[i].name);
    }
  }

  /** Every series is in date order. */
  lemma CitySeriesSorted(events: seq<FilteredEvent>)
    ensures forall i :: 0 <= i < |CitySeries(events)| ==> Sorted(CitySeries(events)[i].values)
  {
    var sorted := SortByDate(Points(events));
    var gs := CitySeries(events);
    forall i | 0 <= i < |gs| ensures Sorted(gs[i].values) {
      OfCitySorted(sorted, gs[i].name);
    }
  }

  /** Each series holds exactly the points of its city (as a collection: its order
      is the date order). */
  lemma CitySeriesHoldTheirCity(events: seq<FilteredEvent>)
    ensures forall i :: 0 <= i < |CitySeries(events)| ==>
      multiset(CitySeries(events)[i].values) == multiset(OfCity(Points(events), CitySeries(events)[i].name))
  {
    var ps := Points(events);
    var gs := CitySeries(events);
    forall i | 0 <= i < |gs| ensures multiset(gs[i].values) == multiset(OfCity(ps, gs[i].name)) {
      OfCityPermutation(ps, SortByDate(ps), gs[i].name);
    }
  }

  /** Every event's point is in the series named after its city. */
  lemma EventInItsCitySeries(events: seq<FilteredEvent>, k: int)
    requires 0 <= k < |events|
    ensures exists i :: 0 <= i < |CitySeries(events)| && CitySeries(events)[i].name == events[k].city && ToPoint(events[k]) in CitySeries(events)[i].values
  {
    var ps := Points(events);
    var sorted := SortByDate(ps);
    var gs := CitySeries(events);
    assert ps[k] in multiset(sorted);
    var m :| 0 <= m < |sorted| && sorted[m] == ps[k];
    var i := PointInItsSeries(sorted, gs, m);
    assert ToPoint(events[k]) in gs[i].values;
  }

  /** In a grouping, each point sits in the series named after its city. */
  lemma PointInItsSeries(ps: seq<Point>, gs: seq<Series>, m: int) returns (i: int)
    requires GroupedBy(ps, gs) && 0 <= m < |ps|
    ensures 0 <= i < |gs| && gs[i].name == ps[m].city && ps[m] in gs[i].values
  {
    assert GroupedBy(ps, gs);
    assert forall k :: 0 <= k < |ps| ==> exists j :: 0 <= j < |gs| && gs[j].name == ps[k].city;
    i :| 0 <= i < |gs| && gs[i].name == ps[m].city;
    OfCityHas(ps, m);
  }

  /** Every event's city has a series. */
  lemma EveryCityHasSeries(events: seq<FilteredEvent>)
    ensures forall k :: 0 <= k < |events| ==> exists i :: 0 <= i < |CitySeries(events)| && CitySeries(events)[i].name == events[k].city
  {
    var gs := CitySeries(events);
    forall k | 0 <= k < |events| ensures exists i :: 0 <= i < |gs| && gs[i].name == events[k].city {
      EventInItsCitySeries(events, k);
      var i :| 0 <= i < |gs| && gs[i].name == events[k].city && ToPoint(events[k]) in gs[i].values;
      assert gs[i].name == events[k].city;
    }
  }

  /** A point is among the points of its own city. */
  lemma {:induction false} OfCityHas(s: seq<Point>, m: int)
    requires 0 <= m < |s|
    ensures s[m] in OfCity(s, s[m].city)
  {
    var n := |s| - 1;
    if m < n {
      OfCityHas(s[..n], m);
    }
  }

  /** Points of one city in two orderings of the same points are the same points. */
  lemma {:induction false} OfCityPermutation(s: seq<Point>, t: seq<Point>, city: string)
    requires multiset(s) == multiset(t)
    ensures multiset(OfCity(s, city)) == multiset(OfCity(t, city))
  {
    OfCityMultiset(s, city);
    OfCityMultiset(t, city);
  }

  /** The points of one city form the sub-multiset of the points in that city. */
  lemma {:induction false} OfCityMultiset(s: seq<Point>, city: string)
    ensures forall p :: multiset(OfCity(s, city))[p] == if p.city == city then multiset(s)[p] else 0
  {
    if s != [] {
      var n := |s| - 1;
      OfCityMultiset(s[..n], city);
      assert s[..n] + [s[n]] == s;
    }
  }

  // ---------------------------------------------------------------------------
  // y.domain([0, d3.max(data, attendees) + 10])

  function MaxAttendees(ps: seq<Point>): (m: nat)
    requires ps != []
    ensures forall k :: 0 <= k < |ps| ==> ps[k].attendees <= m
    ensures exists k :: 0 <= k < |ps| && ps[k].attendees == m
  {
    if |ps| == 1 then ps[0].attendees
    else
      var rest := MaxAttendees(ps[1..]);
      assert forall k :: 1 <= k < |ps| ==> ps[k] == ps[1..][k - 1];
      if ps[0].attendees >= rest then ps[0].attendees else rest
  }

  /** The upper end of the y domain: 10 above the largest attendance, hence above
      every point; with no point `d3.max` is undefined and the sum NaN. */
  function YUpper(ps: seq<Point>): (r: Value)
    ensures ps == [] <==> r.NaN?
    ensures ps != [] ==> r.Num?
    ensures r.Num? ==> forall k :: 0 <= k < |ps| ==> ps[k].attendees + 10 <= r.n
    ensures r.Num? ==> exists k :: 0 <= k < |ps| && ps[k].attendees + 10 == r.n
  {
    if ps == [] then NaN else Num(MaxAttendees(ps) + 10)
  }

  // ---------------------------------------------------------------------------
  // The tooltip's city name: `city.substr(0, 1).toUpperCase() + city.substr(1)`

  /** `toUpperCase` of one character, for Latin-1; 'ß' becomes "SS". Characters
      outside Latin-1 are kept as they are. */
  function UpperCase(c: char): (u: string)
    ensures |u| == 1 || (c == '\U{DF}' && u == "SS")
    ensures !('a' <= u[0] <= 'z')
    ensures 'a' <= c <= 'z' ==> u == [(c as int - 32) as char]
    ensures c < '\U{80}' && !('a' <= c <= 'z') ==> u == [c]
    ensures '\U{E0}' <= c <= '\U{FE}' && c != '\U{F7}' ==> u == [(c as int - 32) as char]
  {
    if 'a' <= c <= 'z' then [(c as int - 32) as char]
    else if c == '\U{DF}' then "SS"
    else if '\U{E0}' <= c <= '\U{FE}' && c != '\U{F7}' then [(c as int - 32) as char]
    else if c == '\U{FF}' then ['\U{178}']
    else if c == '\U{B5}' then ['\U{39C}']
    else [c]
  }

  /** An upper-cased character upper-cases to itself. */
  lemma UpperCaseIdempotent(c: char)
    ensures UpperCase(UpperCase(c)[0]) == [UpperCase(c)[0]]
  {
  }

  /** `toUpperCase` over a string, character by character: no lower-case ASCII letter
      is left, and without 'ß' the length is kept, each character upper-cased in
      place. */
  function UpperCaseString(s: string): (r: string)
    ensures |r| >= |s|
    ensures forall i :: 0 <= i < |r| ==> !('a' <= r[i] <= 'z')
    ensures '\U{DF}' !in s ==> |r| == |s| && forall i :: 0 <= i < |s| ==> UpperCase(s[i]) == [r[i]]
  {
    if s == [] then [] else UpperCase(s[0]) + UpperCaseString(s[1..])
  }

  /** The city as the tooltip shows it: first character upper-cased, the rest as it
      is; the length is kept unless the first character is 'ß'. */
  function Capitalize(city: string): (r: string)
    ensures city == [] ==> r == []
    ensures city != [] ==> r == UpperCase(city[0]) + city[1..]
    ensures city != [] ==> r != [] && !('a' <= r[0] <= 'z')
    ensures city != [] && city[0] != '\U{DF}' ==> |r| == |city| && r[1..] == city[1..]
  {
    FirstCharacter(city);
    UpperCaseString(Substr(city, 0, 1)) + SubstrFrom(city, 1)
  }

  /** `city.substr(0, 1)` is the first character, and upper-cases as that character. */
  lemma FirstCharacter(city: string)
    ensures city == [] ==> Substr(city, 0, 1) == []
    ensures city != [] ==> Substr(city, 0, 1) == [city[0]] && UpperCaseString([city[0]]) == UpperCase(city[0])
  {
    if city != [] {
      assert UpperCaseString([city[0]]) == UpperCase(city[0]) + UpperCaseString([]);
    }
  }

  /** Capitalising twice is capitalising once. */
  lemma CapitalizeIdempotent(city: string)
    ensures Capitalize(Capitalize(city)) == Capitalize(city)
  {
    if city != [] {
      var r := Capitalize(city);
      UpperCaseIdempotent(city[0]);
      assert r[0] == UpperCase(city[0])[0];
      assert r[1..] == UpperCase(city[0])[1..] + city[1..];
    }
  }

  // ---------------------------------------------------------------------------
  // The year suffix of tick labels and tooltip dates

  /** A moment format pattern prints the year when it holds the year token. */
  predicate ShowsYear(pattern: string) {
    'Y' in pattern
  }

  /** The tick label format: the month, and a two-digit year after it when the tick
      is not in the current year. */
  function TickFormat(tickYear: int, currentYear: int): (pattern: string)
    ensures ShowsYear(pattern) <==> tickYear != currentYear
    ensures |pattern| >= 3 && pattern[..3] == "MMM"
  {
    "MMM" + (if tickYear != currentYear then " YY" else "")
  }

  /** The tooltip date format: day and month, and the full year after them when the
      event is not in the current year. */
  function TooltipDateFormat(eventYear: int, currentYear: int): (pattern: string)
    ensures ShowsYear(pattern) <==> eventYear != currentYear
    ensures |pattern| >= 6 && pattern[..6] == "D MMMM"
  {
    "D MMMM" + (if currentYear != eventYear then " YYYY" else "")
  }

  /** Tick labels and tooltips agree on when a year is shown. */
  lemma YearShownAlike(year: int, currentYear: int)
    ensures ShowsYear(TickFormat(year, currentYear)) == ShowsYear(TooltipDateFormat(year, currentYear))
  {
  }

  // ---------------------------------------------------------------------------
  // render

  /** What `render` computes before drawing: the city series and the top of the y
      domain. */
  datatype ChartModel = ChartModel(series: seq<Series>, yUpper: Value)

  /** The data part of `render`: nothing at all without data (the source returns
      false); otherwise series that are date-ordered, non-empty, one per city, and a
      y domain reaching above every series' points. */
  function Render(data: Option<seq<FilteredEvent>>): (r: Option<ChartModel>)
    ensures data.None? <==> r.None?
    ensures r.Some? ==> r.value == ChartModel(CitySeries(data.value), YUpper(Points(data.value)))
    ensures r.Some? ==>
      var gs := r.value.series;
      && (forall i, j :: 0 <= i < j < |gs| ==> gs[i].name != gs[j].name)
      && (forall i :: 0 <= i < |gs| ==> gs[i].values != [] && Sorted(gs[i].values))
      && (forall k :: 0 <= k < |data.value| ==> exists i :: 0 <= i < |gs| && gs[i].name == data.value[k].city)
      && (data.value == [] <==> r.value.yUpper.NaN?)
      && (r.value.yUpper.Num? ==> forall i, k :: 0 <= i < |gs| && 0 <= k < |gs[i].values| ==> gs[i].values[k].attendees < r.value.yUpper.n)
  {
    match data
    case None => None
    case Some(events) =>
      ChartFacts(events);
      Some(ChartModel(CitySeries(events), YUpper(Points(events))))
  }

  /** The series and the y bound `render` draws from `events`. */
  lemma ChartFacts(events: seq<FilteredEvent>)
    ensures var gs, y := CitySeries(events), YUpper(Points(events));
      && (forall i, j :: 0 <= i < j < |gs| ==> gs[i].name != gs[j].name)
      && (forall i :: 0 <= i < |gs| ==> gs[i].values != [] && Sorted(gs[i].values))
      && (forall k :: 0 <= k < |events| ==> exists i :: 0 <= i < |gs| && gs[i].name == events[k].city)
      && (events == [] <==> y.NaN?)
      && (y.Num? ==> forall i, k :: 0 <= i < |gs| && 0 <= k < |gs[i].values| ==> gs[i].values[k].attendees < y.n)
  {
    CitySeriesSorted(events);
    EveryCityHasSeries(events);
    SeriesPointsAmongPoints(events);
  }

  /** Every point of a series is one of the chart's points. */
  lemma SeriesPointsAmongPoints(events: seq<FilteredEvent>)
    ensures var gs := CitySeries(events);
      forall i, k :: 0 <= i < |gs| && 0 <= k < |gs[i].values| ==> gs[i].values[k] in Points(events)
  {
    var ps := Points(events);
    var sorted := SortByDate(ps);
    var gs := CitySeries(events);
    forall i, k | 0 <= i < |gs| && 0 <= k < |gs[i].values| ensures gs[i].values[k] in ps {
      OfCitySorted(sorted, gs[i].name);
      assert gs[i].values[k] in multiset(sorted);
    }
  }

  /** Two events of March 2020 in paris, with three and two attendees, are drawn at
      March 1st in a single paris series, in date order. */
  lemma SameMonthExample()
    ensures var events := [
        FilteredEvent(Date(2020, 3, 5), [Num(1), Num(2), Num(3)], "paris"),
        FilteredEvent(Date(2020, 3, 20), [Num(1), Num(2)], "paris")];
      var gs := CitySeries(events);
      && |gs| == 1 && gs[0].name == "paris"
      && |gs[0].values| == 2
      && gs[0].values[0].attendees == 3 && gs[0].values[1].attendees == 2
      && gs[0].values[0].axisDate == gs[0].values[1].axisDate == Date(2020, 3, 1)
  {
    var events := [
      FilteredEvent(Date(2020, 3, 5), [Num(1), Num(2), Num(3)], "paris"),
      FilteredEvent(Date(2020, 3, 20), [Num(1), Num(2)], "paris")];
    var ps := Points(events);
    assert ps == [ToPoint(events[0]), ToPoint(events[1])];
    assert ps[..1] == [ps[0]];
    assert SortByDate(ps[..1]) == [ps[0]];
    assert SortByDate(ps) == ps;
    assert ps[..1] + [ps[1]] == ps;
    assert GroupByCity(ps[..1]) == [Series("paris", [ps[0]])];
  }
}
