/** The client-side models of the models file: the `parse` functions that rewrite a
    raw API record in place into a canonical one, the collections' comparator, the
    city selection of `Cities`, and the user cross-reference (`setAttendance`,
    `setTalks`) rebuilt by scanning events and talks. */
module Models {
  import opened JsString
  import opened JsValue
  import opened ModelsUtils

  /** The prefix `City.parse` and `Event.parse` strip from API urls. */
  const CitiesUrlPrefix := "http://humantalks.com/cities/"

  /** The part of the users' url template before '<%= id %>-<%= slug %>'. */
  const UsersUrlPrefix := "http://news.humancoders.com/users/"

  /** A raw API record: the dictionary `data` that a `parse` function receives,
      rewrites in place and returns. */
  class Record {
    var fields: Dict

    constructor (fields: Dict)
      ensures this.fields == fields
    {
      this.fields := fields;
    }
  }

  /** What a `parse` function leaves behind: the record as it stands when it returns
      or throws (assignments made before a throw remain), and how it ended. */
  datatype Parsed = Parsed(fields: Dict, outcome: Outcome)

  // ---------------------------------------------------------------------------
  // Backbone.Collection.prototype.comparator

  /** The sort key of a model: its `name`, else its `title`, else its `id`, the first
      that is truthy, and its `cid` otherwise. `props` are the properties of the model
      object itself (for a Backbone model, `id` and `cid`; its attributes live apart). */
  function ComparatorKey(props: Dict): (key: Value)
    ensures Truthy(key) || key == Get(props, "cid")
    ensures key in {Get(props, "name"), Get(props, "title"), Get(props, "id"), Get(props, "cid")}
    ensures Truthy(Get(props, "name")) ==> key == Get(props, "name")
    ensures !Truthy(Get(props, "name")) && Truthy(Get(props, "title")) ==> key == Get(props, "title")
    ensures !Truthy(Get(props, "name")) && !Truthy(Get(props, "title")) && Truthy(Get(props, "id"))
      ==> key == Get(props, "id")
    ensures !Truthy(Get(props, "name")) && !Truthy(Get(props, "title")) && !Truthy(Get(props, "id"))
      ==> key == Get(props, "cid")
  {
    if Truthy(Get(props, "name")) then Get(props, "name")
    else if Truthy(Get(props, "title")) then Get(props, "title")
    else if Truthy(Get(props, "id")) then Get(props, "id")
    else Get(props, "cid")
  }

  // ---------------------------------------------------------------------------
  // City.parse

  /** The record `City.parse` makes of `d`: with a truthy url, `id` becomes the url
      without the first occurrence of the cities prefix and `url` is removed; every
      other key is kept. A truthy url that is not a string throws. */
  function CityParsed(d: Dict): (r: Parsed)
    ensures !Truthy(Get(d, "url")) ==> r == Parsed(d, Pass)
    ensures Truthy(Get(d, "url")) && !Get(d, "url").Str? ==> r.fields == d && r.outcome.Throw?
    ensures Get(d, "url").Str? && Truthy(Get(d, "url")) ==>
      && r.outcome == Pass
      && "url" !in r.fields
      && "id" in r.fields && r.fields["id"] == Str(RemoveFirst(Get(d, "url").s, CitiesUrlPrefix))
      && SameExcept(r.fields, d, {"id", "url"})
  {
    var url := Get(d, "url");
    if !Truthy(url) then Parsed(d, Pass)
    else if !url.Str? then Parsed(d, Throw(TypeError("data.url.replace is not a function")))
    else
      var d1 := d["id" := Str(RemoveFirst(url.s, CitiesUrlPrefix))];
      SameExceptAfterSet(d, "id", d1["id"], {"id", "url"});
      SameExceptAfterDelete(d1, "url", {"id", "url"});
      Parsed(d1 - {"url"}, Pass)
  }

  /** A city url built from the collection's template 'http://humantalks.com/cities/<%= city %>'
      parses back to the city it was built from. */
  lemma CityUrlRoundTrip(d: Dict, city: string)
    requires Get(d, "url") == Str(CitiesUrlPrefix + city)
    ensures CityParsed(d).outcome == Pass
    ensures CityParsed(d).fields["id"] == Str(city)
  {
    RemoveFirstOfPrefix(CitiesUrlPrefix, city);
  }

  class City {
    var attributes: Dict

    constructor (attributes: Dict)
      ensures this.attributes == attributes
    {
      this.attributes := attributes;
    }

    /** City.parse: rewrites `data` in place. */
    static method Parse(data: Record) returns (outcome: Outcome)
      modifies data
      ensures Parsed(data.fields, outcome) == CityParsed(old(data.fields))
    {
      var url := Get(data.fields, "url");
      if Truthy(url) {
        if !url.Str? {
          return Throw(TypeError("data.url.replace is not a function"));
        }
        data.fields := data.fields["id" := Str(RemoveFirst(url.s, CitiesUrlPrefix))];
        data.fields := data.fields - {"url"};
      }
      outcome := Pass;
    }
  }

  // ---------------------------------------------------------------------------
  // Cities: the active city

  /** `collection.get(id)` over `ms`: the first city whose `id` attribute is `id`;
      null and undefined find nothing. */
  function FindCity(ms: seq<City>, id: Value): (r: City?)
    reads ms
    ensures r != null ==> r in ms && Get(r.attributes, "id") == id && !id.Undefined? && !id.Null?
    ensures r == null <==> id.Undefined? || id.Null? || forall c :: c in ms ==> Get(c.attributes, "id") != id
  {
    if id.Undefined? || id.Null? || ms == [] then null
    else if Get(ms[0].attributes, "id") == id then ms[0]
    else FindCity(ms[1..], id)
  }

  class Cities {
    var models: seq<City>
    /** The selected city; null when none is selected. */
    var activeItem: City?

    constructor (models: seq<City>)
      ensures this.models == models && activeItem == null
    {
      this.models := models;
      activeItem := null;
    }

    /** Cities.activate(id): when a city has that id it becomes the active one and the
        result is true (the source returns undefined); otherwise the result is false
        (the source's `return false`) and the selection is left as it was. */
    method Activate(id: Value) returns (activated: bool)
      modifies this`activeItem
      ensures activated <==> exists c :: c in models && Get(c.attributes, "id") == id && !id.Undefined? && !id.Null?
      ensures activated ==> activeItem == FindCity(models, id) && activeItem in models
      ensures activated ==> Get(activeItem.attributes, "id") == id
      ensures !activated ==> activeItem == old(activeItem)
    {
      var city := FindCity(models, id);
      if city == null {
        return false;
      }
      activeItem := city;
      activated := true;
    }

    /** Cities.desactivate(): no city is selected any more. */
    method Desactivate()
      modifies this`activeItem
      ensures activeItem == null
    {
      activeItem := null;
    }
  }

  // ---------------------------------------------------------------------------
  // Event.parse

  predicate IsLineTerminator(c: char) {
    c == '\n' || c == '\r' || c == '\U{2028}' || c == '\U{2029}'
  }

  predicate NoLineTerminator(s: string) {
    forall k :: 0 <= k < |s| ==> !IsLineTerminator(s[k])
  }

  /** The regular expression /\/cities\/(.*)\/events/ matches `url` with '/cities/'
      at `i` and '/events' at `j`; its group is `url[i + 8..j]`, where `.` admits
      anything but a line terminator. */
  predicate MatchesAt(url: string, i: int, j: int) {
    OccursAt(url, "/cities/", i) && i + 8 <= j && OccursAt(url, "/events", j)
    && NoLineTerminator(url[i + 8..j])
  }

  /** The greedy `(.*)`: the last end `j <= hi` that matches at `i`. */
  function GreedyEnd(url: string, i: nat, hi: int): (r: Option<int>)
    decreases hi
    ensures r.Some? ==> MatchesAt(url, i, r.value) && r.value <= hi
    ensures forall j :: (r.None? || r.value < j) && j <= hi ==> !MatchesAt(url, i, j)
  {
    if hi < i + 8 then None
    else if MatchesAt(url, i, hi) then Some(hi)
    else GreedyEnd(url, i, hi - 1)
  }

  /** The leftmost match starting at `from` or later, with its greedy end. */
  function MatchFrom(url: string, from: nat): (r: Option<(int, int)>)
    decreases |url| - from
    ensures r.Some? ==>
      && from <= r.value.0
      && MatchesAt(url, r.value.0, r.value.1)
      && (forall j :: r.value.1 < j ==> !MatchesAt(url, r.value.0, j))
      && (forall i, j :: from <= i < r.value.0 ==> !MatchesAt(url, i, j))
    ensures r.None? ==> forall i, j :: from <= i ==> !MatchesAt(url, i, j)
  {
    if from >= |url| then None
    else match GreedyEnd(url, from, |url| - 7)
      case Some(j) => Some((from, j))
      case None => MatchFrom(url, from + 1)
  }

  /** `url.match(/\/cities\/(.*)\/events/)[1]`, or None when `match` gives null. */
  function CityInUrl(url: string): (city: Option<string>)
    ensures city.Some? ==> NoLineTerminator(city.value)
    ensures city.Some? ==> exists i, j :: MatchesAt(url, i, j) && city.value == url[i + 8..j]
    ensures city.None? <==> forall i, j :: !MatchesAt(url, i, j)
    ensures city.Some? <==> MatchFrom(url, 0).Some?
    ensures city.Some? ==> city.value == url[MatchFrom(url, 0).value.0 + 8..MatchFrom(url, 0).value.1]
  {
    match MatchFrom(url, 0)
    case Some((i, j)) => Some(url[i + 8..j])
    case None => None
  }

  /** The url step of `Event.parse`: `city` is the text the regular expression
      captures (the empty capture gives ''), `id` the number that remains once
      '<prefix><city>/events/' is removed, and `url` is deleted. A url that is not
      a string, or that the expression does not match (`city[1]` is then read from
      null), throws before anything is written. */
  function EventUrlParsed(d: Dict): (r: Result<Dict>)
    ensures !Truthy(Get(d, "url")) ==> r == Ok(d)
    ensures Truthy(Get(d, "url")) && !Get(d, "url").Str? ==> r.Err?
    ensures Get(d, "url").Str? && Truthy(Get(d, "url")) ==>
      (r.Err? <==> CityInUrl(Get(d, "url").s).None?)
    ensures Get(d, "url").Str? && Truthy(Get(d, "url")) && r.Ok? ==>
      var url := Get(d, "url").s;
      var city := CityInUrl(url).value;
      && "url" !in r.value
      && "city" in r.value && r.value["city"] == Str(city)
      && "id" in r.value && r.value["id"] == NumberValue(RemoveFirst(url, CitiesUrlPrefix + city + "/events/"))
      && SameExcept(r.value, d, {"city", "id", "url"})
    ensures r.Ok? ==> Get(r.value, "date") == Get(d, "date")
  {
    var url := Get(d, "url");
    if !Truthy(url) then Ok(d)
    else if !url.Str? then Err(TypeError("data.url.match is not a function"))
    else match CityInUrl(url.s)
      case None => Err(TypeError("Cannot read property '1' of null"))
      case Some(city) =>
        var id := NumberValue(RemoveFirst(url.s, CitiesUrlPrefix + city + "/events/"));
        EventStepWrites(d, Str(city), id);
        Ok(d["city" := Str(city)]["id" := id] - {"url"})
  }

  /** What the url step of `Event.parse` writes: `city` and `id`, with `url` deleted. */
  lemma EventStepWrites(d: Dict, city: Value, id: Value)
    ensures var r := d["city" := city]["id" := id] - {"url"};
      && "url" !in r && "city" in r && r["city"] == city && "id" in r && r["id"] == id
      && SameExcept(r, d, {"city", "id", "url"})
      && Get(r, "date") == Get(d, "date")
  {
    var keys := {"city", "id", "url"};
    SameExceptAfterSet(d, "city", city, keys);
    SameExceptAfterSet(d["city" := city], "id", id, keys);
    SameExceptAfterDelete(d["city" := city]["id" := id], "url", keys);
    SameExceptKeeps(d["city" := city]["id" := id] - {"url"}, d, keys, "date");
  }

  /** The date step of `Event.parse`: a truthy date goes through `frenchDateToNumber`. */
  function WithDateConverted(d: Dict, frenchDateToNumber: Value -> Value): (r: Dict)
    ensures Truthy(Get(d, "date")) ==> r == d["date" := frenchDateToNumber(d["date"])]
    ensures !Truthy(Get(d, "date")) ==> r == d
  {
    var date := Get(d, "date");
    if Truthy(date) then d["date" := frenchDateToNumber(date)] else d
  }

  /** The record `Event.parse` makes of `d`. */
  function EventParsed(d: Dict, frenchDateToNumber: Value -> Value): (r: Parsed)
    ensures r.outcome.Throw? ==> r.fields == d
    ensures !Truthy(Get(d, "url")) ==> r == Parsed(WithDateConverted(d, frenchDateToNumber), Pass)
    ensures r.outcome == Pass && Truthy(Get(d, "url")) ==> "url" !in r.fields && Get(r.fields, "city").Str?
    ensures r.outcome == Pass && Truthy(Get(d, "date")) ==> Get(r.fields, "date") == frenchDateToNumber(Get(d, "date"))
  {
    match EventUrlParsed(d)
    case Err(e) => Parsed(d, Throw(e))
    case Ok(d1) =>
      Parsed(WithDateConverted(d1, frenchDateToNumber), Pass)
  }

  /** The url of an event as the collection's template
      'http://humantalks.com/cities/<%= city %>/events/<%= event %>' builds it. */
  function EventUrl(city: string, id: nat): string {
    CitiesUrlPrefix + city + "/events/" + NatToString(id)
  }

  /** The cities prefix holds '/cities/' only where the prefix ends. */
  lemma CitiesMarkerInPrefix(url: string, i: int)
    requires |url| >= |CitiesUrlPrefix| && url[..|CitiesUrlPrefix|] == CitiesUrlPrefix
    requires 0 <= i < 21
    ensures !OccursAt(url, "/cities/", i)
  {
    assert url[i] == CitiesUrlPrefix[i] && url[i + 1] == CitiesUrlPrefix[i + 1];
    assert url[i..i + 8][0] == url[i] && url[i..i + 8][1] == url[i + 1];
  }

  /** Past the city, an event url holds no further '/events'. */
  lemma NoEventsMarkerAfterCity(city: string, id: nat, j: int)
    requires |CitiesUrlPrefix| + |city| < j
    ensures !OccursAt(EventUrl(city, id), "/events", j)
  {
    var url := EventUrl(city, id);
    var digits := NatToString(id);
    var start := |CitiesUrlPrefix| + |city|;
    assert url == (CitiesUrlPrefix + city) + "/events/" + digits;
    if j + 7 <= |url| {
      assert url[j..j + 7][0] == url[j] && url[j..j + 7][1] == url[j + 1];
      if j < start + 7 {
        assert url[j] == "/events/"[j - start];
      } else if j == start + 7 {
        assert url[j + 1] == digits[0];
        assert 0 <= DigitValue(digits[0]) < 10;
      } else {
        assert url[j] == digits[j - start - 8];
        assert 0 <= DigitValue(digits[j - start - 8]) < 10;
      }
    }
  }

  /** An event url built from the template parses back to the city and the id it was
      built from, for every city name without a line terminator: the greedy group
      reaches the last '/events', which is the template's own. */
  lemma {:induction false} EventUrlRoundTrip(d: Dict, city: string, id: nat)
    requires Get(d, "url") == Str(EventUrl(city, id))
    requires NoLineTerminator(city)
    ensures EventUrlParsed(d).Ok?
    ensures Get(EventUrlParsed(d).value, "city") == Str(city)
    ensures Get(EventUrlParsed(d).value, "id") == Num(id)
  {
    var url := EventUrl(city, id);
    var start := |CitiesUrlPrefix|;
    var end := start + |city|;
    assert url == (CitiesUrlPrefix + city + "/events/") + NatToString(id);
    assert url[..start] == CitiesUrlPrefix;
    assert OccursAt(url, "/cities/", 21) by {
      assert url[21..29] == CitiesUrlPrefix[21..29];
    }
    assert OccursAt(url, "/events", end) by {
      assert url[end..end + 7] == "/events";
    }
    assert url[start..end] == city;
    assert MatchesAt(url, 21, end);
    var m := MatchFrom(url, 0);
    assert m.Some?;
    var (i, j) := m.value;
    if i < 21 {
      CitiesMarkerInPrefix(url, i);
    }
    assert i == 21;
    if j > end {
      NoEventsMarkerAfterCity(city, id, j);
    }
    assert j == end;
    assert CityInUrl(url) == Some(city);
    RemoveFirstOfPrefix(CitiesUrlPrefix + city + "/events/", NatToString(id));
    NatToStringRoundTrip(id);
    assert Get(d, "url").Str? && Truthy(Get(d, "url")) && Get(d, "url").s == url;
    var r := EventUrlParsed(d);
    assert r.Ok? && r.value["city"] == Str(city);
    assert r.value["id"] == NumberValue(NatToString(id));
  }

  class Event {
    var attributes: Dict

    constructor (attributes: Dict)
      ensures this.attributes == attributes
    {
      this.attributes := attributes;
    }

    /** Event.parse: rewrites `data` in place; `frenchDateToNumber` is the date
        helper of the application's utilities, taken as given. */
    static method Parse(data: Record, frenchDateToNumber: Value -> Value) returns (outcome: Outcome)
      modifies data
      ensures Parsed(data.fields, outcome) == EventParsed(old(data.fields), frenchDateToNumber)
    {
      var url := Get(data.fields, "url");
      if Truthy(url) {
        if !url.Str? {
          return Throw(TypeError("data.url.match is not a function"));
        }
        var city := CityInUrl(url.s);
        if city.None? {
          return Throw(TypeError("Cannot read property '1' of null"));
        }
        // city[1] ? city[1] : '' is the capture itself, the empty one included
        data.fields := data.fields["city" := Str(city.value)];
        data.fields := data.fields["id" := NumberValue(RemoveFirst(url.s, CitiesUrlPrefix + city.value + "/events/"))];
        data.fields := data.fields - {"url"};
      }
      var date := Get(data.fields, "date");
      if Truthy(date) {
        data.fields := data.fields["date" := frenchDateToNumber(date)];
      }
      outcome := Pass;
    }
  }

  /** The attribute dictionaries of a collection of events, in collection order. */
  function EventRecords(events: seq<Event>): (rs: seq<Dict>)
    reads events
    ensures |rs| == |events| && forall k :: 0 <= k < |events| ==> rs[k] == events[k].attributes
  {
    if events == [] then [] else [events[0].attributes] + EventRecords(events[1..])
  }

  // ---------------------------------------------------------------------------
  // Talk.parse and User.parse

  /** The url step shared by `Talk.parse` and `User.parse`: a truthy url gives `id`
      and `slug` through getIDFromURL/getSlugFromURL and is deleted. */
  function UrlInfoParsed(d: Dict): (r: Result<Dict>)
    ensures !Truthy(Get(d, "url")) ==> r == Ok(d)
    ensures Truthy(Get(d, "url")) && !Get(d, "url").Str? ==> r.Err?
    ensures Get(d, "url").Str? && Truthy(Get(d, "url")) ==>
      var seg := LastSegment(Get(d, "url").s);
      && r.Ok?
      && "url" !in r.value
      && "id" in r.value && r.value["id"] == NumberValue(IdText(seg))
      && "slug" in r.value && r.value["slug"] == Str(SlugText(seg))
      && SameExcept(r.value, d, {"id", "slug", "url"})
  {
    var url := Get(d, "url");
    if !Truthy(url) then Ok(d)
    else if !url.Str? then Err(GetIDFromURL(url).error)
    else
      var seg := LastSegment(url.s);
      UrlStepWrites(d, NumberValue(IdText(seg)), Str(SlugText(seg)));
      Ok(d["id" := NumberValue(IdText(seg))]["slug" := Str(SlugText(seg))] - {"url"})
  }

  /** What the url step writes: `id` and `slug`, with `url` deleted. */
  lemma UrlStepWrites(d: Dict, id: Value, slug: Value)
    ensures var r := d["id" := id]["slug" := slug] - {"url"};
      && "url" !in r && "id" in r && r["id"] == id && "slug" in r && r["slug"] == slug
      && SameExcept(r, d, {"id", "slug", "url"})
  {
    var keys := {"id", "slug", "url"};
    SameExceptAfterSet(d, "id", id, keys);
    SameExceptAfterSet(d["id" := id], "slug", slug, keys);
    SameExceptAfterDelete(d["id" := id]["slug" := slug], "url", keys);
  }

  /** The event step of `Talk.parse`: an `event` with a truthy `id` is flattened into
      `eventId` and `city`, and deleted. */
  function TalkEventFlattened(d: Dict): (r: Dict)
    ensures !(Truthy(Get(d, "event")) && Truthy(Prop(Get(d, "event"), "id"))) ==> r == d
    ensures Truthy(Get(d, "event")) && Truthy(Prop(Get(d, "event"), "id")) ==>
      && "event" !in r
      && "eventId" in r && r["eventId"] == Prop(Get(d, "event"), "id")
      && "city" in r && r["city"] == Prop(Get(d, "event"), "city")
      && SameExcept(r, d, {"event", "eventId", "city"})
  {
    var event := Get(d, "event");
    if Truthy(event) && Truthy(Prop(event, "id")) then
      var keys := {"event", "eventId", "city"};
      var d1 := d["eventId" := Prop(event, "id")];
      var d2 := d1["city" := Prop(event, "city")];
      SameExceptAfterSet(d, "eventId", Prop(event, "id"), keys);
      SameExceptAfterSet(d1, "city", Prop(event, "city"), keys);
      SameExceptAfterDelete(d2, "event", keys);
      d2 - {"event"}
    else d
  }

  /** The author step of `Talk.parse`: a truthy `author` is replaced by `authorId`
      (from its url) or else by `authorName` (from its name), or just deleted. An
      author url that is not a string throws, leaving the earlier steps' writes. */
  function AuthorFlattened(d: Dict): (r: Parsed)
    ensures !Truthy(Get(d, "author")) ==> r == Parsed(d, Pass)
    ensures Truthy(Get(d, "author")) ==>
      var author := Get(d, "author");
      var url := Prop(author, "url");
      && (Truthy(url) && !url.Str? ==> r.fields == d && r.outcome.Throw?)
      && (Truthy(url) && url.Str? ==>
            && r.outcome == Pass && "author" !in r.fields
            && "authorId" in r.fields && r.fields["authorId"] == GetIDFromURL(url).value
            && SameExcept(r.fields, d, {"author", "authorId"}))
      && (!Truthy(url) && Truthy(Prop(author, "name")) ==>
            && r.outcome == Pass && "author" !in r.fields
            && "authorName" in r.fields && r.fields["authorName"] == Prop(author, "name")
            && SameExcept(r.fields, d, {"author", "authorName"}))
      && (!Truthy(url) && !Truthy(Prop(author, "name")) ==> r == Parsed(d - {"author"}, Pass))
  {
    var author := Get(d, "author");
    if !Truthy(author) then Parsed(d, Pass)
    else
      var url := Prop(author, "url");
      if Truthy(url) then
        if !url.Str? then Parsed(d, Throw(GetIDFromURL(url).error))
        else
          var authorId := GetIDFromURL(url).value;
          AuthorStepWrites(d, "authorId", authorId);
          Parsed(d["authorId" := authorId] - {"author"}, Pass)
      else if Truthy(Prop(author, "name")) then
        AuthorStepWrites(d, "authorName", Prop(author, "name"));
        Parsed(d["authorName" := Prop(author, "name")] - {"author"}, Pass)
      else Parsed(d - {"author"}, Pass)
  }

  /** What the author step writes: one key, with `author` deleted. */
  lemma AuthorStepWrites(d: Dict, key: string, v: Value)
    requires key != "author"
    ensures var r := d[key := v] - {"author"};
      && "author" !in r && key in r && r[key] == v
      && SameExcept(r, d, {"author", key})
  {
    SameExceptAfterSet(d, key, v, {"author", key});
    SameExceptAfterDelete(d[key := v], "author", {"author", key});
  }

  /** The record `Talk.parse` makes of `d`: the url, event and author steps in turn. */
  function TalkParsed(d: Dict): (r: Parsed)
    ensures var url, author := Get(d, "url"), Get(d, "author");
      r.outcome.Throw? <==>
        (Truthy(url) && !url.Str?) || (Truthy(author) && Truthy(Prop(author, "url")) && !Prop(author, "url").Str?)
    ensures Truthy(Get(d, "url")) && !Get(d, "url").Str? ==> r.fields == d
    ensures r.outcome == Pass && Truthy(Get(d, "url")) ==> "url" !in r.fields && Get(r.fields, "slug").Str?
    ensures r.outcome == Pass && Truthy(Get(d, "author")) ==> "author" !in r.fields
    ensures Truthy(Get(d, "event")) && Truthy(Prop(Get(d, "event"), "id")) && !(Truthy(Get(d, "url")) && !Get(d, "url").Str?) ==>
      "event" !in r.fields && Get(r.fields, "eventId") == Prop(Get(d, "event"), "id")
  {
    match UrlInfoParsed(d)
    case Err(e) => Parsed(d, Throw(e))
    case Ok(d1) =>
      var d2 := TalkEventFlattened(d1);
      TalkStepsKeep(d, d1, d2);
      AuthorStepKeeps(d2, "url");
      AuthorStepKeeps(d2, "slug");
      AuthorStepKeeps(d2, "event");
      AuthorStepKeeps(d2, "eventId");
      AuthorFlattened(d2)
  }

  /** What the url and event steps of `Talk.parse` leave for the author step. */
  lemma TalkStepsKeep(d: Dict, d1: Dict, d2: Dict)
    requires UrlInfoParsed(d) == Ok(d1) && d2 == TalkEventFlattened(d1)
    ensures Get(d2, "author") == Get(d, "author")
    ensures Truthy(Get(d, "url")) ==> "url" !in d2 && Get(d2, "slug").Str?
    ensures Truthy(Get(d, "event")) && Truthy(Prop(Get(d, "event"), "id")) ==>
      "event" !in d2 && Get(d2, "eventId") == Prop(Get(d, "event"), "id")
  {
    var urlKeys := {"id", "slug", "url"};
    var eventKeys := {"event", "eventId", "city"};
    SameExceptKeeps(d1, d, urlKeys, "author");
    SameExceptKeeps(d1, d, urlKeys, "event");
    if Truthy(Get(d1, "event")) && Truthy(Prop(Get(d1, "event"), "id")) {
      SameExceptKeeps(d2, d1, eventKeys, "author");
      SameExceptKeeps(d2, d1, eventKeys, "url");
      SameExceptKeeps(d2, d1, eventKeys, "slug");
    }
  }

  /** The values `Talk.parse` writes: `id` and `slug` from the last segment of the
      url, `eventId` and `city` from the event, and `authorId` from the author's url
      or else `authorName` from the author's name. */
  lemma TalkParseWrites(d: Dict)
    ensures var r, url := TalkParsed(d), Get(d, "url");
      r.outcome == Pass && url.Str? && Truthy(url) ==>
        && Get(r.fields, "id") == NumberValue(IdText(LastSegment(url.s)))
        && Get(r.fields, "slug") == Str(SlugText(LastSegment(url.s)))
    ensures var r, url, event := TalkParsed(d), Get(d, "url"), Get(d, "event");
      Truthy(event) && Truthy(Prop(event, "id")) && !(Truthy(url) && !url.Str?) ==>
        Get(r.fields, "eventId") == Prop(event, "id") && Get(r.fields, "city") == Prop(event, "city")
    ensures var r, author := TalkParsed(d), Get(d, "author");
      r.outcome == Pass && Truthy(author) && Truthy(Prop(author, "url")) && Prop(author, "url").Str? ==>
        Get(r.fields, "authorId") == GetIDFromURL(Prop(author, "url")).value
    ensures var r, author := TalkParsed(d), Get(d, "author");
      r.outcome == Pass && Truthy(author) && !Truthy(Prop(author, "url")) && Truthy(Prop(author, "name")) ==>
        Get(r.fields, "authorName") == Prop(author, "name")
  {
    match UrlInfoParsed(d)
    case Err(_) =>
    case Ok(d1) =>
      var d2 := TalkEventFlattened(d1);
      TalkStepsKeep(d, d1, d2);
      TalkEventStepKeeps(d, d1, d2);
      AuthorStepKeeps(d2, "id");
      AuthorStepKeeps(d2, "slug");
      AuthorStepKeeps(d2, "eventId");
      AuthorStepKeeps(d2, "city");
  }

  /** The event step of `Talk.parse` keeps the url step's `id` and `slug` and writes
      the event's `id` and `city`. */
  lemma TalkEventStepKeeps(d: Dict, d1: Dict, d2: Dict)
    requires UrlInfoParsed(d) == Ok(d1) && d2 == TalkEventFlattened(d1)
    ensures Get(d2, "id") == Get(d1, "id") && Get(d2, "slug") == Get(d1, "slug")
    ensures Truthy(Get(d, "event")) && Truthy(Prop(Get(d, "event"), "id")) ==>
      Get(d2, "eventId") == Prop(Get(d, "event"), "id") && Get(d2, "city") == Prop(Get(d, "event"), "city")
  {
    SameExceptKeeps(d1, d, {"id", "slug", "url"}, "event");
    if Truthy(Get(d1, "event")) && Truthy(Prop(Get(d1, "event"), "id")) {
      SameExceptKeeps(d2, d1, {"event", "eventId", "city"}, "id");
      SameExceptKeeps(d2, d1, {"event", "eventId", "city"}, "slug");
    }
  }

  /** The author step of `Talk.parse` keeps every key but the three it writes. */
  lemma AuthorStepKeeps(d: Dict, k: string)
    requires k != "author" && k != "authorId" && k != "authorName"
    ensures Get(AuthorFlattened(d).fields, k) == Get(d, k) && (k in AuthorFlattened(d).fields <==> k in d)
  {
    var author := Get(d, "author");
    if Truthy(author) && AuthorFlattened(d).outcome == Pass {
      if Truthy(Prop(author, "url")) {
        SameExceptKeeps(AuthorFlattened(d).fields, d, {"author", "authorId"}, k);
      } else if Truthy(Prop(author, "name")) {
        SameExceptKeeps(AuthorFlattened(d).fields, d, {"author", "authorName"}, k);
      }
    }
  }

  /** A record whose url ends in '/<id>-<slug>' (the form of talk and user urls)
      gets that id and that slug from the url step, whatever comes before. */
  lemma UrlStepRoundTrip(d: Dict, prefix: string, id: nat, slug: string)
    requires prefix != [] && prefix[|prefix| - 1] == '/'
    requires '/' !in slug
    requires Get(d, "url") == Str(prefix + NatToString(id) + "-" + slug)
    ensures UrlInfoParsed(d).Ok?
    ensures Get(UrlInfoParsed(d).value, "id") == Num(id)
    ensures Get(UrlInfoParsed(d).value, "slug") == Str(slug)
  {
    var url := prefix + NatToString(id) + "-" + slug;
    TemplateRoundTrip(prefix, id, slug);
    var seg := LastSegment(url);
    assert NumberValue(IdText(seg)) == Num(id);
    assert Str(SlugText(seg)) == Str(slug);
    assert Get(d, "url").Str? && Truthy(Get(d, "url")) && Get(d, "url").s == url;
    var r := UrlInfoParsed(d);
    assert r.Ok? && r.value["id"] == NumberValue(IdText(seg)) && r.value["slug"] == Str(SlugText(seg));
  }

  class Talk {
    var attributes: Dict

    constructor (attributes: Dict)
      ensures this.attributes == attributes
    {
      this.attributes := attributes;
    }

    /** Talk.parse: rewrites `data` in place. */
    static method Parse(data: Record) returns (outcome: Outcome)
      modifies data
      ensures Parsed(data.fields, outcome) == TalkParsed(old(data.fields))
    {
      var url := Get(data.fields, "url");
      if Truthy(url) {
        var id := GetIDFromURL(url);
        if id.Err? {
          return Throw(id.error);
        }
        data.fields := data.fields["id" := id.value];
        data.fields := data.fields["slug" := GetSlugFromURL(url).value];
        data.fields := data.fields - {"url"};
      }
      var event := Get(data.fields, "event");
      if Truthy(event) && Truthy(Prop(event, "id")) {
        data.fields := data.fields["eventId" := Prop(event, "id")];
        data.fields := data.fields["city" := Prop(event, "city")];
        data.fields := data.fields - {"event"};
      }
      var author := Get(data.fields, "author");
      if Truthy(author) {
        var authorUrl := Prop(author, "url");
        if Truthy(authorUrl) {
          var authorId := GetIDFromURL(authorUrl);
          if authorId.Err? {
            return Throw(authorId.error);
          }
          data.fields := data.fields["authorId" := authorId.value];
        } else if Truthy(Prop(author, "name")) {
          data.fields := data.fields["authorName" := Prop(author, "name")];
        }
        data.fields := data.fields - {"author"};
      }
      outcome := Pass;
    }
  }

  /** The attribute dictionaries of a collection of talks, in collection order. */
  function TalkRecords(talks: seq<Talk>): (rs: seq<Dict>)
    reads talks
    ensures |rs| == |talks| && forall k :: 0 <= k < |talks| ==> rs[k] == talks[k].attributes
  {
    if talks == [] then [] else [talks[0].attributes] + TalkRecords(talks[1..])
  }

  /** The event step of `User.parse` as evidently intended: an `event` with a truthy
      `id` is flattened into `eventId` and deleted. */
  function UserEventFlattened(d: Dict): (r: Dict)
    ensures !(Truthy(Get(d, "event")) && Truthy(Prop(Get(d, "event"), "id"))) ==> r == d
    ensures Truthy(Get(d, "event")) && Truthy(Prop(Get(d, "event"), "id")) ==>
      && "event" !in r
      && "eventId" in r && r["eventId"] == Prop(Get(d, "event"), "id")
      && SameExcept(r, d, {"event", "eventId"})
  {
    var event := Get(d, "event");
    if Truthy(event) && Truthy(Prop(event, "id")) then
      var d1 := d["eventId" := Prop(event, "id")];
      SameExceptAfterSet(d, "eventId", Prop(event, "id"), {"event", "eventId"});
      SameExceptAfterDelete(d1, "event", {"event", "eventId"});
      d1 - {"event"}
    else d
  }

  /** The fallback of `User.parse` for a record without a url: a truthy `name`
      becomes the `id` when there is neither an `id` nor a `slug`. */
  function NameAsId(d: Dict): (r: Dict)
    ensures Truthy(Get(d, "name")) && !Truthy(Get(d, "id")) && !Truthy(Get(d, "slug")) ==>
      "id" in r && r["id"] == d["name"] && SameExcept(r, d, {"id"})
    ensures !(Truthy(Get(d, "name")) && !Truthy(Get(d, "id")) && !Truthy(Get(d, "slug"))) ==> r == d
  {
    if Truthy(Get(d, "name")) && !Truthy(Get(d, "id")) && !Truthy(Get(d, "slug")) then
      SameExceptAfterSet(d, "id", Get(d, "name"), {"id"});
      d["id" := Get(d, "name")]
    else d
  }

  /** The record the corrected `User.parse` makes of `d`: the event step, then either
      the url step or the name fallback. */
  function UserParsed(d: Dict): (r: Parsed)
    ensures r.outcome.Throw? <==> Truthy(Get(d, "url")) && !Get(d, "url").Str?
    ensures r.outcome == Pass && Truthy(Get(d, "url")) ==> "url" !in r.fields && Get(r.fields, "slug").Str?
    ensures !Truthy(Get(d, "url")) && Truthy(Get(d, "name")) && !Truthy(Get(d, "id")) && !Truthy(Get(d, "slug")) ==>
      Get(r.fields, "id") == Get(d, "name")
    ensures Truthy(Get(d, "event")) && Truthy(Prop(Get(d, "event"), "id")) ==>
      "event" !in r.fields && Get(r.fields, "eventId") == Prop(Get(d, "event"), "id")
  {
    var d1 := UserEventFlattened(d);
    UserEventStepKeeps(d, d1);
    UserUrlOrNameParsed(d1)
  }

  /** The steps of `User.parse` after the event step: the url step when the url is
      truthy, the name fallback otherwise; neither touches `event` or `eventId`. */
  function UserUrlOrNameParsed(d1: Dict): (r: Parsed)
    ensures r.outcome.Throw? <==> Truthy(Get(d1, "url")) && !Get(d1, "url").Str?
    ensures r.outcome == Pass && Truthy(Get(d1, "url")) ==> "url" !in r.fields && Get(r.fields, "slug").Str?
    ensures !Truthy(Get(d1, "url")) && Truthy(Get(d1, "name")) && !Truthy(Get(d1, "id")) && !Truthy(Get(d1, "slug")) ==>
      Get(r.fields, "id") == Get(d1, "name")
    ensures Get(r.fields, "event") == Get(d1, "event") && ("event" in r.fields <==> "event" in d1)
    ensures Get(r.fields, "eventId") == Get(d1, "eventId")
  {
    var url := Get(d1, "url");
    if !Truthy(url) then StepKeepsEvent(d1, NameAsId(d1), {"id"}); Parsed(NameAsId(d1), Pass)
    else if !url.Str? then Parsed(d1, Throw(UrlInfoParsed(d1).error))
    else
      UrlStepKeepsEvent(d1, UrlInfoParsed(d1).value);
      Parsed(UrlInfoParsed(d1).value, Pass)
  }

  /** The values the corrected `User.parse` writes for a string url: `id` and `slug`
      from the url's last segment. */
  lemma UserParseWrites(d: Dict)
    ensures var r, url := UserParsed(d), Get(d, "url");
      url.Str? && Truthy(url) ==>
        && r.outcome == Pass
        && Get(r.fields, "id") == NumberValue(IdText(LastSegment(url.s)))
        && Get(r.fields, "slug") == Str(SlugText(LastSegment(url.s)))
  {
    var d1 := UserEventFlattened(d);
    UserEventStepKeeps(d, d1);
    assert UserParsed(d) == UserUrlOrNameParsed(d1);
  }

  /** The corrected event step of `User.parse` leaves the keys the later steps read. */
  lemma UserEventStepKeeps(d: Dict, d1: Dict)
    requires d1 == UserEventFlattened(d)
    ensures Get(d1, "url") == Get(d, "url") && Get(d1, "name") == Get(d, "name")
    ensures Get(d1, "id") == Get(d, "id") && Get(d1, "slug") == Get(d, "slug")
  {
    if Truthy(Get(d, "event")) && Truthy(Prop(Get(d, "event"), "id")) {
      var keys := {"event", "eventId"};
      SameExceptKeeps(d1, d, keys, "url");
      SameExceptKeeps(d1, d, keys, "name");
      SameExceptKeeps(d1, d, keys, "id");
      SameExceptKeeps(d1, d, keys, "slug");
    }
  }

  /** The url step writes neither `event` nor `eventId`. */
  lemma UrlStepKeepsEvent(d1: Dict, d2: Dict)
    requires UrlInfoParsed(d1) == Ok(d2)
    ensures Get(d2, "event") == Get(d1, "event") && ("event" in d2 <==> "event" in d1)
    ensures Get(d2, "eventId") == Get(d1, "eventId")
  {
    SameExceptKeeps(d2, d1, {"id", "slug", "url"}, "event");
    SameExceptKeeps(d2, d1, {"id", "slug", "url"}, "eventId");
  }

  /** A step that writes neither `event` nor `eventId` leaves the event step's writes
      alone. */
  lemma StepKeepsEvent(d1: Dict, d2: Dict, keys: set<string>)
    requires SameExcept(d2, d1, keys) && "event" !in keys && "eventId" !in keys
    ensures Get(d2, "event") == Get(d1, "event") && ("event" in d2 <==> "event" in d1)
    ensures Get(d2, "eventId") == Get(d1, "eventId")
  {
    SameExceptKeeps(d2, d1, keys, "event");
    SameExceptKeeps(d2, d1, keys, "eventId");
  }

  /** The record `User.parse` makes of `d` as written: its event branch reads the
      undeclared variable `event` instead of `data.event`, which throws. */
  function UserParsedAsWritten(d: Dict): (r: Parsed)
    ensures Truthy(Get(d, "event")) && Truthy(Prop(Get(d, "event"), "id")) ==>
      r == Parsed(d, Throw(ReferenceError("event")))
    ensures !(Truthy(Get(d, "event")) && Truthy(Prop(Get(d, "event"), "id"))) ==> r == UserParsed(d)
  {
    var event := Get(d, "event");
    if Truthy(event) && Truthy(Prop(event, "id")) then Parsed(d, Throw(ReferenceError("event")))
    else UserParsed(d)
  }

  /** A user record whose url follows the collection's template
      'http://news.humancoders.com/users/<%= id %>-<%= slug %>' parses to that id and
      that slug. */
  lemma UserUrlRoundTrip(d: Dict, id: nat, slug: string)
    requires '/' !in slug
    requires Get(d, "url") == Str(UsersUrlPrefix + NatToString(id) + "-" + slug)
    ensures UserParsed(d).outcome == Pass
    ensures Get(UserParsed(d).fields, "id") == Num(id)
    ensures Get(UserParsed(d).fields, "slug") == Str(slug)
  {
    var d1 := UserEventFlattened(d);
    assert Get(d1, "url") == Get(d, "url");
    UrlStepRoundTrip(d1, UsersUrlPrefix, id, slug);
  }

  /** A user record carrying its event: as written, parsing throws; corrected, the
      event's id lands in `eventId`. */
  lemma UserEventCounterexample()
    ensures UserParsedAsWritten(map["event" := Obj(map["id" := Num(7)])]).outcome == Throw(ReferenceError("event"))
    ensures UserParsed(map["event" := Obj(map["id" := Num(7)])]) == Parsed(map["eventId" := Num(7)], Pass)
  {
    var d := map["event" := Obj(map["id" := Num(7)])];
    assert UserEventFlattened(d) == map["eventId" := Num(7)];
  }

  /** Which records a user's id lists collect: the events whose attendees include the
      user (underscore's `_.contains`, so `===`), or the talks whose author id is
      `==` the user's id; a falsy user id selects nothing. */
  datatype Criterion = AttendeeOf(userId: Value) | AuthoredBy(userId: Value)

  predicate Selects(c: Criterion, record: Dict): (r: bool)
    ensures r ==> Truthy(c.userId)
  {
    match c
    case AttendeeOf(id) => Truthy(id) && Contains(Get(record, "attendeeIds"), id)
    case AuthoredBy(id) => Truthy(id) && LooseEquals(Get(record, "authorId"), id)
  }

  /** Which records a truthy user id selects: the events whose attendee id array
      holds it, and the talks whose author id is that number or a text denoting it;
      a talk without an author id selects nobody. */
  lemma SelectsMeaning(c: Criterion, record: Dict)
    ensures c.AttendeeOf? && Get(record, "attendeeIds").Arr? ==>
      (Selects(c, record) <==> Truthy(c.userId) && c.userId in Get(record, "attendeeIds").items)
    ensures c.AuthoredBy? && !Truthy(Get(record, "authorId")) && !Get(record, "authorId").Num? && !Get(record, "authorId").Bool? ==>
      !Selects(c, record)
    ensures c.AuthoredBy? && c.userId.Num? && Get(record, "authorId").Num? ==>
      (Selects(c, record) <==> c.userId.n != 0 && Get(record, "authorId").n == c.userId.n)
    ensures c.AuthoredBy? && c.userId.Num? && Get(record, "authorId").Str? ==>
      (Selects(c, record) <==> c.userId.n != 0 && ToNumber(Get(record, "authorId").s) == Some(c.userId.n))
  {
  }

  /** The ids of the selected records, in collection order (what the scan appends). */
  function CollectIds(c: Criterion, records: seq<Dict>): (ids: seq<Value>)
    ensures |ids| <= |records|
  {
    if records == [] then []
    else
      var last := records[|records| - 1];
      CollectIds(c, records[..|records| - 1]) + (if Selects(c, last) then [Get(last, "id")] else [])
  }

  /** The positions of the selected records, in increasing order. */
  function SelectedPositions(c: Criterion, records: seq<Dict>): (ps: seq<nat>)
    ensures forall a, b :: 0 <= a < b < |ps| ==> ps[a] < ps[b]
    ensures forall k :: 0 <= k < |ps| ==> ps[k] < |records| && Selects(c, records[ps[k]])
    ensures forall i :: 0 <= i < |records| && Selects(c, records[i]) ==> i in ps
  {
    if records == [] then []
    else
      var n := |records| - 1;
      var rest := SelectedPositions(c, records[..n]);
      PositionsExtend(c, records, rest);
      rest + (if Selects(c, records[n]) then [n] else [])
  }

  /** The positions selected in all but the last record, followed by the last one's
      position when it is selected, are the positions selected in all the records. */
  lemma PositionsExtend(c: Criterion, records: seq<Dict>, rest: seq<nat>)
    requires records != []
    requires forall a, b :: 0 <= a < b < |rest| ==> rest[a] < rest[b]
    requires forall k :: 0 <= k < |rest| ==> rest[k] < |records| - 1 && Selects(c, records[..|records| - 1][rest[k]])
    requires forall i :: 0 <= i < |records| - 1 && Selects(c, records[..|records| - 1][i]) ==> i in rest
    ensures var n := |records| - 1;
      var ps := rest + (if Selects(c, records[n]) then [n] else []);
      && (forall a, b :: 0 <= a < b < |ps| ==> ps[a] < ps[b])
      && (forall k :: 0 <= k < |ps| ==> ps[k] < |records| && Selects(c, records[ps[k]]))
      && (forall i :: 0 <= i < |records| && Selects(c, records[i]) ==> i in ps)
  {
    var n := |records| - 1;
    forall k | 0 <= k < |rest| ensures Selects(c, records[rest[k]]) {
      assert records[..n][rest[k]] == records[rest[k]];
    }
    forall i | 0 <= i < n && Selects(c, records[i]) ensures i in rest {
      assert records[..n][i] == records[i];
    }
  }

  /** The collected ids are exactly the ids of the selected records, one per
      selected record and in collection order. */
  lemma {:induction false} CollectIdsInOrder(c: Criterion, records: seq<Dict>)
    ensures |CollectIds(c, records)| == |SelectedPositions(c, records)|
    ensures forall k :: 0 <= k < |CollectIds(c, records)| ==>
      CollectIds(c, records)[k] == Get(records[SelectedPositions(c, records)[k]], "id")
  {
    if records != [] {
      var n := |records| - 1;
      CollectIdsInOrder(c, records[..n]);
      var ids, ps := CollectIds(c, records), SelectedPositions(c, records);
      var restIds, rest := CollectIds(c, records[..n]), SelectedPositions(c, records[..n]);
      assert ps == rest + (if Selects(c, records[n]) then [n] else []);
      assert ids == restIds + (if Selects(c, records[n]) then [Get(records[n], "id")] else []);
      forall k | 0 <= k < |ids|
        ensures ids[k] == Get(records[ps[k]], "id")
      {
        if k < |restIds| {
          assert ids[k] == restIds[k] == Get(records[..n][rest[k]], "id");
          assert records[..n][rest[k]] == records[rest[k]];
        }
      }
    }
  }

  /** An id is collected exactly when some selected record carries it. */
  lemma CollectIdsMembership(c: Criterion, records: seq<Dict>, x: Value)
    ensures x in CollectIds(c, records) <==> exists i :: 0 <= i < |records| && Selects(c, records[i]) && Get(records[i], "id") == x
  {
    CollectIdsInOrder(c, records);
    var ids := CollectIds(c, records);
    var ps := SelectedPositions(c, records);
    if x in ids {
      var k :| 0 <= k < |ids| && ids[k] == x;
      assert Selects(c, records[ps[k]]) && Get(records[ps[k]], "id") == x;
    }
    if i :| 0 <= i < |records| && Selects(c, records[i]) && Get(records[i], "id") == x {
      var k :| 0 <= k < |ps| && ps[k] == i;
      assert ids[k] == x;
    }
  }

  /** A user with a falsy id collects nothing. */
  lemma {:induction false} CollectIdsFalsyUser(c: Criterion, records: seq<Dict>)
    requires !Truthy(c.userId)
    ensures CollectIds(c, records) == []
  {
    if records != [] {
      CollectIdsFalsyUser(c, records[..|records| - 1]);
    }
  }

  /** One more record scanned: its id is appended when it is selected. */
  lemma CollectIdsStep(c: Criterion, records: seq<Dict>, i: int, selected: bool)
    requires 0 <= i < |records|
    requires selected == Selects(c, records[i])
    ensures CollectIds(c, records[..i + 1]) == CollectIds(c, records[..i]) + (if selected then [Get(records[i], "id")] else [])
  {
    assert records[..i + 1][..i] == records[..i];
  }

  class User {
    var attributes: Dict

    constructor (attributes: Dict)
      ensures this.attributes == attributes
    {
      this.attributes := attributes;
    }

    /** User.parse, with its event branch reading `data.event.id`. */
    static method Parse(data: Record) returns (outcome: Outcome)
      modifies data
      ensures Parsed(data.fields, outcome) == UserParsed(old(data.fields))
    {
      var event := Get(data.fields, "event");
      if Truthy(event) && Truthy(Prop(event, "id")) {
        data.fields := data.fields["eventId" := Prop(event, "id")];
        data.fields := data.fields - {"event"};
      }
      var url := Get(data.fields, "url");
      if Truthy(url) {
        var id := GetIDFromURL(url);
        if id.Err? {
          return Throw(id.error);
        }
        data.fields := data.fields["id" := id.value];
        data.fields := data.fields["slug" := GetSlugFromURL(url).value];
        data.fields := data.fields - {"url"};
      } else if Truthy(Get(data.fields, "name")) && !Truthy(Get(data.fields, "id")) && !Truthy(Get(data.fields, "slug")) {
        data.fields := data.fields["id" := Get(data.fields, "name")];
      }
      outcome := Pass;
    }

    /** User.parse as written: the event branch reads the undeclared `event`. */
    static method ParseAsWritten(data: Record) returns (outcome: Outcome)
      modifies data
      ensures Parsed(data.fields, outcome) == UserParsedAsWritten(old(data.fields))
    {
      var event := Get(data.fields, "event");
      if Truthy(event) && Truthy(Prop(event, "id")) {
        return Throw(ReferenceError("event"));
      }
      outcome := Parse(data);
    }

    /** Backbone's `this.set(key, value)` on a user: one attribute is (re)written. */
    method Set(key: string, value: Value)
      modifies this
      ensures attributes == old(attributes)[key := value]
    {
      attributes := attributes[key := value];
    }

    /** The callback `setAttendance` runs for each event: when the user's id is truthy
        and among the event's `attendeeIds`, the event's id is appended to a copy of
        `attendedEventIds`, which is set back. */
    method AddEventIfAttended(id: Value, event: Event, ghost base: Dict, ghost prev: seq<Value>)
      requires attributes == base["attendedEventIds" := Arr(prev)]
      modifies this
      ensures attributes == base["attendedEventIds" :=
        Arr(prev + if Selects(AttendeeOf(id), event.attributes) then [Get(event.attributes, "id")] else [])]
    {
      if Truthy(id) && Contains(Get(event.attributes, "attendeeIds"), id) {
        var attendedEventIds := Get(attributes, "attendedEventIds").items;
        attendedEventIds := attendedEventIds + [Get(event.attributes, "id")];
        Set("attendedEventIds", Arr(attendedEventIds));
        Overwritten(base, "attendedEventIds", Arr(prev), Arr(attendedEventIds));
      } else {
        assert prev + [] == prev;
      }
    }

    /** User.setAttendance(events): `attendedEventIds` becomes the ids of the events
        the user attended, in collection order; nothing else changes. */
    method SetAttendance(events: seq<Event>)
      modifies this
      ensures attributes == WithIdList(old(attributes), "attendedEventIds", AttendeeOf(Get(old(attributes), "id")), EventRecords(events))
    {
      ghost var records := EventRecords(events);
      Set("attendedEventIds", Arr([]));
      var id := Get(attributes, "id");
      var i := 0;
      while i < |events|
        invariant 0 <= i <= |events|
        invariant |records| == |events| && forall k :: 0 <= k < |events| ==> events[k].attributes == records[k]
        invariant id == Get(old(attributes), "id")
        invariant attributes == old(attributes)["attendedEventIds" := Arr(CollectIds(AttendeeOf(id), records[..i]))]
      {
        CollectIdsStep(AttendeeOf(id), records, i, Selects(AttendeeOf(id), records[i]));
        AddEventIfAttended(id, events[i], old(attributes), CollectIds(AttendeeOf(id), records[..i]));
        i := i + 1;
      }
      assert records[..i] == records;
    }

    /** The callback `setTalks` runs for each talk: when the user's id is truthy and
        `==` the talk's `authorId`, the talk's id is appended to `talkIds`, which is set
        back. */
    method AddTalkIfAuthored(id: Value, talk: Talk, ghost base: Dict, ghost prev: seq<Value>)
      requires attributes == base["talkIds" := Arr(prev)]
      modifies this
      ensures attributes == base["talkIds" :=
        Arr(prev + if Selects(AuthoredBy(id), talk.attributes) then [Get(talk.attributes, "id")] else [])]
    {
      if Truthy(id) && LooseEquals(Get(talk.attributes, "authorId"), id) {
        var talkIds := Get(attributes, "talkIds").items;
        talkIds := talkIds + [Get(talk.attributes, "id")];
        Set("talkIds", Arr(talkIds));
        Overwritten(base, "talkIds", Arr(prev), Arr(talkIds));
      } else {
        assert prev + [] == prev;
      }
    }

    /** User.setTalks(talks): `talkIds` becomes the ids of the talks whose author id
        is `==` the user's id, in collection order; nothing else changes. */
    method SetTalks(talks: seq<Talk>)
      modifies this
      ensures attributes == WithIdList(old(attributes), "talkIds", AuthoredBy(Get(old(attributes), "id")), TalkRecords(talks))
    {
      ghost var records := TalkRecords(talks);
      Set("talkIds", Arr([]));
      var id := Get(attributes, "id");
      var i := 0;
      while i < |talks|
        invariant 0 <= i <= |talks|
        invariant |records| == |talks| && forall k :: 0 <= k < |talks| ==> talks[k].attributes == records[k]
        invariant id == Get(old(attributes), "id")
        invariant attributes == old(attributes)["talkIds" := Arr(CollectIds(AuthoredBy(id), records[..i]))]
      {
        CollectIdsStep(AuthoredBy(id), records, i, Selects(AuthoredBy(id), records[i]));
        AddTalkIfAuthored(id, talks[i], old(attributes), CollectIds(AuthoredBy(id), records[..i]));
        i := i + 1;
      }
      assert records[..i] == records;
    }
  }

  /** Writing a key twice leaves the second value. */
  lemma Overwritten(m: Dict, k: string, a: Value, b: Value)
    ensures m[k := a][k := b] == m[k := b]
  {
  }

  /** A user's attributes once the list under `key` is rebuilt from `records`. */
  function WithIdList(attributes: Dict, key: string, c: Criterion, records: seq<Dict>): Dict {
    attributes[key := Arr(CollectIds(c, records))]
  }

  /** Rebuilding a user's list twice gives the same attributes as rebuilding it once:
      the list is not the user's id, so the second scan selects the same records. */
  lemma RebuildIdempotent(attributes: Dict, key: string, c: Criterion, records: seq<Dict>)
    requires key != "id"
    requires c == AttendeeOf(Get(attributes, "id")) || c == AuthoredBy(Get(attributes, "id"))
    ensures var once := WithIdList(attributes, key, c, records);
      && Get(once, "id") == Get(attributes, "id")
      && WithIdList(once, key, c, records) == once
  {
    var once := WithIdList(attributes, key, c, records);
    assert once[key := Arr(CollectIds(c, records))] == once;
  }

  class Users {
    var models: seq<User>

    constructor (models: seq<User>)
      ensures this.models == models
    {
      this.models := models;
    }

    /** Users.setAttendance(events): every user's `attendedEventIds` is rebuilt. */
    method SetAttendance(events: seq<Event>)
      modifies models
      ensures forall u :: u in models ==>
        u.attributes == WithIdList(old(u.attributes), "attendedEventIds", AttendeeOf(Get(old(u.attributes), "id")), EventRecords(events))
    {
      ghost var records := EventRecords(events);
      var i := 0;
      while i < |models|
        invariant 0 <= i <= |models|
        invariant |records| == |events| && forall k :: 0 <= k < |events| ==> events[k].attributes == records[k]
        invariant forall u :: u in models[..i] ==>
          u.attributes == WithIdList(old(u.attributes), "attendedEventIds", AttendeeOf(Get(old(u.attributes), "id")), records)
        invariant forall u :: u in models && u !in models[..i] ==> u.attributes == old(u.attributes)
      {
        var user := models[i];
        ghost var before := user.attributes;
        user.SetAttendance(events);
        assert EventRecords(events) == records;
        if user in models[..i] {
          RebuildIdempotent(old(user.attributes), "attendedEventIds", AttendeeOf(Get(old(user.attributes), "id")), records);
        }
        forall u | u in models[..i + 1]
          ensures u.attributes == WithIdList(old(u.attributes), "attendedEventIds", AttendeeOf(Get(old(u.attributes), "id")), records)
        {
          if u != user {
            assert u in models[..i];
          }
        }
        i := i + 1;
      }
      assert models[..i] == models;
    }

    /** Users.setTalks(talks): every user's `talkIds` is rebuilt. */
    method SetTalks(talks: seq<Talk>)
      modifies models
      ensures forall u :: u in models ==>
        u.attributes == WithIdList(old(u.attributes), "talkIds", AuthoredBy(Get(old(u.attributes), "id")), TalkRecords(talks))
    {
      ghost var records := TalkRecords(talks);
      var i := 0;
      while i < |models|
        invariant 0 <= i <= |models|
        invariant |records| == |talks| && forall k :: 0 <= k < |talks| ==> talks[k].attributes == records[k]
        invariant forall u :: u in models[..i] ==>
          u.attributes == WithIdList(old(u.attributes), "talkIds", AuthoredBy(Get(old(u.attributes), "id")), records)
        invariant forall u :: u in models && u !in models[..i] ==> u.attributes == old(u.attributes)
      {
        var user := models[i];
        ghost var before := user.attributes;
        user.SetTalks(talks);
        assert TalkRecords(talks) == records;
        if user in models[..i] {
          RebuildIdempotent(old(user.attributes), "talkIds", AuthoredBy(Get(old(user.attributes), "id")), records);
        }
        forall u | u in models[..i + 1]
          ensures u.attributes == WithIdList(old(u.attributes), "talkIds", AuthoredBy(Get(old(u.attributes), "id")), records)
        {
          if u != user {
            assert u in models[..i];
          }
        }
        i := i + 1;
      }
      assert models[..i] == models;
    }
  }
}
