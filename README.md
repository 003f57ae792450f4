# osef: the model layer and the attendance chart's data shaping

This project models two parts of the osef web application (HumanTalks attendance
statistics) in Dafny and proves properties of them.

- **The client-side models** (`shared/models.js`). These are the `parse` functions of
  the Backbone models City, Event, Talk and User. Each rewrites a raw REST record in
  place into a canonical record. Also modelled:
  - the url helpers `modelsUtils.getInfoFromURL`, `getIDFromURL` and `getSlugFromURL`;
  - the comparator shared by every collection;
  - the city selection of `Cities` (`activate`, `desactivate`);
  - the user cross-references that `User.setAttendance` / `setTalks` rebuild, and their
    collection-wide versions on `Users`.
- **The data part of the attendance chart's `render`** (`scripts/views/data.events.js`):
  - the early return without data;
  - one point per filtered event, drawn at the first day of its month;
  - underscore's stable `sortBy` on the date, then `groupBy` on the city into one series
    per city;
  - the top of the y domain, the largest attendance plus 10;
  - the capitalised city name of the tooltip;
  - the rule that a date shows its year only when it is not the current year.

Modules:

- `JsValue` holds the JavaScript values the models see and the rules they rely on:
  - a `Value` datatype and `Dict` dictionaries;
  - truthiness and property reads;
  - `===`, `==` and underscore's `_.contains`;
  - thrown errors, as `Outcome` and `Result`.
- `JsString` holds the string built-ins used: `indexOf`, `lastIndexOf`, `substr`,
  `replace` with a string pattern, and `Number()` (the `*1` conversions).
- `ModelsUtils` models `modelsUtils`.
- `Models` holds the Backbone models and collections:
  - A `parse` function receives the dictionary `data`, changes it and returns it. It
    becomes a static method on a `Record` object (`modifies data`). The method is proved
    equal to a specification function (`CityParsed`, `EventParsed`, `TalkParsed`,
    `UserParsed`), and the properties are proved about those functions.
  - A thrown exception is an `Outcome`. Writes made before the throw stay in the record,
    as in JavaScript.
  - `setAttendance` / `setTalks` are loops over a class's `attributes` field. They are
    proved against `CollectIds`, whose meaning is proved separately.
- `DataEvents` models the chart's data shaping as pure functions over already-parsed
  dates.

Facts about the code that the model follows:

- Event, City, Talk and User urls that are truthy but not strings throw (`TypeError`).
  So does an event url that `/\/cities\/(.*)\/events/` does not match, because
  `city[1]` is then read from `null` (shared/models.js:67-68).
- The name-as-id fallback exists only in `User.parse`, and only when the record has
  neither `id` nor `slug` (shared/models.js:129-131). `Talk.parse` has none.
- `render` sorts all the points by date first and groups them by city afterwards
  (scripts/views/data.events.js:80). `CitySeriesSorted` proves that every series
  comes out in date order.
- An event's id is whatever `Number()` makes of the url once
  `'http://humantalks.com/cities/' + city + '/events/'` is removed
  (shared/models.js:69). It is not the url's last segment as such.

## Model

| member | source | states |
|---|---|---|
| JsString.IndexOf | shared/models.js:180 | The result is the first index where the pattern occurs, and -1 exactly when it occurs nowhere. |
| JsString.LastIndexOf | shared/models.js:178 | The result is the last index where the pattern occurs, and -1 when it occurs nowhere. |
| JsString.Substr | shared/models.js:180 | Annex B `substr`: in range it is the slice `[start, start+length)` clamped to the string; a non-positive length gives the empty string. |
| JsString.SubstrFrom | shared/models.js:182 | `substr(start)` from an in-range start is the suffix from `start`. |
| JsString.RemoveFirst | shared/models.js:35 | `replace(p, '')` removes exactly the first occurrence of `p`: the result re-inserts `p` at that index to give the input back, and the input is unchanged when `p` does not occur. |
| JsString.RemoveFirstOfPrefix | shared/models.js:35 | Removing a prefix from a string that starts with it leaves the rest. |
| JsString.NatToStringRoundTrip | shared/models.js:180 | `Number()` of the decimal text of a natural number is that number. |
| JsString.ToNumber | shared/models.js:180 | `Number()` of a string. A blank text is 0. A run of decimal digits is its decimal value, and a '+' or '-' before it gives the signed value. A text with any character other than white space, hexadecimal digits, signs and the radix letters x and o is NaN. So is a text whose first character is none of white space, a decimal digit or a sign. |
| JsValue.NumberValue | shared/models.js:69 | `s * 1`: always a number or NaN. It is NaN exactly when `Number()` of the text is NaN, and otherwise that number. The empty text gives 0, a run of decimal digits its value, and a text starting with a character that is none of white space, a decimal digit or a sign gives NaN. |
| JsValue.LooseEquals | shared/models.js:151 | `==`: it holds whenever `===` does and never with NaN. Null and undefined are `==` exactly to null and undefined. Two strings compare as text, two numbers as numbers. A number and a string compare as numbers, the string read by `Number()`, in either order. A boolean compares as 0 or 1 with a number or a string, and as itself with a boolean. An object or array is `==` only to itself. |
| JsValue.Truthy | shared/models.js:66 | `if (v)`: exactly six values are falsy: undefined, null, NaN, false, 0 and the empty string. |
| JsValue.StrictEquals | shared/models.js:139 | `===` (behind `_.contains`): it holds only between equal values, never with NaN, and between every pair of equal values other than NaN. |
| JsValue.Contains | shared/models.js:139 | `_.contains`: never finds NaN, finds in an array exactly the values it holds, and finds nothing in null, undefined, numbers or booleans. |
| JsValue.LooseEqualsProperties | shared/models.js:151 | `==` is symmetric, it holds whenever `===` holds, and NaN is `==` to nothing. |
| ModelsUtils.LastSegment | shared/models.js:178 | `url.substr(url.lastIndexOf('/')+1)` is the longest suffix without '/', preceded by '/' unless it is the whole url. |
| ModelsUtils.IdText | shared/models.js:180 | The text before the first '-', or the empty text when there is no '-'. |
| ModelsUtils.SlugText | shared/models.js:182 | The text after the first '-', or the whole segment when there is no '-'. |
| ModelsUtils.GetInfoFromURL | shared/models.js:175-184 | `false` unless info is 'slug' or 'id'. For a string url, the id is `Number()` of the last segment's text before its first '-', and the slug is the text after it. For 'slug' or 'id', a url that is not a string throws. |
| ModelsUtils.GetIDFromURL | shared/models.js:186-188 | Succeeds exactly for string urls and always yields a number or NaN: the number of the id text of the last segment. |
| ModelsUtils.GetSlugFromURL | shared/models.js:190-192 | Succeeds exactly for string urls and yields the slug text of the last segment, which never contains '/'. |
| ModelsUtils.SlugOfUrlHasNoSlash | shared/models.js:182 | The slug read from any url holds no '/'. |
| ModelsUtils.InfoDependsOnlyOnLastSegment | shared/models.js:178 | The id and slug of a url are those of its last segment alone. |
| ModelsUtils.LastSegmentOfJoin | shared/models.js:178 | A segment without '/' after a prefix ending in '/' is the last segment, whatever the prefix. |
| ModelsUtils.TemplateRoundTrip | shared/models.js:175-192 | A url `<prefix>/<id>-<slug>` (the users' url template of line 161) reads back exactly the id and slug it was built from. |
| Models.ComparatorKey | shared/models.js:11-16 | The key is the name when it is truthy; otherwise the title when that is truthy; otherwise the id when that is truthy; otherwise the cid. It is always one of those four and is truthy unless it is the cid. |
| Models.CityParsed | shared/models.js:33-39 | With a falsy url the record is unchanged. With a string url, `id` becomes the url minus the first occurrence of the cities prefix, `url` is deleted and no other key changes. A non-string url throws with the record unchanged. |
| Models.City.Parse | shared/models.js:33-39 | The in-place rewrite of `data` and its outcome are those of `CityParsed`. |
| Models.CityUrlRoundTrip | shared/models.js:34-36 | A url built from the template `'http://humantalks.com/cities/<%= city %>'` (line 48) parses back to that city id. |
| Models.FindCity | shared/models.js:51 | `get(id)` finds a city in the collection with that id exactly when one exists. null and undefined find nothing. |
| Models.Cities.Activate | shared/models.js:50-55 | Activation succeeds exactly when a city with that id exists, and the active item is then that city. Otherwise the active item is unchanged. |
| Models.Cities.Desactivate | shared/models.js:57-60 | Afterwards no city is active. |
| Models.GreedyEnd | shared/models.js:67 | The greedy `(.*)`: the last end up to a bound where '/events' follows a capture without a line terminator; no later end matches. |
| Models.MatchFrom | shared/models.js:67 | The leftmost start of a match with its greedy end. No earlier start matches, and None exactly when no match exists. |
| Models.CityInUrl | shared/models.js:67-68 | `match(...)[1]`: None exactly when the expression does not match. Otherwise it is the capture of the leftmost match with its greedy end (`MatchFrom`), and it holds no line terminator. |
| Models.EventUrlParsed | shared/models.js:66-71 | Falsy url: the record is unchanged. Non-string url, or no match: throws. Otherwise `city` is the capture, `id` is `Number()` of the url minus `prefix + city + '/events/'`, `url` is deleted and no other key changes. |
| Models.WithDateConverted | shared/models.js:72-73 | A truthy `date` is replaced by the date helper's value; otherwise the record is unchanged. |
| Models.EventUrlRoundTrip | shared/models.js:66-70 | An event url built from the template of line 85, for any city without a line terminator, parses back to that city and that numeric id. |
| Models.EventParsed | shared/models.js:65-76 | A throw leaves the record unchanged. A falsy url leaves only the date step. After a truthy url, `url` is gone and `city` is a string. A truthy date becomes the date helper's value of the original date. |
| Models.Event.Parse | shared/models.js:65-76 | The in-place rewrite and outcome are those of `EventParsed`: the url step, then the date step. |
| Models.EventRecords | shared/models.js:138 | The events' attribute dictionaries, in collection order. |
| Models.UrlInfoParsed | shared/models.js:92-96 | Falsy url: the record is unchanged. Non-string url: throws. String url: `id` and `slug` come from its last segment, `url` is deleted and no other key changes. |
| Models.UrlStepRoundTrip | shared/models.js:92-96 | A url ending in `/<id>-<slug>` yields that id and slug, whatever precedes it. |
| Models.TalkEventFlattened | shared/models.js:97-101 | An event with a truthy id becomes `eventId` and `city`, and `event` is deleted. Otherwise the record is unchanged. |
| Models.AuthorFlattened | shared/models.js:102-109 | A truthy author becomes `authorId` from its url, else `authorName` from its name, else nothing, and `author` is always deleted. A non-string author url throws, keeping the earlier steps' writes. |
| Models.TalkParsed | shared/models.js:91-111 | It throws exactly when the url is truthy but not a string, or the author's url is truthy but not a string. A bad url throws with the record unchanged. On success, a truthy url leaves no `url` and a string `slug`, and a truthy author leaves no `author`. An event with a truthy id leaves no `event` and its id as `eventId`, unless the url throws. |
| Models.TalkParseWrites | shared/models.js:92-107 | The values written: on success a string url gives `id` and `slug` from its last segment (`getIDFromURL`/`getSlugFromURL`). An event with a truthy id gives `eventId` and `city` from the event, unless the url throws. On success an author with a string url gives `authorId` from that url, and an author with no url but a truthy name gives `authorName`. |
| Models.Talk.Parse | shared/models.js:91-111 | The in-place rewrite and outcome are those of the url, event and author steps in turn (`TalkParsed`). |
| Models.TalkRecords | shared/models.js:150 | The talks' attribute dictionaries, in collection order. |
| Models.UserEventFlattened | shared/models.js:121-124 | Corrected event step: an event with a truthy id becomes `eventId`, `event` is deleted and no other key changes. |
| Models.NameAsId | shared/models.js:129-131 | A truthy name becomes the id exactly when the record has neither a truthy id nor a truthy slug. Nothing else changes. |
| Models.UserParsed | shared/models.js:120-133 | Corrected parse: it throws exactly when the url is truthy but not a string. On success a truthy url leaves no `url` and a string `slug`. Without a url, the name fallback makes the name the id. An event with a truthy id leaves no `event` and its id as `eventId`. |
| Models.UserParseWrites | shared/models.js:125-128 | A truthy string url always parses, and gives `id` and `slug` from its last segment (`getIDFromURL`/`getSlugFromURL`). |
| Models.UserUrlOrNameParsed | shared/models.js:125-131 | The url step or the name fallback: it throws exactly for a truthy non-string url, gives the results above, and leaves `event` and `eventId` as they were. |
| Models.UserParsedAsWritten | shared/models.js:120-133 | As written, parsing throws a ReferenceError exactly when the record has an event with a truthy id. Otherwise it is the corrected parse, which throws a TypeError for a truthy url that is not a string. |
| Models.User.Parse | shared/models.js:120-133 | Corrected `User.parse`: the in-place rewrite and outcome equal `UserParsed` (event step, then url step or name fallback). |
| Models.User.ParseAsWritten | shared/models.js:120-133 | `User.parse` as written: the in-place rewrite and outcome equal `UserParsedAsWritten`. |
| Models.UserUrlRoundTrip | shared/models.js:125-128 | A user url built from the template of line 161 parses to that id and slug. |
| Models.UserEventCounterexample | shared/models.js:122 | The record `{event: {id: 7}}` makes the parse as written throw. The corrected parse gives `{eventId: 7}`. |
| Models.CollectIds | shared/models.js:138-143 | The ids the scan appends, in collection order: never more than the records scanned. |
| Models.Selects | shared/models.js:139-151 | A record is selected only for a truthy user id. |
| Models.SelectsMeaning | shared/models.js:139-151 | For a truthy user id: an event whose `attendeeIds` is an array is selected exactly when the array holds that id. A talk whose `authorId` is a number is selected exactly when it equals the user's numeric id. A talk whose `authorId` is a string is selected exactly when `Number()` of it is that id. A talk without an author id selects nobody. |
| Models.SelectedPositions | shared/models.js:138-139 | The positions of the records the scan selects, increasing, and all of them. |
| Models.CollectIdsInOrder | shared/models.js:138-143 | The rebuilt list has one id per selected record, the k-th being the id of the k-th selected record. |
| Models.CollectIdsMembership | shared/models.js:139 | An id is in the list exactly when some selected record carries it. |
| Models.CollectIdsFalsyUser | shared/models.js:137-139 | A user with a falsy id collects nothing. |
| Models.CollectIdsStep | shared/models.js:139-143 | Scanning one more record appends its id exactly when it is selected. |
| Models.User.Set | shared/models.js:136 | Backbone's `set`: one attribute is rewritten and all others are kept. |
| Models.User.AddEventIfAttended | shared/models.js:138-143 | The `each` callback: the event's id is appended to `attendedEventIds` exactly when the scan selects the event. Nothing else changes. |
| Models.User.AddTalkIfAuthored | shared/models.js:150-155 | The `each` callback: the talk's id is appended to `talkIds` exactly when the scan selects the talk. Nothing else changes. |
| Models.User.SetAttendance | shared/models.js:135-145 | `attendedEventIds` becomes the list of ids of the events whose `attendeeIds` contain (`===`) the user's id, in order. No other attribute changes. |
| Models.User.SetTalks | shared/models.js:147-157 | `talkIds` becomes the list of ids of the talks whose `authorId` is `==` the user's id, in order. No other attribute changes. |
| Models.RebuildIdempotent | shared/models.js:162-171 | Rebuilding a user's list twice gives the same attributes as rebuilding it once, and the id is untouched. |
| Models.Users.SetAttendance | shared/models.js:162-166 | Every user of the collection ends with its attendance rebuilt from its original attributes, including a user listed twice. |
| Models.Users.SetTalks | shared/models.js:167-171 | Every user of the collection ends with its talks rebuilt from its original attributes. |
| DataEvents.ToPoint | scripts/views/data.events.js:69-78 | A point keeps the event's date and city, counts its attendee ids, and sits on day 1 of the event's month. |
| DataEvents.Points | scripts/views/data.events.js:69-78 | One point per event, in order, whose attendance is the number of attendee ids and whose city is the event's. |
| DataEvents.AxisDateIsMonth | scripts/views/data.events.js:76 | Two points share an axis date exactly when their events share year and month. The axis date is day 1 and never after the event. |
| DataEvents.InsertByDate | scripts/views/data.events.js:80 | Insertion keeps the points as a multiset plus the new one, and keeps date order. |
| DataEvents.SortByDate | scripts/views/data.events.js:80 | `sortBy(date)` returns a permutation of the points, in date order. |
| DataEvents.InsertKeepsDateOrder | scripts/views/data.events.js:80 | Inserting a point keeps the order among the points of each date and puts it after those of its own date. |
| DataEvents.SortByDateStable | scripts/views/data.events.js:80 | Points with equal dates keep their original relative order. |
| DataEvents.OfCity | scripts/views/data.events.js:80 | The points of one city, all in that city. |
| DataEvents.OfCitySorted | scripts/views/data.events.js:80 | Keeping one city's points of a sorted sequence keeps them sorted and among the points. |
| DataEvents.OfCityMultiset | scripts/views/data.events.js:80 | One city's points are, as a multiset, exactly the points in that city. |
| DataEvents.FindSeries | scripts/views/data.events.js:80 | The position of the series named after a city, or -1 exactly when there is none. |
| DataEvents.AddToSeriesGroups | scripts/views/data.events.js:80 | One `groupBy` step keeps the grouping invariant: distinct names, non-empty series, each the city's points in order, and every point covered. |
| DataEvents.AddToSeries | scripts/views/data.events.js:80 | One `groupBy` step adds at most one series and keeps every series' name in place. |
| DataEvents.AddToSeriesJoins | scripts/views/data.events.js:80 | A point whose city has no series opens a new one at the end. Otherwise it joins the end of one series of its city, and every other series stays as it was. |
| DataEvents.GroupByCity | scripts/views/data.events.js:80-86 | The series are a grouping of the points by city: distinct names, none empty, each the points of its city in order, and every city present. |
| DataEvents.CitySeries | scripts/views/data.events.js:80-86 | The series group the date-sorted points by city, and no series holds a point more often than the points do. |
| DataEvents.GroupsWithinPoints | scripts/views/data.events.js:80 | A grouping of points takes no point more often than the points hold it. |
| DataEvents.CitySeriesSorted | scripts/views/data.events.js:80-86 | Every city series is in date order. |
| DataEvents.CitySeriesHoldTheirCity | scripts/views/data.events.js:80-86 | Every series holds, as a multiset, exactly the points of its city. |
| DataEvents.EventInItsCitySeries | scripts/views/data.events.js:69-86 | Each event's point is in the series named after its city. |
| DataEvents.EveryCityHasSeries | scripts/views/data.events.js:80-86 | Every event's city has a series. |
| DataEvents.MaxAttendees | scripts/views/data.events.js:105 | `d3.max` of the attendances: at least each and equal to one. |
| DataEvents.YUpper | scripts/views/data.events.js:105 | NaN exactly when there are no points. Otherwise it is exactly the largest attendance plus 10: at least 10 above every attendance and exactly 10 above one of them. |
| DataEvents.UpperCase | scripts/views/data.events.js:62 | `toUpperCase` of one character: 'a'-'z' and the Latin-1 letters 'à'-'þ' (except '÷') move down by 32, other ASCII characters are kept, and 'ß' becomes "SS". The result is never a lower-case ASCII letter. |
| DataEvents.UpperCaseIdempotent | scripts/views/data.events.js:62 | An upper-cased character upper-cases to itself. |
| DataEvents.UpperCaseString | scripts/views/data.events.js:62 | `toUpperCase` of a string leaves no lower-case ASCII letter and is never shorter. Without 'ß' the length is kept, and each character is upper-cased in place. |
| DataEvents.Capitalize | scripts/views/data.events.js:62 | The first character is upper-cased and the rest kept. The length is kept unless the city starts with 'ß'. The empty name stays empty. |
| DataEvents.CapitalizeIdempotent | scripts/views/data.events.js:62 | Capitalising a capitalised name changes nothing. |
| DataEvents.TickFormat | scripts/views/data.events.js:31 | The tick format starts with the month and shows the year exactly when the tick is not in the current year. |
| DataEvents.TooltipDateFormat | scripts/views/data.events.js:59 | The tooltip date starts with day and month and shows the year exactly when the event is not in the current year. |
| DataEvents.YearShownAlike | scripts/views/data.events.js:31 | Ticks and tooltips agree on when the year is shown. |
| DataEvents.Render | scripts/views/data.events.js:9-105 | Nothing is computed exactly when there is no data. Otherwise the chart is `CitySeries` of the events with `YUpper` of their points. The series have distinct names and are non-empty and date-ordered, every event's city has one, and the y top is NaN exactly when there are no events and otherwise exceeds every drawn point. |
| DataEvents.ChartFacts | scripts/views/data.events.js:69-105 | The series and the y top drawn from any events have the properties listed for `Render`. |
| DataEvents.SeriesPointsAmongPoints | scripts/views/data.events.js:80-86 | Every point of a series is one of the event points. |
| DataEvents.SameMonthExample | scripts/views/data.events.js:69-86 | Two March 2020 events in paris, with 3 and 2 attendees, give one paris series of two points at 2020-03-01, with counts 3 and 2. |

## Left out

- Drawing is not modelled: D3 scales, axes, the SVG and DOM updates, enter/update/exit diffing, transitions, `dotsScale`, colours and the city lookup by `findWhere` (scripts/views/data.events.js:12-28, 35-44, 88-155). They produce no data that the model could state.
- The x domain (`d3.extent` of the axis dates, line 104) is not modelled. It is the earliest and latest axis date, and this model covers only the point, series, y-top, capitalisation and year-format steps of `render`.
- The tooltip's HTML, `_.pluralize`, the 500 ms hide timer and the mouse handlers are left out. They are rendering, timing and events.
- `moment` and `d3.time.format` are not modelled as code. Dates arrive parsed as (year, month, day), the current year is a parameter, and only the format patterns are modelled. A date that `parseDate` rejects (null) is not represented.
- `appUtils.frenchDateToNumber` is not part of this model; `Event.Parse` takes it as a function parameter.
- The Backbone overrides of `add` and `parse` (lines 5-9, 18-30) are not modelled. Nor are the `getURL` templates (lines 41-44, 78-81), event triggering on `activate`/`desactivate`, or Backbone's `set` change events. The url templates appear only through the round-trip lemmas.
- Object identity is modelled by value: `===` and `==` compare objects and arrays by content, and `==` between an object and a primitive (ToPrimitive) is false.
- In `setTalks` the list returned by `get('talkIds')` is pushed in place (line 153). Only the value it ends with is modelled, not the aliasing.
- JsString.ToNumber: only integer literals are modelled (decimal with sign, hex, octal, binary). Fractions, exponents and Infinity read as NaN, where JavaScript would give a number.
- Models.FindCity: ids are compared by value. Backbone's `get` looks models up by stringified id, and also by a model's `id` or `cid`; those lookups are not modelled.
- Models.Cities.Activate: returns true on success where the source returns undefined. The false result and the state changes are the source's.
- Models.User.ParseAsWritten: models the parse under Node, where the undeclared `event` throws a ReferenceError. In a browser, `event` resolves to `window.event`, which during the XHR callback that parses the response is the request's event. There line 122 writes `eventId = undefined` without throwing, then deletes `event`. That browser outcome is not modelled.
- DataEvents.UpperCase: only the Latin-1 case mapping is modelled. Other characters keep their case, and text is code points rather than UTF-16 units.
- JsValue.Value: numbers are integers. Fractions and the loss of precision above 2^53 are not modelled.
- DataEvents.FilteredEvent: an event always has its `attendeeIds` list and a string city. The source throws at scripts/views/data.events.js:72 when `attendeeIds` is missing, and groups an undefined city under the key "undefined"; neither case is modelled.
- DataEvents.GroupByCity: series come in first-appearance order. JavaScript lists integer-like keys (a city named "42") first, and that ordering is not modelled.

## Findings

| source | as written | input that shows it | evidently intended | confidence | as-written member | corrected member |
|---|---|---|---|---|---|---|
| shared/models.js:122 | `data.eventId = event.id` reads an undeclared variable `event`. Under Node the branch throws; in a browser it reads `window.event` and stores an undefined `eventId`. Either way the event's id is lost | a user record `{event: {id: 7}}` | `data.eventId = data.event.id`, giving `{eventId: 7}` | high, not executed | Models.UserEventCounterexample | Models.User.Parse |
