/**
 * The `GET /api/shows` handler: it reads `limit`, `offset`, `city`, `date`
 * and `comedian`, describes one read of the `shows` table (joined with the
 * venue and the performers with their comedians), sends it to the data
 * store, filters the page it gets back by comedian name, and answers
 * `{ data, count }`.
 *
 * The data store is the parameter `db`; the clock is `now`; `new Date(date)`
 * is the parameter `parseDate`, which yields `None` for an invalid date.
 */
module ShowsRoute {
  import opened Wrappers
  import opened Text
  import opened Decimal
  import opened SearchParams
  import opened Http
  import opened Database

  const DefaultLimit: string := "10"
  const DefaultOffset: string := "0"

  /** The length of one day. */
  const MsPerDay: int := 86_400_000

  /** `start` one day later (`setDate(getDate() + 1)` on a copy of the start). */
  function NextDay(start: Timestamp): (end: Timestamp)
    ensures end > start
  {
    start + MsPerDay
  }

  /** The request's parameters as the handler has read them. */
  datatype ShowsParams = ShowsParams(
    limit: Num,
    offset: Num,
    city: Option<string>,
    date: Option<string>,
    comedian: Option<string>)

  /**
   * `parseInt(get('limit') || '10')`, `parseInt(get('offset') || '0')` and
   * the three optional filters.
   */
  function ReadParams(params: Params): (r: ShowsParams)
    ensures !Truthy(Get(params, "limit")) ==> r.limit == Int(10)
    ensures Truthy(Get(params, "limit")) ==> r.limit == ParseInt(Get(params, "limit").value)
    ensures !Truthy(Get(params, "offset")) ==> r.offset == Int(0)
    ensures Truthy(Get(params, "offset")) ==> r.offset == ParseInt(Get(params, "offset").value)
    ensures r.city == Get(params, "city") && r.date == Get(params, "date") && r.comedian == Get(params, "comedian")
  {
    assert ParseInt(DefaultLimit) == Int(10) by {
      assert NatToString(10) == DefaultLimit;
      ParseIntOfNatToString(10);
    }
    assert ParseInt(DefaultOffset) == Int(0) by {
      assert NatToString(0) == DefaultOffset;
      ParseIntOfNatToString(0);
    }
    ShowsParams(
      ParseInt(OrElse(Get(params, "limit"), DefaultLimit)),
      ParseInt(OrElse(Get(params, "offset"), DefaultOffset)),
      Get(params, "city"),
      Get(params, "date"),
      Get(params, "comedian"))
  }

  /** One condition the query builder adds to the read. */
  datatype Filter =
    | DateAtLeast(bound: Timestamp)   // .gte('show_date', bound)
    | DateBefore(bound: Timestamp)    // .lt('show_date', bound)
    | StatusIs(status: ShowStatus)    // .eq('status', status)
    | VenueCityIs(city: string)       // .eq('venue.city', city)

  /**
   * A read of `shows` with its venue and performers, ascending by
   * `show_date`, rows `from` to `to` inclusive, under every filter.
   */
  datatype ShowsQuery = ShowsQuery(filters: seq<Filter>, from: Num, to: Num)

  /**
   * Whether a row passes one filter. The equality on the joined venue's city
   * is not taken to restrict the rows: whether the data store applies it to
   * the top-level rows is outside this model.
   */
  predicate Satisfies(f: Filter, s: ShowWithDetails) {
    match f
    case DateAtLeast(t) => s.show.showDate >= t
    case DateBefore(t) => s.show.showDate < t
    case StatusIs(st) => s.show.status == st
    case VenueCityIs(_) => true
  }

  /** Whether a row passes every filter of the query. */
  predicate Admits(q: ShowsQuery, s: ShowWithDetails) {
    forall i :: 0 <= i < |q.filters| ==> Satisfies(q.filters[i], s)
  }

  /** The base predicate: an upcoming show that has not started before `now`. */
  predicate IsUpcomingFrom(s: ShowWithDetails, now: Timestamp) {
    s.show.status == Upcoming && s.show.showDate >= now
  }

  /** The show falls on the day that starts at `start`. */
  predicate OnDay(s: ShowWithDetails, start: Timestamp) {
    start <= s.show.showDate < NextDay(start)
  }

  /**
   * `q` is the read the handler describes for parameters `p` at time `now`,
   * where `start` is the parsed `date` when one was given: the rows
   * `[offset, offset + limit - 1]`, the upcoming shows from `now` on, within
   * the given day if any, and the venue-city condition exactly when `city`
   * is given.
   */
  ghost predicate Describes(q: ShowsQuery, p: ShowsParams, now: Timestamp, start: Option<Timestamp>) {
    && q.from == p.offset
    && q.to == p.offset.Plus(p.limit).MinusConst(1)
    && (forall s :: Admits(q, s) <==> IsUpcomingFrom(s, now) && (start.Some? ==> OnDay(s, start.value)))
    && (Truthy(p.city) ==> VenueCityIs(p.city.value) in q.filters)
    && (!Truthy(p.city) ==> forall f :: f in q.filters ==> !f.VenueCityIs?)
  }

  /** Adding a filter to a query narrows it by exactly that filter. */
  lemma AdmitsWith(q: ShowsQuery, extra: seq<Filter>, s: ShowWithDetails)
    ensures Admits(q.(filters := q.filters + extra), s) <==>
      Admits(q, s) && forall i :: 0 <= i < |extra| ==> Satisfies(extra[i], s)
  {
    var all := q.filters + extra;
    if Admits(q, s) && forall i :: 0 <= i < |extra| ==> Satisfies(extra[i], s) {
      forall i | 0 <= i < |all| ensures Satisfies(all[i], s) {
        if i >= |q.filters| { assert all[i] == extra[i - |q.filters|]; }
      }
    }
    if Admits(q.(filters := all), s) {
      forall i | 0 <= i < |extra| ensures Satisfies(extra[i], s) {
        assert all[|q.filters| + i] == extra[i];
      }
      forall i | 0 <= i < |q.filters| ensures Satisfies(q.filters[i], s) {
        assert all[i] == q.filters[i];
      }
    }
  }

  /**
   * The query builder: the base read, then the city condition when `city`
   * is given, then the day window when a date was given.
   */
  method BuildQuery(p: ShowsParams, now: Timestamp, start: Option<Timestamp>) returns (q: ShowsQuery)
    ensures Describes(q, p, now, start)
  {
    q := ShowsQuery([DateAtLeast(now), StatusIs(Upcoming)], p.offset, p.offset.Plus(p.limit).MinusConst(1));
    ghost var base := q;
    assert forall s :: Admits(base, s) <==> IsUpcomingFrom(s, now) by {
      forall s ensures Admits(base, s) <==> IsUpcomingFrom(s, now) {
        assert Satisfies(base.filters[0], s) && Satisfies(base.filters[1], s) ==> Admits(base, s);
      }
    }
    if Truthy(p.city) {
      ghost var before := q;
      q := q.(filters := q.filters + [VenueCityIs(p.city.value)]);
      forall s ensures Admits(q, s) <==> Admits(before, s) {
        AdmitsWith(before, [VenueCityIs(p.city.value)], s);
      }
      assert q.filters[|q.filters| - 1] == VenueCityIs(p.city.value);
    }
    if start.Some? {
      ghost var before := q;
      var window := [DateAtLeast(start.value), DateBefore(NextDay(start.value))];
      q := q.(filters := q.filters + window);
      forall s ensures Admits(q, s) <==> Admits(before, s) && OnDay(s, start.value) {
        AdmitsWith(before, window, s);
        assert (forall i :: 0 <= i < |window| ==> Satisfies(window[i], s)) <==>
               Satisfies(window[0], s) && Satisfies(window[1], s);
      }
      assert forall f :: f in before.filters ==> f in q.filters;
      assert forall f :: f in q.filters && f !in before.filters ==> f in window;
    }
  }

  /** The performer's comedian is known and its name contains `query`, ignoring case. */
  predicate NameMatches(p: PerformerWithComedian, query: string) {
    p.comedian.Some? && ContainsIgnoringCase(p.comedian.value.name, query)
  }

  /** `show.performers?.some(p => p.comedian?.name.toLowerCase().includes(query.toLowerCase()))`. */
  predicate HasComedian(s: ShowWithDetails, query: string) {
    s.performers.Some? && exists p :: p in s.performers.value && NameMatches(p, query)
  }

  /** `shows.filter(show => HasComedian(show, query))`. */
  function FilterByComedian(shows: seq<ShowWithDetails>, query: string): (r: seq<ShowWithDetails>)
    ensures |r| <= |shows|
    ensures forall s :: s in r <==> s in shows && HasComedian(s, query)
  {
    if shows == [] then []
    else
      var tail := FilterByComedian(shows[1..], query);
      assert forall s :: s in shows <==> s == shows[0] || s in shows[1..];
      if HasComedian(shows[0], query) then [shows[0]] + tail else tail
  }

  /**
   * `filteredData`: the fetched rows, filtered by comedian only when a
   * non-empty `comedian` was given and the rows are not `null`.
   */
  function PostFilter(comedian: Option<string>, data: Option<seq<ShowWithDetails>>): (r: Option<seq<ShowWithDetails>>)
    ensures r.None? <==> data.None?
    ensures !Truthy(comedian) ==> r == data
    ensures Truthy(comedian) && data.Some? ==>
      && |r.value| <= |data.value|
      && forall s :: s in r.value <==> s in data.value && HasComedian(s, comedian.value)
  {
    if Truthy(comedian) && data.Some? then Some(FilterByComedian(data.value, comedian.value)) else data
  }

  /**
   * The handler. It answers 500 "Internal server error" when the given date
   * is invalid (the throw of `toISOString`) or the read throws, 500 with the
   * store's message when the read reports an error, and otherwise `{ data, count }` for the filtered page.
   * `issued` is the read it sent to the data store, if it got that far.
   */
  method HandleGet(
    params: Params,
    now: Timestamp,
    parseDate: string -> Option<Timestamp>,
    db: ShowsQuery -> Outcome<ShowWithDetails>)
    returns (resp: Response<ShowWithDetails>, issued: Option<ShowsQuery>)
    ensures var p := ReadParams(params);
      issued.None? <==> Truthy(p.date) && parseDate(p.date.value).None?
    ensures issued.None? ==> resp == ErrorJson(500, InternalServerError)
    ensures issued.Some? ==>
      var p := ReadParams(params);
      Describes(issued.value, p, now, if Truthy(p.date) then parseDate(p.date.value) else None)
    ensures issued.Some? && db(issued.value).QueryError? ==>
      resp == ErrorJson(500, db(issued.value).message)
    ensures issued.Some? && db(issued.value).Thrown? ==> resp == ErrorJson(500, InternalServerError)
    ensures issued.Some? && db(issued.value).Rows? ==>
      resp == Envelope(PostFilter(ReadParams(params).comedian, db(issued.value).data))
  {
    var p := ReadParams(params);
    var start: Option<Timestamp> := None;
    if Truthy(p.date) {
      start := parseDate(p.date.value);
      if start.None? {
        return ErrorJson(500, InternalServerError), None;
      }
    }
    var query := BuildQuery(p, now, start);
    issued := Some(query);
    var outcome := db(query);
    if outcome.Thrown? {
      return ErrorJson(500, InternalServerError), issued;
    }
    if outcome.QueryError? {
      return ErrorJson(500, outcome.message), issued;
    }
    var filteredData := outcome.data;
    if Truthy(p.comedian) && outcome.data.Some? {
      filteredData := Some(FilterByComedian(outcome.data.value, p.comedian.value));
    }
    resp := Envelope(filteredData);
  }

  // ---------------------------------------------------------------------------
  // Properties of the comedian post-filter

  /** `sub` keeps some of the elements of `s`, in their order. */
  predicate IsSubsequence<T(==)>(sub: seq<T>, s: seq<T>)
    decreases |s|
  {
    if sub == [] then true
    else if s == [] then false
    else if sub[0] == s[0] then IsSubsequence(sub[1..], s[1..])
    else IsSubsequence(sub, s[1..])
  }

  /** The shows are in ascending order of date. */
  predicate SortedByDate(shows: seq<ShowWithDetails>) {
    forall i, j :: 0 <= i < j < |shows| ==> shows[i].show.showDate <= shows[j].show.showDate
  }

  /** The filter drops rows but never adds or reorders any. */
  lemma {:induction false} FilterIsSubsequence(shows: seq<ShowWithDetails>, query: string)
    ensures IsSubsequence(FilterByComedian(shows, query), shows)
  {
    if shows != [] {
      FilterIsSubsequence(shows[1..], query);
      var tail := FilterByComedian(shows[1..], query);
      if HasComedian(shows[0], query) {
        assert FilterByComedian(shows, query) == [shows[0]] + tail;
        assert ([shows[0]] + tail)[1..] == tail;
      } else {
        SubsequenceOfTail(tail, shows);
      }
    }
  }

  /** A subsequence of the tail is a subsequence of the whole. */
  lemma {:induction false} SubsequenceOfTail<T>(sub: seq<T>, s: seq<T>)
    requires s != [] && IsSubsequence(sub, s[1..])
    ensures IsSubsequence(sub, s)
    decreases |s|, 0
  {
    if sub != [] && sub[0] == s[0] {
      SubsequenceDropHead(sub, s[1..]);
    }
  }

  /** Dropping the head of a subsequence leaves a subsequence. */
  lemma {:induction false} SubsequenceDropHead<T>(sub: seq<T>, s: seq<T>)
    requires sub != [] && IsSubsequence(sub, s)
    ensures IsSubsequence(sub[1..], s)
    decreases |s|, 1
  {
    if s != [] {
      if sub[0] == s[0] {
        if sub[1..] != [] {
          SubsequenceOfTail(sub[1..], s);
        }
      } else {
        SubsequenceDropHead(sub, s[1..]);
        if sub[1..] != [] {
          SubsequenceOfTail(sub[1..], s);
        }
      }
    }
  }

  /** A page that came back in date order stays in date order after the filter. */
  lemma {:induction false} FilterKeepsDateOrder(shows: seq<ShowWithDetails>, query: string)
    requires SortedByDate(shows)
    ensures SortedByDate(FilterByComedian(shows, query))
  {
    if shows != [] {
      var tail := FilterByComedian(shows[1..], query);
      FilterKeepsDateOrder(shows[1..], query);
      if HasComedian(shows[0], query) {
        var r := [shows[0]] + tail;
        forall i, j | 0 <= i < j < |r| ensures r[i].show.showDate <= r[j].show.showDate {
          if i == 0 {
            assert r[j] in shows[1..];
          } else {
            assert r[i] == tail[i - 1] && r[j] == tail[j - 1];
          }
        }
      }
    }
  }

  /** The query's case never matters: upper- or lower-casing it keeps the same shows. */
  lemma {:induction false} FilterIgnoresQueryCase(shows: seq<ShowWithDetails>, query: string)
    ensures FilterByComedian(shows, Upper(query)) == FilterByComedian(shows, query)
    ensures FilterByComedian(shows, Lower(query)) == FilterByComedian(shows, query)
  {
    if shows != [] {
      FilterIgnoresQueryCase(shows[1..], query);
      forall p: PerformerWithComedian | p.comedian.Some?
        ensures NameMatches(p, Upper(query)) == NameMatches(p, query)
        ensures NameMatches(p, Lower(query)) == NameMatches(p, query)
      {
        ContainsIgnoringCaseIgnoresCase(p.comedian.value.name, query);
      }
    }
  }

  /** A comedian's name matches whatever its case: upper-casing the name changes nothing. */
  lemma NameCaseIgnored(p: PerformerWithComedian, c: Comedian, query: string)
    requires p.comedian == Some(c)
    ensures NameMatches(p.(comedian := Some(c.(name := Upper(c.name)))), query) == NameMatches(p, query)
  {
    ContainsIgnoringCaseIgnoresCase(c.name, query);
  }

  /** Without a non-empty `comedian`, or with `null` data, the rows are passed through unchanged. */
  lemma PostFilterPassesThrough(comedian: Option<string>, data: Option<seq<ShowWithDetails>>)
    requires !Truthy(comedian) || data.None?
    ensures PostFilter(comedian, data) == data
  {
  }

  /**
   * What a successful response promises when the data store honours the
   * read it was sent: each returned show is upcoming, not before `now`, on
   * the requested day, and has a matching performer when `comedian` is
   * given; the rows keep their order and are a subsequence of the fetched
   * page; and `count` is at most `limit`.
   */
  predicate Honours(q: ShowsQuery, rows: seq<ShowWithDetails>) {
    && (forall s :: s in rows ==> Admits(q, s))
    && SortedByDate(rows)
    && (q.from.Int? && q.to.Int? ==> |rows| <= if q.to.value < q.from.value then 0 else q.to.value - q.from.value + 1)
  }

  lemma ResponseGuarantees(
    p: ShowsParams, now: Timestamp, start: Option<Timestamp>, q: ShowsQuery, rows: seq<ShowWithDetails>)
    requires Describes(q, p, now, start)
    requires Honours(q, rows)
    ensures var r := Envelope(PostFilter(p.comedian, Some(rows)));
      && r.Json? && r.data.Some?
      && (forall s :: s in r.data.value ==> IsUpcomingFrom(s, now))
      && (forall s :: s in r.data.value ==> start.Some? ==> OnDay(s, start.value))
      && (forall s :: s in r.data.value ==> Truthy(p.comedian) ==> HasComedian(s, p.comedian.value))
      && SortedByDate(r.data.value)
      && IsSubsequence(r.data.value, rows)
      && (p.limit.Int? && p.offset.Int? && p.limit.value >= 0 ==> r.count <= p.limit.value)
  {
    var out := PostFilter(p.comedian, Some(rows)).value;
    if Truthy(p.comedian) {
      FilterIsSubsequence(rows, p.comedian.value);
      FilterKeepsDateOrder(rows, p.comedian.value);
    } else {
      SubsequenceReflexive(rows);
    }
    assert forall s :: s in out ==> s in rows;
  }

  /** Every sequence is a subsequence of itself. */
  lemma {:induction false} SubsequenceReflexive<T>(s: seq<T>)
    ensures IsSubsequence(s, s)
  {
    if s != [] {
      SubsequenceReflexive(s[1..]);
    }
  }
}
