/**
 * The `GET /api/venues` handler: it reads `limit`, `offset`, `city` and
 * `search`, describes one read of the `venues` table (ascending by name),
 * with a case-insensitive pattern condition on the city and on the name for
 * each of `city` and `search` that is given, sends it to the data store and
 * answers `{ data, count }`. The data store is the parameter `db`.
 */
module VenuesRoute {
  import opened Wrappers
  import opened Text
  import opened Decimal
  import opened SearchParams
  import opened Http
  import opened Database
  import opened Like

  /** The request's parameters as the handler has read them. */
  datatype VenuesParams = VenuesParams(limit: Num, offset: Num, city: Option<string>, search: Option<string>)

  /** `parseInt(get('limit') || '10')`, `parseInt(get('offset') || '0')`, `city` and `search`. */
  function ReadParams(params: Params): (r: VenuesParams)
    ensures !Truthy(Get(params, "limit")) ==> r.limit == Int(10)
    ensures Truthy(Get(params, "limit")) ==> r.limit == ParseInt(Get(params, "limit").value)
    ensures !Truthy(Get(params, "offset")) ==> r.offset == Int(0)
    ensures Truthy(Get(params, "offset")) ==> r.offset == ParseInt(Get(params, "offset").value)
    ensures r.city == Get(params, "city") && r.search == Get(params, "search")
  {
    assert ParseInt("10") == Int(10) by {
      assert NatToString(10) == "10";
      ParseIntOfNatToString(10);
    }
    assert ParseInt("0") == Int(0) by {
      assert NatToString(0) == "0";
      ParseIntOfNatToString(0);
    }
    VenuesParams(
      ParseInt(OrElse(Get(params, "limit"), "10")),
      ParseInt(OrElse(Get(params, "offset"), "0")),
      Get(params, "city"),
      Get(params, "search"))
  }

  /** One pattern condition the query builder adds to the read. */
  datatype Filter =
    | CityILike(pattern: string)   // .ilike('city', pattern)
    | NameILike(pattern: string)   // .ilike('name', pattern)

  /** A read of `venues`, ascending by `name`, rows `from` to `to` inclusive, under every filter. */
  datatype VenuesQuery = VenuesQuery(from: Num, to: Num, filters: seq<Filter>)

  /** Whether a venue passes one condition; a venue without a city fails a city pattern. */
  predicate Satisfies(f: Filter, v: Venue) {
    match f
    case CityILike(pat) => v.city.Some? && ILike(v.city.value, pat)
    case NameILike(pat) => ILike(v.name, pat)
  }

  predicate Admits(q: VenuesQuery, v: Venue) {
    forall i :: 0 <= i < |q.filters| ==> Satisfies(q.filters[i], v)
  }

  /** The pattern the source builds, `%${s}%`: `s` goes in unescaped. */
  function ContainsPatternAsWritten(s: string): (pat: string)
    ensures |pat| == |s| + 2 && pat[0] == '%' && pat[|pat| - 1] == '%'
    ensures pat[1..|pat| - 1] == s
  {
    "%" + s + "%"
  }

  /**
   * The pattern for "contains `s`, ignoring case": `s` with its `%`, `_` and
   * backslashes escaped, between two `%`.
   */
  function ContainsPattern(s: string): (pat: string)
    ensures forall t :: ILike(t, pat) <==> ContainsIgnoringCase(t, s)
  {
    var pat := "%" + Escape(s) + "%";
    assert forall t :: ILike(t, pat) <==> ContainsIgnoringCase(t, s) by {
      forall t ensures ILike(t, pat) <==> ContainsIgnoringCase(t, s) {
        EscapedContainsPattern(t, s);
      }
    }
    pat
  }

  /**
   * With the pattern as written, a search for `_` admits a venue named "Ab",
   * whose name does not contain `_`: the wildcard is not taken literally.
   */
  lemma WildcardSearchMatchesWithoutSubstring()
    ensures ILike("Ab", ContainsPatternAsWritten("_"))
    ensures !ContainsIgnoringCase("Ab", "_")
  {
  }

  /** For a search text without `%`, `_` or backslashes both patterns are the same. */
  lemma PatternsAgreeWithoutSpecials(s: string)
    requires Plain(s)
    ensures ContainsPatternAsWritten(s) == ContainsPattern(s)
  {
  }

  /** `s` holds none of the characters a pattern treats specially. */
  predicate Plain(s: string) {
    forall i :: 0 <= i < |s| ==> !IsSpecial(s[i])
  }

  /** The filter texts of `p` that are given hold no special characters. */
  predicate PlainFilters(p: VenuesParams) {
    && (Truthy(p.city) ==> Plain(p.city.value))
    && (Truthy(p.search) ==> Plain(p.search.value))
  }

  /** A venue's city contains `city` and its name contains `search`, ignoring case, for those given. */
  predicate Matches(p: VenuesParams, v: Venue) {
    && (Truthy(p.city) ==> v.city.Some? && ContainsIgnoringCase(v.city.value, p.city.value))
    && (Truthy(p.search) ==> ContainsIgnoringCase(v.name, p.search.value))
  }

  /**
   * `q` is the read the handler describes for `p`: the rows
   * `[offset, offset + limit - 1]`, a city pattern `%city%` exactly when
   * `city` is given and a name pattern `%search%` exactly when `search` is
   * given, each inserted unescaped. When neither text holds a special
   * character it admits just the venues whose city and name contain them,
   * ignoring case.
   */
  ghost predicate Describes(q: VenuesQuery, p: VenuesParams) {
    && q.from == p.offset
    && q.to == p.offset.Plus(p.limit).MinusConst(1)
    && q.filters ==
         (if Truthy(p.city) then [CityILike(ContainsPatternAsWritten(p.city.value))] else []) +
         (if Truthy(p.search) then [NameILike(ContainsPatternAsWritten(p.search.value))] else [])
    && (forall v :: Admits(q, v) <==>
         && (Truthy(p.city) ==> v.city.Some? && ILike(v.city.value, ContainsPatternAsWritten(p.city.value)))
         && (Truthy(p.search) ==> ILike(v.name, ContainsPatternAsWritten(p.search.value))))
    && (PlainFilters(p) ==> forall v :: Admits(q, v) <==> Matches(p, v))
  }

  /** The query builder: the base read, then the city condition, then the name condition. */
  method BuildQuery(p: VenuesParams) returns (q: VenuesQuery)
    ensures Describes(q, p)
  {
    q := VenuesQuery(p.offset, p.offset.Plus(p.limit).MinusConst(1), []);
    if Truthy(p.city) {
      q := q.(filters := q.filters + [CityILike(ContainsPatternAsWritten(p.city.value))]);
    }
    if Truthy(p.search) {
      q := q.(filters := q.filters + [NameILike(ContainsPatternAsWritten(p.search.value))]);
    }
    forall v ensures Admits(q, v) <==>
      && (Truthy(p.city) ==> v.city.Some? && ILike(v.city.value, ContainsPatternAsWritten(p.city.value)))
      && (Truthy(p.search) ==> ILike(v.name, ContainsPatternAsWritten(p.search.value)))
    {
      if Truthy(p.city) {
        assert q.filters[0] == CityILike(ContainsPatternAsWritten(p.city.value));
      }
      if Truthy(p.search) {
        assert q.filters[|q.filters| - 1] == NameILike(ContainsPatternAsWritten(p.search.value));
      }
    }
    if PlainFilters(p) {
      if Truthy(p.city) {
        PatternsAgreeWithoutSpecials(p.city.value);
      }
      if Truthy(p.search) {
        PatternsAgreeWithoutSpecials(p.search.value);
      }
    }
  }

  /**
   * The read with escaped patterns: the same range, and a city (resp. name)
   * condition that admits exactly the venues whose city (resp. name)
   * contains `city` (resp. `search`), ignoring case, whatever the texts hold.
   */
  function EscapedQuery(p: VenuesParams): (q: VenuesQuery)
    ensures q.from == p.offset && q.to == p.offset.Plus(p.limit).MinusConst(1)
    ensures forall v :: Admits(q, v) <==> Matches(p, v)
  {
    var q := VenuesQuery(p.offset, p.offset.Plus(p.limit).MinusConst(1),
      (if Truthy(p.city) then [CityILike(ContainsPattern(p.city.value))] else []) +
      (if Truthy(p.search) then [NameILike(ContainsPattern(p.search.value))] else []));
    assert forall v :: Admits(q, v) <==> Matches(p, v) by {
      forall v ensures Admits(q, v) <==> Matches(p, v) {
        if Truthy(p.city) {
          assert q.filters[0] == CityILike(ContainsPattern(p.city.value));
        }
        if Truthy(p.search) {
          assert q.filters[|q.filters| - 1] == NameILike(ContainsPattern(p.search.value));
        }
      }
    }
    q
  }

  /** Without special characters in the texts, the escaped read is the read the handler sends. */
  lemma EscapedQueryAgrees(p: VenuesParams, q: VenuesQuery)
    requires Describes(q, p)
    requires PlainFilters(p)
    ensures EscapedQuery(p) == q
  {
    if Truthy(p.city) {
      PatternsAgreeWithoutSpecials(p.city.value);
    }
    if Truthy(p.search) {
      PatternsAgreeWithoutSpecials(p.search.value);
    }
  }

  /**
   * The handler: 500 with the store's message when the read reports an
   * error, 500 "Internal server error" when it throws, and otherwise
   * `{ data, count }` for the rows as fetched. `issued` is the read it sent.
   */
  method HandleGet(params: Params, db: VenuesQuery -> Outcome<Venue>)
    returns (resp: Response<Venue>, issued: VenuesQuery)
    ensures Describes(issued, ReadParams(params))
    ensures db(issued).QueryError? ==> resp == ErrorJson(500, db(issued).message)
    ensures db(issued).Thrown? ==> resp == ErrorJson(500, InternalServerError)
    ensures db(issued).Rows? ==> resp == Envelope(db(issued).data)
  {
    var p := ReadParams(params);
    issued := BuildQuery(p);
    var outcome := db(issued);
    if outcome.Thrown? {
      return ErrorJson(500, InternalServerError), issued;
    }
    if outcome.QueryError? {
      return ErrorJson(500, outcome.message), issued;
    }
    resp := Envelope(outcome.data);
  }

  /** The store returns only admitted rows, and no more than the range holds. */
  predicate Honours(q: VenuesQuery, rows: seq<Venue>) {
    && (forall v :: v in rows ==> Admits(q, v))
    && (q.from.Int? && q.to.Int? ==> |rows| <= if q.to.value < q.from.value then 0 else q.to.value - q.from.value + 1)
  }

  /**
   * What a successful response promises when the store honours the read:
   * every venue's city and name match the patterns `%city%` and `%search%`;
   * when those texts hold no special character, the city contains `city`
   * and the name contains `search`, ignoring case; and `count` is at most
   * `limit`.
   */
  lemma ResponseGuarantees(p: VenuesParams, q: VenuesQuery, rows: seq<Venue>)
    requires Describes(q, p)
    requires Honours(q, rows)
    ensures var r := Envelope(Some(rows));
      && r.Json?
      && (forall v :: v in rows && Truthy(p.city) ==> v.city.Some? && ILike(v.city.value, ContainsPatternAsWritten(p.city.value)))
      && (forall v :: v in rows && Truthy(p.search) ==> ILike(v.name, ContainsPatternAsWritten(p.search.value)))
      && (PlainFilters(p) ==> forall v :: v in rows ==> Matches(p, v))
      && (p.limit.Int? && p.offset.Int? && p.limit.value >= 0 ==> r.count <= p.limit.value)
  {
  }
}
