/**
 * The database side of the route engine. Each SQL query is read as a pure
 * function over a snapshot of the tables, and each Python function that loops
 * over the cursor rows is a method proved equal to that function:
 * decoding the route rows, searching locations by name, finding the routes
 * that serve a place, looking up the connections between two routes, and
 * resolving a trip with explicit transfer connections.
 */
module DatabaseHelper {
  import opened Wrappers
  import opened Text
  import opened Sorting
  import opened Helpers

  // ---------------------------------------------------------------------
  // The tables
  // ---------------------------------------------------------------------

  /** The `key_points` column: NULL, or stored JSON text with what `json.loads`
      makes of it (`None` when the text does not parse). */
  datatype StoredPoints = Null | Stored(raw: string, decoded: Option<seq<Point>>)

  /** A row of the routes table; `fare` is the column's value as `str()` shows it. */
  datatype RouteRow = RouteRow(id: int, name: string, fare: string, startArea: Option<string>,
                               endArea: Option<string>, keyPoints: StoredPoints, notes: Option<string>)

  /** A row of the locations table. */
  datatype LocationRow = LocationRow(name: string, neighborhood: string, category: string,
                                     coordinates: Option<string>, locationType: Option<string>,
                                     walkingDistance: Option<int>, notes: Option<string>)

  /** A row of the route connections table. */
  datatype ConnectionRow = ConnectionRow(fromRoute: int, toRoute: int, point: string,
                                         walkingTime: Option<int>, notes: Option<string>)

  datatype Snapshot = Snapshot(locations: seq<LocationRow>, routes: seq<RouteRow>,
                               connections: seq<ConnectionRow>)

  /** SQL `value LIKE '%pattern%'`: ASCII case-insensitive substring test. */
  predicate LikeContains(value: string, pattern: string) {
    Contains(Lower(value), Lower(pattern))
  }

  /** Python `x or ''` on a nullable text column. */
  function OrEmpty(s: Option<string>): string {
    s.GetOr("")
  }

  // ---------------------------------------------------------------------
  // get_routes_from_db
  // ---------------------------------------------------------------------

  /** The key points a route row carries: the decoded JSON list, or the empty
      list when the column is NULL, empty or does not parse. */
  function DecodedPoints(sp: StoredPoints): seq<Point> {
    match sp
    case Null => []
    case Stored(raw, decoded) => if raw == [] then [] else decoded.GetOr([])
  }

  /** The route record built from one row. */
  function RouteOf(row: RouteRow): Route {
    Route(row.name, row.fare + " جنيه مصري", OrEmpty(row.startArea), OrEmpty(row.endArea),
          DecodedPoints(row.keyPoints), OrEmpty(row.notes))
  }

  /** Unparsable, empty or missing key points become the empty list; parsed
      ones are kept as they are. */
  lemma DecodedPointsSpec(sp: StoredPoints)
    ensures DecodedPoints(sp) == [] <==> sp.Null? || sp.raw == [] || sp.decoded.None? || sp.decoded.value == []
    ensures sp.Stored? && sp.raw != [] && sp.decoded.Some? ==> DecodedPoints(sp) == sp.decoded.value
  {
  }

  /** `get_routes_from_db`: one route record per row, in table order; no row
      makes it fail. */
  method GetRoutesFromDb(rows: seq<RouteRow>) returns (routes: seq<Route>)
    ensures |routes| == |rows|
    ensures forall i :: 0 <= i < |rows| ==> routes[i] == RouteOf(rows[i])
  {
    routes := [];
    for i := 0 to |rows|
      invariant |routes| == i
      invariant forall j :: 0 <= j < i ==> routes[j] == RouteOf(rows[j])
    {
      var row := rows[i];
      var keyPoints := DecodedPoints(row.keyPoints);
      routes := routes + [Route(row.name, row.fare + " جنيه مصري", OrEmpty(row.startArea),
                                OrEmpty(row.endArea), keyPoints, OrEmpty(row.notes))];
    }
  }

  // ---------------------------------------------------------------------
  // search_locations_by_name
  // ---------------------------------------------------------------------

  /** The `WHERE` clause: the name contains the searched text (the prefix and
      exact alternatives imply it). */
  predicate NameMatches(row: LocationRow, x: string) {
    LikeContains(row.name, x)
  }

  /** The first `ORDER BY` key: 1 for the exact (case-sensitive) name, 2 for
      a case-insensitive prefix match, 3 for the rest. */
  function Rank(x: string, name: string): nat {
    if name == x then 1 else if Lower(x) <= Lower(name) then 2 else 3
  }

  /** `location_type DESC`: `a` may come before `b`; NULL sorts last. */
  predicate TypeFirst(a: Option<string>, b: Option<string>) {
    b.None? || (a.Some? && StrLe(b.value, a.value))
  }

  /** The whole `ORDER BY` of the location search. */
  predicate LocationFirst(x: string, a: LocationRow, b: LocationRow) {
    Rank(x, a.name) < Rank(x, b.name) || (Rank(x, a.name) == Rank(x, b.name) && TypeFirst(a.locationType, b.locationType))
  }

  function LocationOrder(x: string): (LocationRow, LocationRow) -> bool {
    (a: LocationRow, b: LocationRow) => LocationFirst(x, a, b)
  }

  /** The rows the `WHERE` clause keeps, in table order. */
  function Matching(rows: seq<LocationRow>, x: string): seq<LocationRow> {
    if rows == [] then []
    else Matching(rows[..|rows| - 1], x) + (if NameMatches(rows[|rows| - 1], x) then [rows[|rows| - 1]] else [])
  }

  /** SQL `LIMIT n`: a negative limit means no limit. */
  function Limit<T>(s: seq<T>, n: int): (r: seq<T>)
    ensures r <= s
    ensures n >= 0 ==> |r| <= n
    ensures n < 0 || |s| <= n ==> r == s
  {
    if 0 <= n < |s| then s[..n] else s
  }

  /** The rows the location query returns, in order. */
  function LocationQuery(rows: seq<LocationRow>, x: string, limit: int): seq<LocationRow> {
    Limit(SortBy(Matching(rows, x), LocationOrder(x)), limit)
  }

  /** A location as the search reports it. */
  datatype LocationResult = LocationResult(name: string, neighborhood: string, category: string,
                                           coordinates: Option<string>, locationType: string,
                                           walkingDistance: int, notes: Option<string>)

  /** `location_type or 'direct'` and `walking_distance or 0`. */
  function ResultOf(row: LocationRow): LocationResult {
    LocationResult(row.name, row.neighborhood, row.category, row.coordinates,
                   if row.locationType.None? || row.locationType.value == [] then "direct" else row.locationType.value,
                   row.walkingDistance.GetOr(0), row.notes)
  }

  /** `search_locations_by_name(x, limit)` as a value. */
  function SearchLocations(rows: seq<LocationRow>, x: string, limit: int): (r: seq<LocationResult>)
    ensures |r| == |LocationQuery(rows, x, limit)|
  {
    var q := LocationQuery(rows, x, limit);
    seq(|q|, i requires 0 <= i < |q| => ResultOf(q[i]))
  }

  lemma {:induction false} MatchingSpec(rows: seq<LocationRow>, x: string)
    ensures forall r :: r in multiset(Matching(rows, x)) ==> r in rows && NameMatches(r, x)
    ensures forall r :: r in rows && NameMatches(r, x) ==> r in multiset(Matching(rows, x))
  {
    if rows != [] {
      var init := rows[..|rows| - 1];
      MatchingSpec(init, x);
      assert rows == init + [rows[|rows| - 1]];
    }
  }

  lemma LocationOrderTotal(x: string)
    ensures TotalPreorder(LocationOrder(x))
  {
    forall a: LocationRow, b: LocationRow ensures LocationFirst(x, a, b) || LocationFirst(x, b, a) {
      if a.locationType.Some? && b.locationType.Some? {
        StrLeTotal(a.locationType.value, b.locationType.value);
      }
    }
    forall a: LocationRow, b: LocationRow, c: LocationRow | LocationFirst(x, a, b) && LocationFirst(x, b, c)
      ensures LocationFirst(x, a, c)
    {
      if Rank(x, a.name) == Rank(x, b.name) == Rank(x, c.name) && c.locationType.Some? {
        StrLeTransitive(c.locationType.value, b.locationType.value, a.locationType.value);
      }
    }
  }

  /** The location query returns only rows whose name contains the searched
      text; exact names come first, then prefix matches, then the rest, with
      `location_type` descending within a group; at most `limit` rows when
      `limit` is not negative; and every matching row when the limit does not
      cut. */
  lemma LocationQuerySpec(rows: seq<LocationRow>, x: string, limit: int)
    ensures var q := LocationQuery(rows, x, limit);
      && (forall i :: 0 <= i < |q| ==> q[i] in rows && NameMatches(q[i], x))
      && (forall i, j :: 0 <= i < j < |q| ==> LocationFirst(x, q[i], q[j]))
      && (limit >= 0 ==> |q| <= limit)
      && (limit < 0 || |Matching(rows, x)| <= limit ==> multiset(q) == multiset(Matching(rows, x)))
  {
    var m := Matching(rows, x);
    var sorted := SortBy(m, LocationOrder(x));
    var q := LocationQuery(rows, x, limit);
    MatchingSpec(rows, x);
    LocationOrderTotal(x);
    SortBySorted(m, LocationOrder(x));
    forall i | 0 <= i < |q| ensures q[i] in rows && NameMatches(q[i], x) {
      assert q[i] == sorted[i];
      assert sorted[i] in multiset(sorted);
    }
    forall i, j | 0 <= i < j < |q| ensures LocationFirst(x, q[i], q[j]) {
      assert q[i] == sorted[i] && q[j] == sorted[j];
      assert LocationOrder(x)(sorted[i], sorted[j]);
    }
  }

  /** What `search_locations_by_name` reports: in rank order, each location
      type filled in (`'direct'` when missing), at most `limit` entries when
      `limit` is not negative. */
  lemma SearchLocationsSpec(rows: seq<LocationRow>, x: string, limit: int)
    ensures var r := SearchLocations(rows, x, limit);
      && (forall i :: 0 <= i < |r| ==> LikeContains(r[i].name, x) && r[i].locationType != [])
      && (forall i, j :: 0 <= i < j < |r| ==> Rank(x, r[i].name) <= Rank(x, r[j].name))
      && (limit >= 0 ==> |r| <= limit)
  {
    LocationQuerySpec(rows, x, limit);
  }

  /** `search_locations_by_name`: the query, then one result per row fetched. */
  method SearchLocationsByName(rows: seq<LocationRow>, x: string, limit: int) returns (results: seq<LocationResult>)
    ensures results == SearchLocations(rows, x, limit)
  {
    var fetched := LocationQuery(rows, x, limit);
    results := [];
    for i := 0 to |fetched|
      invariant |results| == i
      invariant forall j :: 0 <= j < i ==> results[j] == ResultOf(fetched[j])
    {
      var row := fetched[i];
      var locationType := if row.locationType.None? || row.locationType.value == [] then "direct" else row.locationType.value;
      var walkingDistance := if row.walkingDistance.None? then 0 else row.walkingDistance.value;
      results := results + [LocationResult(row.name, row.neighborhood, row.category, row.coordinates,
                                           locationType, walkingDistance, row.notes)];
    }
  }

  // ---------------------------------------------------------------------
  // get_routes_serving_location
  // ---------------------------------------------------------------------

  /** The `WHERE key_points LIKE '%name%'` prefilter on the raw JSON text. */
  predicate RawMatches(row: RouteRow, name: string) {
    row.keyPoints.Stored? && LikeContains(row.keyPoints.raw, name)
  }

  function RawMatching(rows: seq<RouteRow>, name: string): seq<RouteRow> {
    if rows == [] then []
    else RawMatching(rows[..|rows| - 1], name) + (if RawMatches(rows[|rows| - 1], name) then [rows[|rows| - 1]] else [])
  }

  function NameOrder(): (RouteRow, RouteRow) -> bool {
    (a: RouteRow, b: RouteRow) => StrLe(a.name, b.name)
  }

  /** The rows the query returns, `ORDER BY name`. */
  function Candidates(rows: seq<RouteRow>, name: string): seq<RouteRow> {
    SortBy(RawMatching(rows, name), NameOrder())
  }

  /** `json.loads` raises on this row: its text is non-empty and does not parse. */
  predicate Unparsable(row: RouteRow) {
    row.keyPoints.Stored? && row.keyPoints.raw != [] && row.keyPoints.decoded.None?
  }

  /** `json.loads(key_points) if key_points else []` for a row that parses. */
  function Parsed(row: RouteRow): seq<Point> {
    if row.keyPoints.Stored? && row.keyPoints.raw != [] then row.keyPoints.decoded.GetOr([]) else []
  }

  /** Some string key point contains the name, case-insensitively. */
  predicate ServesName(points: seq<Point>, name: string) {
    exists k :: 0 <= k < |points| && points[k].Str? && Contains(Lower(points[k].text), Lower(name))
  }

  /** A route as `get_routes_serving_location` reports it. */
  datatype ServingRoute = ServingRoute(id: int, name: string, startArea: Option<string>, endArea: Option<string>,
                                       keyPoints: seq<Point>, fare: string, notes: Option<string>)

  function ServingOf(row: RouteRow): ServingRoute {
    ServingRoute(row.id, row.name, row.startArea, row.endArea, Parsed(row), row.fare, row.notes)
  }

  /** The candidates whose parsed key points serve the name, in order. */
  function Served(cands: seq<RouteRow>, name: string): seq<ServingRoute> {
    if cands == [] then []
    else
      var c := cands[|cands| - 1];
      Served(cands[..|cands| - 1], name) + (if ServesName(Parsed(c), name) then [ServingOf(c)] else [])
  }

  /** `get_routes_serving_location(name)` as a value: a candidate whose key
      points do not parse raises, and the handler turns that into `[]`. */
  function Serving(rows: seq<RouteRow>, name: string): seq<ServingRoute> {
    var cands := Candidates(rows, name);
    if exists i :: 0 <= i < |cands| && Unparsable(cands[i]) then [] else Served(cands, name)
  }

  lemma {:induction false} RawMatchingSpec(rows: seq<RouteRow>, name: string)
    ensures forall r :: r in multiset(RawMatching(rows, name)) ==> r in rows && RawMatches(r, name)
    ensures forall r :: r in rows && RawMatches(r, name) ==> r in multiset(RawMatching(rows, name))
  {
    if rows != [] {
      var init := rows[..|rows| - 1];
      RawMatchingSpec(init, name);
      assert rows == init + [rows[|rows| - 1]];
    }
  }

  lemma NameOrderTotal()
    ensures TotalPreorder(NameOrder())
  {
    forall a: RouteRow, b: RouteRow ensures StrLe(a.name, b.name) || StrLe(b.name, a.name) {
      StrLeTotal(a.name, b.name);
    }
    forall a: RouteRow, b: RouteRow, c: RouteRow | StrLe(a.name, b.name) && StrLe(b.name, c.name)
      ensures StrLe(a.name, c.name)
    {
      StrLeTransitive(a.name, b.name, c.name);
    }
  }

  /** Each served route comes from a candidate and serves the name, and the
      order of the candidates is kept; every candidate that serves the name is
      there. */
  lemma {:induction false} ServedSpec(cands: seq<RouteRow>, name: string)
    ensures forall s :: s in Served(cands, name) ==>
      ServesName(s.keyPoints, name) && exists i :: 0 <= i < |cands| && s == ServingOf(cands[i])
    ensures forall i :: 0 <= i < |cands| && ServesName(Parsed(cands[i]), name) ==> ServingOf(cands[i]) in Served(cands, name)
    ensures SortedBy(cands, NameOrder()) ==>
      forall i, j :: 0 <= i < j < |Served(cands, name)| ==> StrLe(Served(cands, name)[i].name, Served(cands, name)[j].name)
  {
    if cands != [] {
      var init := cands[..|cands| - 1];
      var c := cands[|cands| - 1];
      ServedSpec(init, name);
      var r := Served(cands, name);
      var prev := Served(init, name);
      forall s | s in r
        ensures ServesName(s.keyPoints, name) && exists i :: 0 <= i < |cands| && s == ServingOf(cands[i])
      {
        if s in prev {
          var i :| 0 <= i < |init| && s == ServingOf(init[i]);
          assert cands[i] == init[i];
        } else {
          assert s == ServingOf(cands[|cands| - 1]);
        }
      }
      forall i | 0 <= i < |cands| && ServesName(Parsed(cands[i]), name) ensures ServingOf(cands[i]) in r {
        if i < |init| {
          assert cands[i] == init[i];
        }
      }
      if SortedBy(cands, NameOrder()) {
        assert SortedBy(init, NameOrder()) by {
          forall i, j | 0 <= i < j < |init| ensures NameOrder()(init[i], init[j]) {
            assert init[i] == cands[i] && init[j] == cands[j];
          }
        }
        forall i, j | 0 <= i < j < |r| ensures StrLe(r[i].name, r[j].name) {
          if j >= |prev| {
            assert r[j] == ServingOf(c);
            var k :| 0 <= k < |init| && r[i] == ServingOf(init[k]);
            assert cands[k] == init[k];
            assert NameOrder()(cands[k], cands[|cands| - 1]);
          } else {
            assert r[i] == prev[i] && r[j] == prev[j];
          }
        }
      }
    }
  }

  /** The candidates are the prefiltered rows, ordered by name. */
  lemma CandidatesSpec(rows: seq<RouteRow>, name: string)
    ensures forall i :: 0 <= i < |Candidates(rows, name)| ==>
      Candidates(rows, name)[i] in rows && RawMatches(Candidates(rows, name)[i], name)
    ensures forall row :: row in rows && RawMatches(row, name) ==> row in Candidates(rows, name)
    ensures SortedBy(Candidates(rows, name), NameOrder())
  {
    var cands := Candidates(rows, name);
    RawMatchingSpec(rows, name);
    NameOrderTotal();
    SortBySorted(RawMatching(rows, name), NameOrder());
    forall i | 0 <= i < |cands| ensures cands[i] in rows && RawMatches(cands[i], name) {
      assert cands[i] in multiset(cands);
    }
    forall row | row in rows && RawMatches(row, name) ensures row in cands {
      assert row in multiset(cands);
    }
  }

  /** Every route `get_routes_serving_location` returns has a string key point
      containing the name case-insensitively and comes from a row whose raw
      key points text contains the name; the routes come ordered by name. */
  lemma ServingSound(rows: seq<RouteRow>, name: string)
    ensures var r := Serving(rows, name);
      && (forall s :: s in r ==>
            (ServesName(s.keyPoints, name) && exists row :: row in rows && RawMatches(row, name) && s == ServingOf(row)))
      && (forall i, j :: 0 <= i < j < |r| ==> StrLe(r[i].name, r[j].name))
  {
    var cands := Candidates(rows, name);
    CandidatesSpec(rows, name);
    ServedSpec(cands, name);
  }

  /** When every prefiltered row parses, no row that serves the name is missing. */
  lemma ServingComplete(rows: seq<RouteRow>, name: string)
    requires forall row :: row in rows && RawMatches(row, name) ==> !Unparsable(row)
    ensures forall row :: row in rows && RawMatches(row, name) && ServesName(Parsed(row), name) ==>
      ServingOf(row) in Serving(rows, name)
  {
    var cands := Candidates(rows, name);
    CandidatesSpec(rows, name);
    ServedSpec(cands, name);
    forall row | row in rows && RawMatches(row, name) && ServesName(Parsed(row), name)
      ensures ServingOf(row) in Serving(rows, name)
    {
      var i :| 0 <= i < |cands| && cands[i] == row;
    }
  }

  lemma ServedStep(cands: seq<RouteRow>, name: string, i: nat)
    requires i < |cands|
    ensures Served(cands[..i + 1], name)
      == Served(cands[..i], name) + (if ServesName(Parsed(cands[i]), name) then [ServingOf(cands[i])] else [])
  {
    assert cands[..i + 1][..i] == cands[..i];
  }

  /** One row of the loop: `failed` when its key points do not parse, else
      the entry it contributes. */
  method ServeRow(row: RouteRow, name: string) returns (failed: bool, entry: seq<ServingRoute>)
    ensures failed == Unparsable(row)
    ensures !failed ==> entry == if ServesName(Parsed(row), name) then [ServingOf(row)] else []
  {
    if Unparsable(row) {
      return true, [];
    }
    var keyPoints := Parsed(row);
    var locationFound := ServesName(keyPoints, name);
    entry := [];
    if locationFound {
      entry := [ServingRoute(row.id, row.name, row.startArea, row.endArea, keyPoints, row.fare, row.notes)];
    }
    failed := false;
  }

  /** The loop of `get_routes_serving_location` over the fetched rows. */
  method ServeRows(fetched: seq<RouteRow>, name: string) returns (failed: bool, results: seq<ServingRoute>)
    ensures failed == exists i :: 0 <= i < |fetched| && Unparsable(fetched[i])
    ensures !failed ==> results == Served(fetched, name)
  {
    results := [];
    assert Served(fetched[..0], name) == [];
    for i := 0 to |fetched|
      invariant forall j :: 0 <= j < i ==> !Unparsable(fetched[j])
      invariant results == Served(fetched[..i], name)
    {
      ServedStep(fetched, name, i);
      var rowFailed, entry := ServeRow(fetched[i], name);
      if rowFailed {
        return true, [];
      }
      results := results + entry;
    }
    assert fetched[..|fetched|] == fetched;
    failed := false;
  }

  /** `get_routes_serving_location`: the prefiltered rows in name order, each
      parsed and kept when a string key point contains the name. */
  method GetRoutesServingLocation(rows: seq<RouteRow>, name: string) returns (results: seq<ServingRoute>)
    ensures results == Serving(rows, name)
  {
    var fetched := Candidates(rows, name);
    var failed;
    failed, results := ServeRows(fetched, name);
    if failed {
      return [];
    }
  }

  // ---------------------------------------------------------------------
  // find_route_connections
  // ---------------------------------------------------------------------

  /** A connection as the lookup reports it, with both route names joined in. */
  datatype Connection = Connection(point: string, walkingTime: Option<int>, notes: Option<string>,
                                   fromRouteName: string, toRouteName: string)

  /** The `WHERE` clause: the row links the two routes, in either direction. */
  predicate Links(c: ConnectionRow, a: int, b: int) {
    (c.fromRoute == a && c.toRoute == b) || (c.fromRoute == b && c.toRoute == a)
  }

  /** The join with `routes r2 ON rc.to_route_id = r2.id` for a fixed `r1`. */
  function JoinTo(c: ConnectionRow, fromName: string, routes: seq<RouteRow>): seq<Connection> {
    if routes == [] then []
    else
      var r2 := routes[|routes| - 1];
      JoinTo(c, fromName, routes[..|routes| - 1])
        + (if r2.id == c.toRoute then [Connection(c.point, c.walkingTime, c.notes, fromName, r2.name)] else [])
  }

  /** The join with `routes r1 ON rc.from_route_id = r1.id`, then `r2`. */
  function JoinFrom(c: ConnectionRow, r1s: seq<RouteRow>, routes: seq<RouteRow>): seq<Connection> {
    if r1s == [] then []
    else
      var r1 := r1s[|r1s| - 1];
      JoinFrom(c, r1s[..|r1s| - 1], routes) + (if r1.id == c.fromRoute then JoinTo(c, r1.name, routes) else [])
  }

  /** `find_route_connections(a, b)` as a value, joined row by row in table order. */
  function Connections(conns: seq<ConnectionRow>, routes: seq<RouteRow>, a: int, b: int): seq<Connection> {
    if conns == [] then []
    else
      var c := conns[|conns| - 1];
      Connections(conns[..|conns| - 1], routes, a, b) + (if Links(c, a, b) then JoinFrom(c, routes, routes) else [])
  }

  /** The lookup is symmetric in its two route ids. */
  lemma {:induction false} ConnectionsSymmetric(conns: seq<ConnectionRow>, routes: seq<RouteRow>, a: int, b: int)
    ensures Connections(conns, routes, a, b) == Connections(conns, routes, b, a)
  {
    if conns != [] {
      ConnectionsSymmetric(conns[..|conns| - 1], routes, a, b);
    }
  }

  /** Every connection found is the join of a row linking the two routes. */
  lemma {:induction false} ConnectionsSound(conns: seq<ConnectionRow>, routes: seq<RouteRow>, a: int, b: int)
    ensures forall x :: x in Connections(conns, routes, a, b) ==>
      exists c :: c in conns && Links(c, a, b) && x in JoinFrom(c, routes, routes)
  {
    if conns != [] {
      var init := conns[..|conns| - 1];
      ConnectionsSound(init, routes, a, b);
      forall x | x in Connections(conns, routes, a, b)
        ensures exists c :: c in conns && Links(c, a, b) && x in JoinFrom(c, routes, routes)
      {
        if x in Connections(init, routes, a, b) {
          var c :| c in init && Links(c, a, b) && x in JoinFrom(c, routes, routes);
          assert c in conns;
        } else {
          assert conns[|conns| - 1] in conns;
        }
      }
    }
  }

  /** The join of one connection row. */
  method JoinConnection(c: ConnectionRow, routes: seq<RouteRow>) returns (joined: seq<Connection>)
    ensures joined == JoinFrom(c, routes, routes)
  {
    joined := [];
    for i := 0 to |routes|
      invariant joined == JoinFrom(c, routes[..i], routes)
    {
      var r1 := routes[i];
      assert routes[..i + 1][..i] == routes[..i];
      if r1.id == c.fromRoute {
        ghost var before := joined;
        for j := 0 to |routes|
          invariant joined == before + JoinTo(c, r1.name, routes[..j])
        {
          var r2 := routes[j];
          assert routes[..j + 1][..j] == routes[..j];
          if r2.id == c.toRoute {
            joined := joined + [Connection(c.point, c.walkingTime, c.notes, r1.name, r2.name)];
          }
        }
        assert routes[..|routes|] == routes;
      }
    }
    assert routes[..|routes|] == routes;
  }

  /** `find_route_connections`: the rows matching either direction, joined. */
  method FindRouteConnections(db: Snapshot, fromRoute: int, toRoute: int) returns (results: seq<Connection>)
    ensures results == Connections(db.connections, db.routes, fromRoute, toRoute)
  {
    results := [];
    for i := 0 to |db.connections|
      invariant results == Connections(db.connections[..i], db.routes, fromRoute, toRoute)
    {
      var c := db.connections[i];
      assert db.connections[..i + 1][..i] == db.connections[..i];
      if (c.fromRoute == fromRoute && c.toRoute == toRoute) || (c.fromRoute == toRoute && c.toRoute == fromRoute) {
        var joined := JoinConnection(c, db.routes);
        results := results + joined;
      }
    }
    assert db.connections[..|db.connections|] == db.connections;
  }

  // ---------------------------------------------------------------------
  // find_best_route_with_transfers
  // ---------------------------------------------------------------------

  /** How many location matches each endpoint search asks for. */
  const CandidateLimit: int := 5

  /** Every key point is a string, so `point.lower()` does not raise. */
  predicate AllStr(points: seq<Point>) {
    forall k :: 0 <= k < |points| ==> points[k].Str?
  }

  /** The stop contains the name, case-insensitively. */
  predicate PointHas(p: Point, name: string) {
    p.Str? && Contains(Lower(p.text), Lower(name))
  }

  /** The indices of the stops containing the name, in increasing order. */
  function MatchIndices(points: seq<Point>, name: string): (r: seq<nat>)
    ensures forall i :: i in r <==> 0 <= i < |points| && PointHas(points[i], name)
  {
    if points == [] then []
    else MatchIndices(points[..|points| - 1], name) + (if PointHas(points[|points| - 1], name) then [|points| - 1] else [])
  }

  /** Some stop containing `s` lies strictly before some stop containing `e`. */
  predicate InOrder(points: seq<Point>, s: string, e: string) {
    exists i, j :: 0 <= i < j < |points| && PointHas(points[i], s) && PointHas(points[j], e)
  }

  /** Some start index is below some end index (the source's index test). */
  predicate IndicesInOrder(si: seq<nat>, ei: seq<nat>) {
    |si| > 0 && |ei| > 0 && exists x, y :: 0 <= x < |si| && 0 <= y < |ei| && si[x] < ei[y]
  }

  /** The index test succeeds exactly when the stops are in order. */
  lemma InOrderIndices(points: seq<Point>, s: string, e: string)
    ensures IndicesInOrder(MatchIndices(points, s), MatchIndices(points, e)) <==> InOrder(points, s, e)
  {
    var si := MatchIndices(points, s);
    var ei := MatchIndices(points, e);
    if InOrder(points, s, e) {
      var i, j :| 0 <= i < j < |points| && PointHas(points[i], s) && PointHas(points[j], e);
      assert i in si && j in ei;
      var x :| 0 <= x < |si| && si[x] == i;
      var y :| 0 <= y < |ei| && ei[y] == j;
      assert si[x] < ei[y];
      assert IndicesInOrder(si, ei);
    }
    if IndicesInOrder(si, ei) {
      var x, y :| 0 <= x < |si| && 0 <= y < |ei| && si[x] < ei[y];
      var i, j := si[x], ei[y];
      assert i in si && j in ei;
      assert 0 <= i < j < |points| && PointHas(points[i], s) && PointHas(points[j], e);
    }
  }

  datatype DirectEntry = DirectEntry(route: ServingRoute, startLocation: LocationResult, endLocation: LocationResult)

  datatype TransferEntry = TransferEntry(startRoute: ServingRoute, endRoute: ServingRoute, connection: Connection,
                                         startLocation: LocationResult, endLocation: LocationResult)

  /** The structured outcome of `find_best_route_with_transfers` (messages
      are not modelled). `KeyPointTypeError` is the exception raised when a
      compared route has a key point that is not a string. */
  datatype TripResult =
    | NoLocationsFound
    | DirectRouteFound(direct: seq<DirectEntry>)
    | TransferRouteFound(transfers: seq<TransferEntry>)
    | NoRouteFound(startLocations: seq<LocationResult>, endLocations: seq<LocationResult>)
    | KeyPointTypeError

  /** A same-route pair whose stops cannot all be lower-cased. */
  predicate BadPair(sr: ServingRoute, er: ServingRoute) {
    sr.id == er.id && !AllStr(sr.keyPoints)
  }

  predicate AnyBadPair(srs: seq<ServingRoute>, ers: seq<ServingRoute>) {
    exists a, b :: 0 <= a < |srs| && 0 <= b < |ers| && BadPair(srs[a], ers[b])
  }

  /** A same-route pair whose stops are in order. */
  predicate DirectPair(sr: ServingRoute, er: ServingRoute, sl: LocationResult, el: LocationResult) {
    sr.id == er.id && InOrder(sr.keyPoints, sl.name, el.name)
  }

  function DirectWith(sr: ServingRoute, ers: seq<ServingRoute>, sl: LocationResult, el: LocationResult): seq<DirectEntry> {
    if ers == [] then []
    else DirectWith(sr, ers[..|ers| - 1], sl, el) + (if DirectPair(sr, ers[|ers| - 1], sl, el) then [DirectEntry(sr, sl, el)] else [])
  }

  /** The direct entries of the nested loop, in loop order. */
  function Directs(srs: seq<ServingRoute>, ers: seq<ServingRoute>, sl: LocationResult, el: LocationResult): seq<DirectEntry> {
    if srs == [] then []
    else Directs(srs[..|srs| - 1], ers, sl, el) + DirectWith(srs[|srs| - 1], ers, sl, el)
  }

  /** One transfer entry per connection record, in order. */
  function TransferEntries(sr: ServingRoute, er: ServingRoute, cs: seq<Connection>, sl: LocationResult, el: LocationResult)
    : (r: seq<TransferEntry>)
    ensures |r| == |cs|
  {
    seq(|cs|, i requires 0 <= i < |cs| => TransferEntry(sr, er, cs[i], sl, el))
  }

  function TransfersWith(db: Snapshot, sr: ServingRoute, ers: seq<ServingRoute>, sl: LocationResult, el: LocationResult)
    : seq<TransferEntry>
  {
    if ers == [] then []
    else
      var er := ers[|ers| - 1];
      TransfersWith(db, sr, ers[..|ers| - 1], sl, el)
        + (if sr.id != er.id then TransferEntries(sr, er, Connections(db.connections, db.routes, sr.id, er.id), sl, el) else [])
  }

  /** The transfer entries of the nested loop, in loop order. */
  function Transfers(db: Snapshot, srs: seq<ServingRoute>, ers: seq<ServingRoute>, sl: LocationResult, el: LocationResult)
    : seq<TransferEntry>
  {
    if srs == [] then []
    else Transfers(db, srs[..|srs| - 1], ers, sl, el) + TransfersWith(db, srs[|srs| - 1], ers, sl, el)
  }

  /** The route search between the first-ranked start and end locations. */
  function RoutesBetween(db: Snapshot, sl: LocationResult, el: LocationResult,
                         sls: seq<LocationResult>, els: seq<LocationResult>): (r: TripResult)
    ensures !r.NoLocationsFound?
  {
    var srs := Serving(db.routes, sl.name);
    var ers := Serving(db.routes, el.name);
    if AnyBadPair(srs, ers) then KeyPointTypeError
    else if Directs(srs, ers, sl, el) != [] then TripResult.DirectRouteFound(Directs(srs, ers, sl, el))
    else if Transfers(db, srs, ers, sl, el) != [] then TransferRouteFound(Transfers(db, srs, ers, sl, el))
    else TripResult.NoRouteFound(sls, els)
  }

  /** `find_best_route_with_transfers(start, end)` as a value. */
  function Trip(db: Snapshot, start: string, end: string): TripResult {
    var sls := SearchLocations(db.locations, start, CandidateLimit);
    var els := SearchLocations(db.locations, end, CandidateLimit);
    if sls == [] || els == [] then NoLocationsFound
    else RoutesBetween(db, sls[0], els[0], sls, els)
  }

  /** Each direct entry is a route of the start list whose id is on the end
      list and whose stops are in order, with the two chosen locations; there
      is none only if no same-route pair is in order. */
  lemma {:induction false} DirectWithSpec(sr: ServingRoute, ers: seq<ServingRoute>, sl: LocationResult, el: LocationResult)
    ensures forall d :: d in DirectWith(sr, ers, sl, el) ==>
      d == DirectEntry(sr, sl, el) && exists b :: 0 <= b < |ers| && DirectPair(sr, ers[b], sl, el)
    ensures DirectWith(sr, ers, sl, el) == [] <==> forall b :: 0 <= b < |ers| ==> !DirectPair(sr, ers[b], sl, el)
  {
    if ers != [] {
      var init := ers[..|ers| - 1];
      DirectWithSpec(sr, init, sl, el);
      forall d | d in DirectWith(sr, ers, sl, el)
        ensures d == DirectEntry(sr, sl, el) && exists b :: 0 <= b < |ers| && DirectPair(sr, ers[b], sl, el)
      {
        if d in DirectWith(sr, init, sl, el) {
          var b :| 0 <= b < |init| && DirectPair(sr, init[b], sl, el);
          assert ers[b] == init[b];
        }
      }
      if forall b :: 0 <= b < |ers| ==> !DirectPair(sr, ers[b], sl, el) {
        assert forall b :: 0 <= b < |init| ==> init[b] == ers[b];
      }
    }
  }

  lemma {:induction false} DirectsSound(srs: seq<ServingRoute>, ers: seq<ServingRoute>, sl: LocationResult, el: LocationResult)
    ensures forall d :: d in Directs(srs, ers, sl, el) ==>
      d.startLocation == sl && d.endLocation == el && d.route in srs &&
      exists b :: 0 <= b < |ers| && DirectPair(d.route, ers[b], sl, el)
  {
    if srs != [] {
      var init := srs[..|srs| - 1];
      DirectsSound(init, ers, sl, el);
      DirectWithSpec(srs[|srs| - 1], ers, sl, el);
      forall d | d in Directs(init, ers, sl, el)
        ensures d.route in srs
      {
        assert d.route in init;
      }
    }
  }

  lemma {:induction false} DirectsEmpty(srs: seq<ServingRoute>, ers: seq<ServingRoute>, sl: LocationResult, el: LocationResult)
    ensures Directs(srs, ers, sl, el) == [] <==>
      forall a, b :: 0 <= a < |srs| && 0 <= b < |ers| ==> !DirectPair(srs[a], ers[b], sl, el)
  {
    if srs != [] {
      var init := srs[..|srs| - 1];
      DirectsEmpty(init, ers, sl, el);
      DirectWithSpec(srs[|srs| - 1], ers, sl, el);
      assert forall a :: 0 <= a < |init| ==> init[a] == srs[a];
    }
  }

  /** Each transfer entry pairs a start-list route with an end-list route of a
      different id through a connection record between the two, with the two
      chosen locations; and every such route pair and connection is there. */
  lemma {:induction false} TransfersWithSpec(db: Snapshot, sr: ServingRoute, ers: seq<ServingRoute>, sl: LocationResult, el: LocationResult)
    ensures forall t :: t in TransfersWith(db, sr, ers, sl, el) ==>
      t.startRoute == sr && t.endRoute in ers && t.startRoute.id != t.endRoute.id &&
      t.connection in Connections(db.connections, db.routes, sr.id, t.endRoute.id) &&
      t.startLocation == sl && t.endLocation == el
    ensures forall b, c :: 0 <= b < |ers| && sr.id != ers[b].id && c in Connections(db.connections, db.routes, sr.id, ers[b].id) ==>
      TransferEntry(sr, ers[b], c, sl, el) in TransfersWith(db, sr, ers, sl, el)
  {
    if ers != [] {
      var init := ers[..|ers| - 1];
      var er := ers[|ers| - 1];
      TransfersWithSpec(db, sr, init, sl, el);
      var cs := Connections(db.connections, db.routes, sr.id, er.id);
      forall t | t in TransfersWith(db, sr, ers, sl, el)
        ensures t.startRoute == sr && t.endRoute in ers && t.startRoute.id != t.endRoute.id &&
          t.connection in Connections(db.connections, db.routes, sr.id, t.endRoute.id) &&
          t.startLocation == sl && t.endLocation == el
      {
        if t in TransfersWith(db, sr, init, sl, el) {
          assert t.endRoute in init;
        } else {
          var i :| 0 <= i < |cs| && TransferEntries(sr, er, cs, sl, el)[i] == t;
        }
      }
      forall b, c | 0 <= b < |ers| && sr.id != ers[b].id && c in Connections(db.connections, db.routes, sr.id, ers[b].id)
        ensures TransferEntry(sr, ers[b], c, sl, el) in TransfersWith(db, sr, ers, sl, el)
      {
        if b < |init| {
          assert ers[b] == init[b];
        } else {
          var i :| 0 <= i < |cs| && cs[i] == c;
          assert TransferEntries(sr, er, cs, sl, el)[i] == TransferEntry(sr, ers[b], c, sl, el);
        }
      }
    }
  }

  lemma {:induction false} TransfersSpec(db: Snapshot, srs: seq<ServingRoute>, ers: seq<ServingRoute>, sl: LocationResult, el: LocationResult)
    ensures forall t :: t in Transfers(db, srs, ers, sl, el) ==>
      t.startRoute in srs && t.endRoute in ers && t.startRoute.id != t.endRoute.id &&
      t.connection in Connections(db.connections, db.routes, t.startRoute.id, t.endRoute.id) &&
      t.startLocation == sl && t.endLocation == el
    ensures forall a, b, c :: (0 <= a < |srs| && 0 <= b < |ers| && srs[a].id != ers[b].id &&
      c in Connections(db.connections, db.routes, srs[a].id, ers[b].id)) ==>
      TransferEntry(srs[a], ers[b], c, sl, el) in Transfers(db, srs, ers, sl, el)
  {
    if srs != [] {
      var init := srs[..|srs| - 1];
      var sr := srs[|srs| - 1];
      TransfersSpec(db, init, ers, sl, el);
      TransfersWithSpec(db, sr, ers, sl, el);
      forall t | t in Transfers(db, srs, ers, sl, el)
        ensures t.startRoute in srs && t.endRoute in ers && t.startRoute.id != t.endRoute.id &&
          t.connection in Connections(db.connections, db.routes, t.startRoute.id, t.endRoute.id) &&
          t.startLocation == sl && t.endLocation == el
      {
        if t in Transfers(db, init, ers, sl, el) {
          assert t.startRoute in init;
        }
      }
      forall a, b, c | 0 <= a < |srs| && 0 <= b < |ers| && srs[a].id != ers[b].id &&
        c in Connections(db.connections, db.routes, srs[a].id, ers[b].id)
        ensures TransferEntry(srs[a], ers[b], c, sl, el) in Transfers(db, srs, ers, sl, el)
      {
        if a < |init| {
          assert srs[a] == init[a];
        }
      }
    }
  }

  /** `no_locations_found` exactly when either location search is empty. */
  lemma TripNoLocations(db: Snapshot, start: string, end: string)
    ensures Trip(db, start, end) == NoLocationsFound <==>
      SearchLocations(db.locations, start, CandidateLimit) == [] || SearchLocations(db.locations, end, CandidateLimit) == []
  {
  }

  /** A direct answer uses only the first-ranked location of each search, and
      each of its routes serves both places with the start stop strictly
      before the end stop. */
  lemma TripDirect(db: Snapshot, start: string, end: string)
    requires Trip(db, start, end).DirectRouteFound?
    ensures var sl := SearchLocations(db.locations, start, CandidateLimit)[0];
      var el := SearchLocations(db.locations, end, CandidateLimit)[0];
      var ers := Serving(db.routes, el.name);
      && Trip(db, start, end).direct != []
      && forall d :: d in Trip(db, start, end).direct ==>
           && d.startLocation == sl && d.endLocation == el
           && d.route in Serving(db.routes, sl.name)
           && (exists b :: 0 <= b < |ers| && ers[b].id == d.route.id)
           && InOrder(d.route.keyPoints, sl.name, el.name)
  {
    var sl := SearchLocations(db.locations, start, CandidateLimit)[0];
    var el := SearchLocations(db.locations, end, CandidateLimit)[0];
    DirectsSound(Serving(db.routes, sl.name), Serving(db.routes, el.name), sl, el);
  }

  /** Transfers are only searched when no same-route pair has its stops in
      order; each transfer entry links routes of different ids through a
      connection record between them, and every such record gives an entry. */
  lemma TripTransfer(db: Snapshot, start: string, end: string)
    requires Trip(db, start, end).TransferRouteFound?
    ensures var sl := SearchLocations(db.locations, start, CandidateLimit)[0];
      var el := SearchLocations(db.locations, end, CandidateLimit)[0];
      var srs := Serving(db.routes, sl.name);
      var ers := Serving(db.routes, el.name);
      && (forall a, b :: 0 <= a < |srs| && 0 <= b < |ers| ==> !DirectPair(srs[a], ers[b], sl, el))
      && (forall t :: t in Trip(db, start, end).transfers ==>
            && t.startLocation == sl && t.endLocation == el
            && t.startRoute in srs && t.endRoute in ers && t.startRoute.id != t.endRoute.id
            && t.connection in Connections(db.connections, db.routes, t.startRoute.id, t.endRoute.id))
      && (forall a, b, c :: (0 <= a < |srs| && 0 <= b < |ers| && srs[a].id != ers[b].id &&
            c in Connections(db.connections, db.routes, srs[a].id, ers[b].id)) ==>
            TransferEntry(srs[a], ers[b], c, sl, el) in Trip(db, start, end).transfers)
  {
    var sl := SearchLocations(db.locations, start, CandidateLimit)[0];
    var el := SearchLocations(db.locations, end, CandidateLimit)[0];
    var srs := Serving(db.routes, sl.name);
    var ers := Serving(db.routes, el.name);
    DirectsEmpty(srs, ers, sl, el);
    TransfersSpec(db, srs, ers, sl, el);
  }

  /** `no_route_found` carries both candidate lists, each at most five long. */
  lemma TripNoRoute(db: Snapshot, start: string, end: string)
    requires Trip(db, start, end).NoRouteFound?
    ensures Trip(db, start, end).startLocations == SearchLocations(db.locations, start, CandidateLimit)
    ensures Trip(db, start, end).endLocations == SearchLocations(db.locations, end, CandidateLimit)
    ensures 0 < |Trip(db, start, end).startLocations| <= 5 && 0 < |Trip(db, start, end).endLocations| <= 5
  {
    SearchLocationsSpec(db.locations, start, CandidateLimit);
    SearchLocationsSpec(db.locations, end, CandidateLimit);
  }

  lemma DirectWithStep(sr: ServingRoute, ers: seq<ServingRoute>, sl: LocationResult, el: LocationResult, b: nat)
    requires b < |ers|
    ensures DirectWith(sr, ers[..b + 1], sl, el)
      == DirectWith(sr, ers[..b], sl, el) + (if DirectPair(sr, ers[b], sl, el) then [DirectEntry(sr, sl, el)] else [])
  {
    assert ers[..b + 1][..b] == ers[..b];
  }

  lemma DirectsStep(srs: seq<ServingRoute>, ers: seq<ServingRoute>, sl: LocationResult, el: LocationResult, a: nat)
    requires a < |srs|
    ensures Directs(srs[..a + 1], ers, sl, el) == Directs(srs[..a], ers, sl, el) + DirectWith(srs[a], ers, sl, el)
  {
    assert srs[..a + 1][..a] == srs[..a];
  }

  /** One pair of the direct-route loop: `bad` when the same route has a key
      point that is not a string, else `hit` when its stops are in order. */
  method CompareRoutes(sr: ServingRoute, er: ServingRoute, sl: LocationResult, el: LocationResult)
    returns (bad: bool, hit: bool)
    ensures bad == BadPair(sr, er)
    ensures !bad ==> hit == DirectPair(sr, er, sl, el)
  {
    bad, hit := false, false;
    if sr.id == er.id {
      var keyPoints := sr.keyPoints;
      if !AllStr(keyPoints) {
        return true, false;
      }
      var startIndices := MatchIndices(keyPoints, sl.name);
      var endIndices := MatchIndices(keyPoints, el.name);
      InOrderIndices(keyPoints, sl.name, el.name);
      if |startIndices| > 0 && |endIndices| > 0 {
        hit := exists x, y :: 0 <= x < |startIndices| && 0 <= y < |endIndices| && startIndices[x] < endIndices[y];
        assert hit == IndicesInOrder(startIndices, endIndices);
      }
    }
  }

  /** The inner direct-route loop for one start route. */
  method DirectWithEnds(acc: seq<DirectEntry>, sr: ServingRoute, ers: seq<ServingRoute>, sl: LocationResult, el: LocationResult)
    returns (failed: bool, direct: seq<DirectEntry>)
    ensures failed == exists b :: 0 <= b < |ers| && BadPair(sr, ers[b])
    ensures !failed ==> direct == acc + DirectWith(sr, ers, sl, el)
  {
    direct := acc;
    for b := 0 to |ers|
      invariant forall b' :: 0 <= b' < b ==> !BadPair(sr, ers[b'])
      invariant direct == acc + DirectWith(sr, ers[..b], sl, el)
    {
      DirectWithStep(sr, ers, sl, el, b);
      var bad, hit := CompareRoutes(sr, ers[b], sl, el);
      if bad {
        return true, [];
      }
      if hit {
        direct := direct + [DirectEntry(sr, sl, el)];
      }
    }
    assert ers[..|ers|] == ers;
    failed := false;
  }

  /** The direct-route loop: `failed` when a compared route has a key point
      that is not a string, else the direct entries. */
  method CollectDirect(srs: seq<ServingRoute>, ers: seq<ServingRoute>, sl: LocationResult, el: LocationResult)
    returns (failed: bool, direct: seq<DirectEntry>)
    ensures failed == AnyBadPair(srs, ers)
    ensures !failed ==> direct == Directs(srs, ers, sl, el)
  {
    direct := [];
    for a := 0 to |srs|
      invariant forall a', b' :: 0 <= a' < a && 0 <= b' < |ers| ==> !BadPair(srs[a'], ers[b'])
      invariant direct == Directs(srs[..a], ers, sl, el)
    {
      DirectsStep(srs, ers, sl, el, a);
      failed, direct := DirectWithEnds(direct, srs[a], ers, sl, el);
      if failed {
        var b :| 0 <= b < |ers| && BadPair(srs[a], ers[b]);
        return true, [];
      }
    }
    assert srs[..|srs|] == srs;
    failed := false;
  }

  lemma TransfersWithStep(db: Snapshot, sr: ServingRoute, ers: seq<ServingRoute>, sl: LocationResult, el: LocationResult, b: nat)
    requires b < |ers|
    ensures TransfersWith(db, sr, ers[..b + 1], sl, el)
      == TransfersWith(db, sr, ers[..b], sl, el)
         + (if sr.id != ers[b].id then TransferEntries(sr, ers[b], Connections(db.connections, db.routes, sr.id, ers[b].id), sl, el) else [])
  {
    assert ers[..b + 1][..b] == ers[..b];
  }

  lemma TransfersStep(db: Snapshot, srs: seq<ServingRoute>, ers: seq<ServingRoute>, sl: LocationResult, el: LocationResult, a: nat)
    requires a < |srs|
    ensures Transfers(db, srs[..a + 1], ers, sl, el) == Transfers(db, srs[..a], ers, sl, el) + TransfersWith(db, srs[a], ers, sl, el)
  {
    assert srs[..a + 1][..a] == srs[..a];
  }

  /** The entries for one route pair: one per connection record, in order. */
  method AddTransfers(transfers: seq<TransferEntry>, sr: ServingRoute, er: ServingRoute, connections: seq<Connection>,
                      sl: LocationResult, el: LocationResult) returns (r: seq<TransferEntry>)
    ensures r == transfers + TransferEntries(sr, er, connections, sl, el)
  {
    r := transfers;
    for c := 0 to |connections|
      invariant r == transfers + TransferEntries(sr, er, connections[..c], sl, el)
    {
      r := r + [TransferEntry(sr, er, connections[c], sl, el)];
      assert TransferEntries(sr, er, connections[..c + 1], sl, el)
          == TransferEntries(sr, er, connections[..c], sl, el) + [TransferEntry(sr, er, connections[c], sl, el)];
    }
    assert connections[..|connections|] == connections;
  }

  /** The inner transfer loop for one start route. */
  method TransfersWithEnds(acc: seq<TransferEntry>, db: Snapshot, sr: ServingRoute, ers: seq<ServingRoute>,
                           sl: LocationResult, el: LocationResult) returns (transfers: seq<TransferEntry>)
    ensures transfers == acc + TransfersWith(db, sr, ers, sl, el)
  {
    transfers := acc;
    for b := 0 to |ers|
      invariant transfers == acc + TransfersWith(db, sr, ers[..b], sl, el)
    {
      var er := ers[b];
      TransfersWithStep(db, sr, ers, sl, el, b);
      if sr.id != er.id {
        var connections := FindRouteConnections(db, sr.id, er.id);
        transfers := AddTransfers(transfers, sr, er, connections, sl, el);
      }
    }
    assert ers[..|ers|] == ers;
  }

  /** The transfer loop over all route pairs with different ids. */
  method CollectTransfers(db: Snapshot, srs: seq<ServingRoute>, ers: seq<ServingRoute>, sl: LocationResult, el: LocationResult)
    returns (transfers: seq<TransferEntry>)
    ensures transfers == Transfers(db, srs, ers, sl, el)
  {
    transfers := [];
    for a := 0 to |srs|
      invariant transfers == Transfers(db, srs[..a], ers, sl, el)
    {
      TransfersStep(db, srs, ers, sl, el, a);
      transfers := TransfersWithEnds(transfers, db, srs[a], ers, sl, el);
    }
    assert srs[..|srs|] == srs;
  }

  /** `find_best_route_with_transfers`: both searches, the first match of
      each, the direct loop, and only without direct routes the transfer loop. */
  method FindBestRouteWithTransfers(db: Snapshot, start: string, end: string) returns (result: TripResult)
    ensures result == Trip(db, start, end)
  {
    var startLocations := SearchLocationsByName(db.locations, start, CandidateLimit);
    var endLocations := SearchLocationsByName(db.locations, end, CandidateLimit);
    if |startLocations| == 0 || |endLocations| == 0 {
      return NoLocationsFound;
    }
    var startLoc := startLocations[0];
    var endLoc := endLocations[0];
    assert Trip(db, start, end) == RoutesBetween(db, startLoc, endLoc, startLocations, endLocations);
    var startRoutes := GetRoutesServingLocation(db.routes, startLoc.name);
    var endRoutes := GetRoutesServingLocation(db.routes, endLoc.name);
    var failed, directRoutes := CollectDirect(startRoutes, endRoutes, startLoc, endLoc);
    if failed {
      return KeyPointTypeError;
    }
    if |directRoutes| > 0 {
      return TripResult.DirectRouteFound(directRoutes);
    }
    var transferRoutes := CollectTransfers(db, startRoutes, endRoutes, startLoc, endLoc);
    if |transferRoutes| > 0 {
      return TransferRouteFound(transferRoutes);
    }
    return TripResult.NoRouteFound(startLocations, endLocations);
  }
}
