/** Turning a product version's point sets into the point mappings of an edge's package, and the
    validator's check of those mappings against the data configurations. */
module Materialize {
  import opened Text

  /** A point of a point set; `detail` stands for the fields that are copied as they are. */
  datatype Point = Point(id: string, readable: bool, detail: string)
  datatype DataConfig = DataConfig(id: string, device: string, connection: string, points: seq<string>)
  datatype Route = Route(device: string, connection: string)
  datatype Mapping = Mapping(point: Point, route: Route)

  datatype Result = Ok(mappings: seq<Mapping>) | NoConnection | Conflict(point: string) | MissingSet

  function RouteOf(c: DataConfig): Route {
    Route(c.device, c.connection)
  }

  ghost predicate Names(c: DataConfig, point: string) {
    point in c.points
  }

  /** Two configurations send one point different ways. */
  ghost predicate Conflicting(configs: seq<DataConfig>, point: string) {
    exists i, j :: 0 <= i < |configs| && 0 <= j < |configs| && Names(configs[i], point) && Names(configs[j], point) &&
                   RouteOf(configs[i]) != RouteOf(configs[j])
  }

  /** All points of the listed sets, in order. */
  function PointsOf(sets: map<string, seq<Point>>, ids: seq<string>): seq<Point>
    requires forall i :: 0 <= i < |ids| ==> ids[i] in sets
  {
    if ids == [] then [] else PointsOf(sets, ids[..|ids| - 1]) + sets[ids[|ids| - 1]]
  }

  function DefaultRoute(configs: seq<DataConfig>, connections: seq<string>, devices: seq<string>): Route
    requires configs != [] || connections != []
  {
    if configs != [] then RouteOf(configs[0])
    else Route(if devices != [] then devices[0] else "device-1", connections[0])
  }

  /** The point goes where every configuration that names it says, and by default if none does. */
  ghost predicate RoutedRight(configs: seq<DataConfig>, default: Route, m: Mapping) {
    && (forall i :: 0 <= i < |configs| && Names(configs[i], m.point.id) ==> m.route == RouteOf(configs[i]))
    && ((forall i :: 0 <= i < |configs| ==> !Names(configs[i], m.point.id)) ==> m.route == default)
  }

  // ----- the route table

  /** The table holds the points named in `done` entries, each with its configuration's route. */
  ghost predicate Table(configs: seq<DataConfig>, done: nat, inner: nat, routes: map<string, Route>)
    requires done <= |configs| && (done < |configs| ==> inner <= |configs[done].points|)
  {
    && (forall p :: p in routes ==>
         exists i :: NamedBefore(configs, done, inner, i, p) && routes[p] == RouteOf(configs[i]))
    && (forall i, p :: NamedBefore(configs, done, inner, i, p) ==> p in routes && routes[p] == RouteOf(configs[i]))
  }

  /** Configuration `i` names the point, at a place the loops have passed. */
  ghost predicate NamedBefore(configs: seq<DataConfig>, done: nat, inner: nat, i: int, p: string) {
    && 0 <= i < |configs|
    && ((i < done && Names(configs[i], p)) ||
       (i == done && inner <= |configs[i].points| && p in configs[i].points[..inner]))
  }

  lemma TableGrows(configs: seq<DataConfig>, done: nat, inner: nat, routes: map<string, Route>)
    requires done < |configs| && inner < |configs[done].points| && Table(configs, done, inner, routes)
    requires var p := configs[done].points[inner]; p in routes ==> routes[p] == RouteOf(configs[done])
    ensures Table(configs, done, inner + 1, routes[configs[done].points[inner] := RouteOf(configs[done])])
  {
    var q, c := configs[done].points[inner], configs[done];
    var next := routes[q := RouteOf(c)];
    assert c.points[..inner + 1] == c.points[..inner] + [q];
    forall i, p | NamedBefore(configs, done, inner + 1, i, p) ensures p in next && next[p] == RouteOf(configs[i]) {
      if !NamedBefore(configs, done, inner, i, p) { assert i == done && p == q; }
    }
    forall p | p in next
      ensures exists i :: NamedBefore(configs, done, inner + 1, i, p) && next[p] == RouteOf(configs[i])
    {
      if p == q {
        assert NamedBefore(configs, done, inner + 1, done, p);
      } else {
        var i :| NamedBefore(configs, done, inner, i, p) && routes[p] == RouteOf(configs[i]);
        assert NamedBefore(configs, done, inner + 1, i, p);
      }
    }
  }

  lemma TableMovesOn(configs: seq<DataConfig>, done: nat, routes: map<string, Route>)
    requires done < |configs| && Table(configs, done, |configs[done].points|, routes)
    ensures Table(configs, done + 1, 0, routes)
  {
    var c := configs[done];
    assert c.points[..|c.points|] == c.points;
    forall i, p ensures NamedBefore(configs, done, |c.points|, i, p) <==> NamedBefore(configs, done + 1, 0, i, p) {
      if i == done + 1 && i < |configs| { assert configs[i].points[..0] == []; }
    }
    forall p | p in routes
      ensures exists i :: NamedBefore(configs, done + 1, 0, i, p) && routes[p] == RouteOf(configs[i])
    {
      var i :| NamedBefore(configs, done, |c.points|, i, p) && routes[p] == RouteOf(configs[i]);
      assert NamedBefore(configs, done + 1, 0, i, p);
    }
  }

  /** The route of every named point, or the first point found with two routes. */
  method CollectRoutes(configs: seq<DataConfig>) returns (routes: map<string, Route>, conflict: Option<string>)
    ensures conflict.Some? ==> Conflicting(configs, conflict.value)
    ensures conflict.None? ==> Table(configs, |configs|, 0, routes)
  {
    routes := map[];
    for done := 0 to |configs|
      invariant Table(configs, done, 0, routes)
    {
      var c := configs[done];
      for inner := 0 to |c.points|
        invariant Table(configs, done, inner, routes)
      {
        var p := c.points[inner];
        if p in routes && routes[p] != RouteOf(c) {
          ghost var i :| NamedBefore(configs, done, inner, i, p) && routes[p] == RouteOf(configs[i]);
          assert Names(configs[done], p) && Names(configs[i], p);
          return routes, Some(p);
        }
        TableGrows(configs, done, inner, routes);
        routes := routes[p := RouteOf(c)];
      }
      TableMovesOn(configs, done, routes);
    }
    return routes, None;
  }

  lemma TableMeansNoConflict(configs: seq<DataConfig>, routes: map<string, Route>, p: string)
    requires Table(configs, |configs|, 0, routes)
    ensures !Conflicting(configs, p)
    ensures forall i :: 0 <= i < |configs| && Names(configs[i], p) ==> p in routes && routes[p] == RouteOf(configs[i])
    ensures p in routes ==> exists i :: 0 <= i < |configs| && Names(configs[i], p)
  {
    forall i | 0 <= i < |configs| && Names(configs[i], p) ensures p in routes && routes[p] == RouteOf(configs[i]) {
      assert NamedBefore(configs, |configs|, 0, i, p);
    }
    if p in routes {
      var i :| NamedBefore(configs, |configs|, 0, i, p) && routes[p] == RouteOf(configs[i]);
      assert Names(configs[i], p);
    }
  }

  // ----- the mappings

  ghost predicate IsMaterialized(configs: seq<DataConfig>, default: Route, points: seq<Point>, mappings: seq<Mapping>) {
    && |mappings| == |points|
    && forall k :: 0 <= k < |points| ==> mappings[k].point == points[k] && RoutedRight(configs, default, mappings[k])
  }

  lemma OneMoreMapping(configs: seq<DataConfig>, default: Route, points: seq<Point>, mappings: seq<Mapping>, m: Mapping)
    requires IsMaterialized(configs, default, points, mappings) && RoutedRight(configs, default, m)
    ensures IsMaterialized(configs, default, points + [m.point], mappings + [m])
  {
  }

  lemma RouteFor(configs: seq<DataConfig>, default: Route, routes: map<string, Route>, point: Point)
    requires Table(configs, |configs|, 0, routes)
    ensures RoutedRight(configs, default, Mapping(point, if point.id in routes then routes[point.id] else default))
  {
    TableMeansNoConflict(configs, routes, point.id);
  }

  ghost predicate AllListed(sets: map<string, seq<Point>>, ids: seq<string>) {
    forall i :: 0 <= i < |ids| ==> ids[i] in sets
  }

  /** No configuration names the mapped point. */
  ghost predicate Unnamed(configs: seq<DataConfig>, m: Mapping) {
    forall i :: 0 <= i < |configs| ==> !Names(configs[i], m.point.id)
  }

  /** A point that no configuration names goes where the first configuration goes; if there is none,
      to the first connection and the first device, or "device-1" without devices. */
  ghost predicate DefaultsRight(configs: seq<DataConfig>, connections: seq<string>, devices: seq<string>, m: Mapping) {
    Unnamed(configs, m) ==>
      if |configs| > 0 then m.route.device == configs[0].device && m.route.connection == configs[0].connection
      else
        && |connections| > 0 && m.route.connection == connections[0]
        && m.route.device == if |devices| > 0 then devices[0] else "device-1"
  }

  lemma MaterializedDefaults(configs: seq<DataConfig>, connections: seq<string>, devices: seq<string>,
                             points: seq<Point>, mappings: seq<Mapping>)
    requires configs != [] || connections != []
    requires IsMaterialized(configs, DefaultRoute(configs, connections, devices), points, mappings)
    ensures forall m :: m in mappings ==> DefaultsRight(configs, connections, devices, m)
  {
    forall m | m in mappings ensures DefaultsRight(configs, connections, devices, m) {
      var k :| 0 <= k < |mappings| && mappings[k] == m;
      assert RoutedRight(configs, DefaultRoute(configs, connections, devices), mappings[k]);
    }
  }

  /** `materialize_product_point_mappings`: MAIN: one mapping for every point of the listed sets, in
      order, routed as its configurations say; it fails exactly without a connection, on a point
      with two routes, or on an unknown point set, in this order. */
  method PointMappings(sets: map<string, seq<Point>>, ids: seq<string>, configs: seq<DataConfig>,
                       connections: seq<string>, devices: seq<string>) returns (r: Result)
    ensures r.NoConnection? <==> configs == [] && connections == []
    ensures r.Conflict? ==> Conflicting(configs, r.point)
    ensures r.Conflict? <==> (configs != [] || connections != []) && exists p :: Conflicting(configs, p)
    ensures r.MissingSet? <==>
              (configs != [] || connections != []) && (forall p :: !Conflicting(configs, p)) && !AllListed(sets, ids)
    ensures r.Ok? ==> AllListed(sets, ids)
    ensures r.Ok? ==>
              IsMaterialized(configs, DefaultRoute(configs, connections, devices), PointsOf(sets, ids), r.mappings)
    ensures r.Ok? ==> forall m :: m in r.mappings ==> DefaultsRight(configs, connections, devices, m)
  {
    hide DefaultsRight;
    if configs == [] && connections == [] { return NoConnection; }
    var default := DefaultRoute(configs, connections, devices);
    var routes, conflict := CollectRoutes(configs);
    if conflict.Some? { return Conflict(conflict.value); }
    forall p ensures !Conflicting(configs, p) { TableMeansNoConflict(configs, routes, p); }
    var mappings := [];
    for i := 0 to |ids|
      invariant AllListed(sets, ids[..i]) && IsMaterialized(configs, default, PointsOf(sets, ids[..i]), mappings)
    {
      if ids[i] !in sets { return MissingSet; }
      assert ids[..i + 1][..i] == ids[..i];
      ghost var before := PointsOf(sets, ids[..i]);
      var set_ := sets[ids[i]];
      assert before + set_[..0] == before;
      for k := 0 to |set_|
        invariant IsMaterialized(configs, default, before + set_[..k], mappings)
      {
        var point := set_[k];
        RouteFor(configs, default, routes, point);
        var m := Mapping(point, if point.id in routes then routes[point.id] else default);
        OneMoreMapping(configs, default, before + set_[..k], mappings, m);
        assert before + set_[..k] + [point] == before + set_[..k + 1];
        mappings := mappings + [m];
      }
      assert set_[..|set_|] == set_;
    }
    assert ids[..|ids|] == ids;
    MaterializedDefaults(configs, connections, devices, PointsOf(sets, ids), mappings);
    return Ok(mappings);
  }

  // ----- the validator

  datatype Problem =
    | EmptyPoint(config: string)
    | WrongDevice(config: string, point: string)
    | WrongConnection(config: string, point: string)
    | WriteOnly(config: string, point: string)
    | MissingPoint(config: string, point: string)

  /** The mapping the validator finds for a point: the last one, as later entries replace earlier. */
  function Lookup(mappings: seq<Mapping>, point: string): Option<Mapping> {
    if mappings == [] then None
    else
      var last := mappings[|mappings| - 1];
      if last.point.id == point then Some(last) else Lookup(mappings[..|mappings| - 1], point)
  }

  function PointProblems(mappings: seq<Mapping>, c: DataConfig, point: string): seq<Problem> {
    if Trim(point) == "" then [EmptyPoint(c.id)]
    else match Lookup(mappings, point)
      case None => [MissingPoint(c.id, point)]
      case Some(m) =>
        (if m.route.device != c.device then [WrongDevice(c.id, point)] else []) +
        (if m.route.connection != c.connection then [WrongConnection(c.id, point)] else []) +
        (if !m.point.readable then [WriteOnly(c.id, point)] else [])
  }

  function ConfigProblems(mappings: seq<Mapping>, c: DataConfig, n: nat): seq<Problem>
    requires n <= |c.points|
  {
    if n == 0 then [] else ConfigProblems(mappings, c, n - 1) + PointProblems(mappings, c, c.points[n - 1])
  }

  function Problems(mappings: seq<Mapping>, configs: seq<DataConfig>): seq<Problem> {
    if configs == [] then []
    else
      var c := configs[|configs| - 1];
      Problems(mappings, configs[..|configs| - 1]) + ConfigProblems(mappings, c, |c.points|)
  }

  lemma {:induction false} LookupFinds(mappings: seq<Mapping>, point: string)
    ensures Lookup(mappings, point).Some? <==> exists k :: 0 <= k < |mappings| && mappings[k].point.id == point
    ensures Lookup(mappings, point).Some? ==>
        Lookup(mappings, point).value in mappings && Lookup(mappings, point).value.point.id == point
  {
    if mappings != [] { LookupFinds(mappings[..|mappings| - 1], point); }
  }

  /** Place `k` holds the last mapping of the point. */
  predicate LastAt(mappings: seq<Mapping>, point: string, k: nat) {
    && k < |mappings| && mappings[k].point.id == point
    && forall j :: k < j < |mappings| ==> mappings[j].point.id != point
  }

  lemma {:induction false} LookupIsLast(mappings: seq<Mapping>, point: string, k: nat)
    requires LastAt(mappings, point, k)
    ensures Lookup(mappings, point) == Some(mappings[k])
  {
    var n := |mappings| - 1;
    if k < n { LookupIsLast(mappings[..n], point, k); }
  }

  lemma {:induction false} LastExists(mappings: seq<Mapping>, point: string) returns (k: nat)
    requires Lookup(mappings, point).Some?
    ensures LastAt(mappings, point, k)
  {
    k := |mappings| - 1;
    if mappings[k].point.id != point { k := LastExists(mappings[..k], point); }
  }

  /** The validator has this to say about a point of the configuration: that it is blank, that no
      mapping has it, or what is wrong with its last mapping. */
  ghost predicate PointDue(mappings: seq<Mapping>, c: DataConfig, point: string, e: Problem) {
    if Trim(point) == "" then e == EmptyPoint(c.id)
    else if forall k :: 0 <= k < |mappings| ==> mappings[k].point.id != point then e == MissingPoint(c.id, point)
    else exists k: nat :: LastAt(mappings, point, k) && MappingDue(mappings[k], c, point, e)
  }

  predicate MappingDue(m: Mapping, c: DataConfig, point: string, e: Problem) {
    || (e == WrongDevice(c.id, point) && m.route.device != c.device)
    || (e == WrongConnection(c.id, point) && m.route.connection != c.connection)
    || (e == WriteOnly(c.id, point) && !m.point.readable)
  }

  lemma PointProblemsExactly(mappings: seq<Mapping>, c: DataConfig, point: string, e: Problem)
    ensures e in PointProblems(mappings, c, point) <==> PointDue(mappings, c, point, e)
  {
    hide Trim, Lookup;
    LookupFinds(mappings, point);
    if Lookup(mappings, point).Some? {
      var k := LastExists(mappings, point);
      LookupIsLast(mappings, point, k);
      assert forall j: nat :: LastAt(mappings, point, j) ==> j == k;
    }
  }

  /** Some point of the configuration, among its first `n`, has the problem. */
  ghost predicate ConfigDue(mappings: seq<Mapping>, c: DataConfig, n: nat, e: Problem) {
    exists k :: 0 <= k < n <= |c.points| && PointDue(mappings, c, c.points[k], e)
  }

  lemma {:induction false} ConfigProblemsExactly(mappings: seq<Mapping>, c: DataConfig, n: nat, e: Problem)
    requires n <= |c.points|
    ensures e in ConfigProblems(mappings, c, n) <==> ConfigDue(mappings, c, n, e)
  {
    hide PointDue, PointProblems;
    if n > 0 {
      ConfigProblemsExactly(mappings, c, n - 1, e);
      PointProblemsExactly(mappings, c, c.points[n - 1], e);
      if ConfigDue(mappings, c, n, e) {
        var k :| 0 <= k < n && PointDue(mappings, c, c.points[k], e);
        assert k < n - 1 ==> ConfigDue(mappings, c, n - 1, e);
      }
    }
  }

  /** MAIN: the validator reports a problem exactly when a point of one of the configurations has it. */
  lemma {:induction false} ProblemsExactly(mappings: seq<Mapping>, configs: seq<DataConfig>, e: Problem)
    ensures e in Problems(mappings, configs) <==>
              exists i :: 0 <= i < |configs| && ConfigDue(mappings, configs[i], |configs[i].points|, e)
  {
    hide ConfigDue, ConfigProblems;
    if configs != [] {
      var n := |configs| - 1;
      ProblemsExactly(mappings, configs[..n], e);
      ConfigProblemsExactly(mappings, configs[n], |configs[n].points|, e);
      assert forall i :: 0 <= i < n ==> configs[..n][i] == configs[i];
    }
  }

  /** The point table of the validator, filled by a loop. */
  method IndexMappings(mappings: seq<Mapping>) returns (table: map<string, Mapping>)
    ensures Indexes(table, mappings)
  {
    table := map[];
    for i := 0 to |mappings|
      invariant Indexes(table, mappings[..i])
    {
      assert mappings[..i + 1][..i] == mappings[..i];
      table := table[mappings[i].point.id := mappings[i]];
    }
    assert mappings[..|mappings|] == mappings;
  }

  ghost predicate Indexes(table: map<string, Mapping>, mappings: seq<Mapping>) {
    forall p :: (p in table <==> Lookup(mappings, p).Some?) && (p in table ==> Lookup(mappings, p) == Some(table[p]))
  }

  method CheckPoint(table: map<string, Mapping>, ghost mappings: seq<Mapping>, c: DataConfig, point: string,
                    before: seq<Problem>)
    returns (errors: seq<Problem>)
    requires Indexes(table, mappings)
    ensures errors == before + PointProblems(mappings, c, point)
  {
    hide Trim, Lookup;
    errors := before;
    if Trim(point) == "" {
      errors := errors + [EmptyPoint(c.id)];
    } else if point in table {
      var m := table[point];
      if m.route.device != c.device { errors := errors + [WrongDevice(c.id, point)]; }
      if m.route.connection != c.connection { errors := errors + [WrongConnection(c.id, point)]; }
      if !m.point.readable { errors := errors + [WriteOnly(c.id, point)]; }
    } else {
      errors := errors + [MissingPoint(c.id, point)];
    }
  }

  method CheckConfig(table: map<string, Mapping>, ghost mappings: seq<Mapping>, c: DataConfig, before: seq<Problem>)
    returns (errors: seq<Problem>)
    requires Indexes(table, mappings)
    ensures errors == before + ConfigProblems(mappings, c, |c.points|)
  {
    hide Indexes, PointProblems;
    errors := before;
    for n := 0 to |c.points|
      invariant errors == before + ConfigProblems(mappings, c, n)
    {
      errors := CheckPoint(table, mappings, c, c.points[n], errors);
    }
  }

  /** The data configuration checks of `validate_package` that look at point mappings. */
  method CheckConfigs(mappings: seq<Mapping>, configs: seq<DataConfig>) returns (errors: seq<Problem>)
    ensures errors == Problems(mappings, configs)
  {
    var table := IndexMappings(mappings);
    hide Indexes, ConfigProblems;
    errors := [];
    for i := 0 to |configs|
      invariant errors == Problems(mappings, configs[..i])
    {
      assert configs[..i + 1][..i] == configs[..i];
      errors := CheckConfig(table, mappings, configs[i], errors);
    }
    assert configs[..|configs|] == configs;
  }

  predicate IsRouteProblem(e: Problem) {
    e.WrongDevice? || e.WrongConnection?
  }

  /** No point is on the wrong device or the wrong connection. */
  ghost predicate RoutesClean(errors: seq<Problem>) {
    forall e :: e in errors ==> !IsRouteProblem(e)
  }

  /** The configuration's points are mapped to its own route. */
  ghost predicate RoutedAs(mappings: seq<Mapping>, c: DataConfig) {
    forall m :: m in mappings && m.point.id in c.points ==> m.route == RouteOf(c)
  }

  lemma CleanConcat(a: seq<Problem>, b: seq<Problem>)
    requires RoutesClean(a) && RoutesClean(b)
    ensures RoutesClean(a + b)
  {
  }

  lemma PointHasNoRouteProblem(mappings: seq<Mapping>, c: DataConfig, point: string)
    requires point in c.points && RoutedAs(mappings, c)
    ensures RoutesClean(PointProblems(mappings, c, point))
  {
    hide Lookup, Trim;
    LookupFinds(mappings, point);
  }

  lemma {:induction false} ConfigHasNoRouteProblem(mappings: seq<Mapping>, c: DataConfig, n: nat)
    requires n <= |c.points| && RoutedAs(mappings, c)
    ensures RoutesClean(ConfigProblems(mappings, c, n))
  {
    if n > 0 {
      hide PointProblems, RoutesClean, RoutedAs;
      ConfigHasNoRouteProblem(mappings, c, n - 1);
      PointHasNoRouteProblem(mappings, c, c.points[n - 1]);
      CleanConcat(ConfigProblems(mappings, c, n - 1), PointProblems(mappings, c, c.points[n - 1]));
    }
  }

  lemma {:induction false} NoRouteProblems(mappings: seq<Mapping>, configs: seq<DataConfig>)
    requires forall i, m :: 0 <= i < |configs| && m in mappings && Names(configs[i], m.point.id) ==>
        m.route == RouteOf(configs[i])
    ensures RoutesClean(Problems(mappings, configs))
  {
    if configs != [] {
      var n := |configs| - 1;
      NoRouteProblems(mappings, configs[..n]);
      forall m | m in mappings && m.point.id in configs[n].points ensures m.route == RouteOf(configs[n]) {
        assert Names(configs[n], m.point.id);
      }
      ConfigHasNoRouteProblem(mappings, configs[n], |configs[n].points|);
      CleanConcat(Problems(mappings, configs[..n]), ConfigProblems(mappings, configs[n], |configs[n].points|));
    }
  }

  /** MAIN: whatever is materialized, the validator never finds a point on the wrong device or the
      wrong connection, and it misses a point exactly when none of the listed sets holds it. */
  lemma MaterializedPassesRouteChecks(configs: seq<DataConfig>, default: Route, points: seq<Point>,
                                      mappings: seq<Mapping>)
    requires IsMaterialized(configs, default, points, mappings)
    ensures RoutesClean(Problems(mappings, configs))
    ensures forall p :: Lookup(mappings, p).None? <==> forall k :: 0 <= k < |points| ==> points[k].id != p
  {
    forall i, m | 0 <= i < |configs| && m in mappings && Names(configs[i], m.point.id)
      ensures m.route == RouteOf(configs[i])
    {
      var k :| 0 <= k < |mappings| && mappings[k] == m;
      assert RoutedRight(configs, default, mappings[k]);
    }
    NoRouteProblems(mappings, configs);
    forall p ensures Lookup(mappings, p).None? <==> forall k :: 0 <= k < |points| ==> points[k].id != p {
      LookupFinds(mappings, p);
      assert forall k :: 0 <= k < |points| ==> mappings[k].point.id == points[k].id;
    }
  }
}
