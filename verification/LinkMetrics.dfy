/** The metrics of links, told from the tables of the records they come from (internal/otbr/client.go). */
module LinkMetrics {
  import opened Wrappers
  import opened Text
  import opened RouterLinks
  import opened Topology

  // ---------------------------------------------------------------- first in record order

  /** Whether entry `n` of a record's table speaks of a pair of routers. */
  type Speaks = (Record, nat) -> bool

  /** Position `(i, n)` has the value, and no position before it that speaks of the pair has any. */
  ghost predicate IsFirstAt<T>(records: seq<Record>, speaks: Speaks, get: (Record, nat) -> Option<T>,
                               value: Option<T>, i: nat, n: nat)
  {
    && i < |records| && FirstInRecord(records[i], speaks, get, value, n)
    && forall j :: 0 <= j < i ==> NoneInRecord(records[j], speaks, get)
  }

  ghost predicate FirstInRecord<T>(r: Record, speaks: Speaks, get: (Record, nat) -> Option<T>, value: Option<T>, n: nat)
  {
    speaks(r, n) && get(r, n) == value && forall m: nat :: m < n && speaks(r, m) ==> get(r, m).None?
  }

  ghost predicate NoneInRecord<T>(r: Record, speaks: Speaks, get: (Record, nat) -> Option<T>) {
    forall n: nat :: speaks(r, n) ==> get(r, n).None?
  }

  /** The value is that of the first entry that has one, in the order of the records and then of their entries. */
  ghost predicate IsFirstValue<T>(records: seq<Record>, speaks: Speaks, get: (Record, nat) -> Option<T>,
                                  value: Option<T>)
  {
    if value.None? then forall i :: 0 <= i < |records| ==> NoneInRecord(records[i], speaks, get)
    else exists i: nat, n: nat :: IsFirstAt(records, speaks, get, value, i, n)
  }

  /** The value of one record alone. */
  ghost predicate IsFirstOfRecord<T>(r: Record, speaks: Speaks, get: (Record, nat) -> Option<T>, value: Option<T>) {
    if value.None? then NoneInRecord(r, speaks, get) else exists n: nat :: FirstInRecord(r, speaks, get, value, n)
  }

  lemma OneMoreRecord<T>(records: seq<Record>, r: Record, speaks: Speaks, get: (Record, nat) -> Option<T>,
                         before: Option<T>, own: Option<T>)
    requires IsFirstValue(records, speaks, get, before) && IsFirstOfRecord(r, speaks, get, own)
    ensures IsFirstValue(records + [r], speaks, get, First(before, own))
  {
    var grown := records + [r];
    if before.Some? {
      var i: nat, n: nat :| IsFirstAt(records, speaks, get, before, i, n);
      assert IsFirstAt(grown, speaks, get, before, i, n);
    } else if own.Some? {
      var n: nat :| FirstInRecord(r, speaks, get, own, n);
      assert IsFirstAt(grown, speaks, get, own, |records|, n);
    }
  }

  // ---------------------------------------------------------------- what merging collects

  /** A metric that merging takes from the first that has it. */
  ghost predicate Collects<T>(have: Metrics -> Option<T>) {
    have(NO_METRICS).None? && forall a, b {:trigger Merge(a, b)} :: CollectsOne(have, a, b)
  }

  predicate CollectsOne<T(==)>(have: Metrics -> Option<T>, a: Metrics, b: Metrics) {
    have(Merge(a, b)) == First(have(a), have(b))
  }

  predicate OfPair(r: Report, pair: (string, string)) { Usable(r) && Pair(r.source, r.target) == pair }

  lemma MergedSnoc(reports: seq<Report>, r: Report, pair: (string, string))
    ensures Merged(reports + [r], pair) ==
            if OfPair(r, pair) then Merge(Merged(reports, pair), r.metrics) else Merged(reports, pair)
  {
    assert (reports + [r])[..|reports|] == reports;
  }

  /** Reports one after another: what the first ones lack is taken from the others. */
  lemma {:induction false} MergedJoin<T>(a: seq<Report>, b: seq<Report>, pair: (string, string),
                                         have: Metrics -> Option<T>)
    requires Collects(have)
    ensures have(Merged(a + b, pair)) == First(have(Merged(a, pair)), have(Merged(b, pair)))
  {
    if b == [] {
      assert a + b == a;
    } else {
      var front, r := b[..|b| - 1], b[|b| - 1];
      MergedJoin(a, front, pair, have);
      assert a + b == (a + front) + [r] && b == front + [r];
      MergedSnoc(a + front, r, pair);
      MergedSnoc(front, r, pair);
    }
  }

  lemma {:induction false} MergedNone<T>(reports: seq<Report>, pair: (string, string), have: Metrics -> Option<T>)
    requires Collects(have) && forall i :: 0 <= i < |reports| ==> have(reports[i].metrics).None?
    ensures have(Merged(reports, pair)).None?
  {
    if reports != [] {
      var front := reports[..|reports| - 1];
      MergedNone(front, pair, have);
      assert reports == front + [reports[|reports| - 1]];
      MergedSnoc(front, reports[|reports| - 1], pair);
    }
  }

  /** The reports that are a record's table, one for every entry. */
  ghost predicate Tabulates<T>(reports: seq<Report>, pair: (string, string), have: Metrics -> Option<T>, r: Record,
                               speaks: Speaks, get: (Record, nat) -> Option<T>)
  {
    && (forall n: nat :: speaks(r, n) <==> n < |reports| && OfPair(reports[n], pair))
    && (forall n: nat :: n < |reports| ==> get(r, n) == have(reports[n].metrics))
  }

  lemma {:induction false} TableIsFirst<T>(reports: seq<Report>, k: nat, pair: (string, string),
                                           have: Metrics -> Option<T>, r: Record, speaks: Speaks,
                                           get: (Record, nat) -> Option<T>)
    requires Collects(have) && Tabulates(reports, pair, have, r, speaks, get) && k <= |reports|
    ensures var value := have(Merged(reports[..k], pair));
            if value.None? then forall n: nat :: n < k && speaks(r, n) ==> get(r, n).None?
            else exists n: nat :: n < k && FirstInRecord(r, speaks, get, value, n)
  {
    if k > 0 {
      TableIsFirst(reports, k - 1, pair, have, r, speaks, get);
      assert reports[..k] == reports[..k - 1] + [reports[k - 1]];
      MergedSnoc(reports[..k - 1], reports[k - 1], pair);
      var value := have(Merged(reports[..k], pair));
      if have(Merged(reports[..k - 1], pair)).None? && value.Some? {
        assert FirstInRecord(r, speaks, get, value, k - 1);
      }
    }
  }

  /** One record: the table the metric comes from counts, and the other does not. */
  lemma RecordIsFirst<T>(front: seq<Report>, table: seq<Report>, back: seq<Report>, pair: (string, string),
                         have: Metrics -> Option<T>, r: Record, speaks: Speaks, get: (Record, nat) -> Option<T>)
    requires Collects(have) && Tabulates(table, pair, have, r, speaks, get)
    requires forall i :: 0 <= i < |front| ==> have(front[i].metrics).None?
    requires forall i :: 0 <= i < |back| ==> have(back[i].metrics).None?
    ensures IsFirstOfRecord(r, speaks, get, have(Merged(front + table + back, pair)))
  {
    MergedJoin(front + table, back, pair, have);
    MergedJoin(front, table, pair, have);
    MergedNone(front, pair, have);
    MergedNone(back, pair, have);
    TableIsFirst(table, |table|, pair, have, r, speaks, get);
    assert table[..|table|] == table;
  }

  /** What one record contributes is the first of its own. */
  ghost predicate Contributes<T>(r: Record, byExt: map<string, string>, byId: map<int, string>,
                                 pair: (string, string), have: Metrics -> Option<T>, speaks: Speaks,
                                 get: (Record, nat) -> Option<T>)
  {
    IsFirstOfRecord(r, speaks, get, have(Merged(ReportsOf(r, byExt, byId), pair)))
  }

  lemma OneMoreContributes<T>(front: seq<Record>, r: Record, byExt: map<string, string>, byId: map<int, string>,
                              pair: (string, string), have: Metrics -> Option<T>, speaks: Speaks,
                              get: (Record, nat) -> Option<T>)
    requires Collects(have) && Contributes(r, byExt, byId, pair, have, speaks, get)
    requires IsFirstValue(front, speaks, get, have(Merged(AllReports(front, byExt, byId), pair)))
    ensures IsFirstValue(front + [r], speaks, get,
                         have(Merged(AllReports(front, byExt, byId) + ReportsOf(r, byExt, byId), pair)))
  {
    MergedJoin(AllReports(front, byExt, byId), ReportsOf(r, byExt, byId), pair, have);
    OneMoreRecord(front, r, speaks, get, have(Merged(AllReports(front, byExt, byId), pair)),
      have(Merged(ReportsOf(r, byExt, byId), pair)));
  }

  /** All records. */
  lemma {:induction false} RecordsAreFirst<T>(records: seq<Record>, byExt: map<string, string>, byId: map<int, string>,
                                              pair: (string, string), have: Metrics -> Option<T>, speaks: Speaks,
                                              get: (Record, nat) -> Option<T>)
    requires Collects(have)
    requires forall i :: 0 <= i < |records| ==> Contributes(records[i], byExt, byId, pair, have, speaks, get)
    ensures IsFirstValue(records, speaks, get, have(Merged(AllReports(records, byExt, byId), pair)))
  {
    if records != [] {
      var front, r := records[..|records| - 1], records[|records| - 1];
      RecordsAreFirst(front, byExt, byId, pair, have, speaks, get);
      OneMoreContributes(front, r, byExt, byId, pair, have, speaks, get);
      assert records == front + [r];
    }
  }

  // ---------------------------------------------------------------- routes

  /** Route `n` of `r` joins the pair: one end is `r`, and the route's router ID leads to the other. */
  predicate RouteJoins(records: seq<Record>, pair: (string, string), r: Record, n: nat) {
    && n < |r.routes|
    && ((Id(r) == pair.0 && IsNumbered(records, r.routes[n].routerId, pair.1))
        || (Id(r) == pair.1 && IsNumbered(records, r.routes[n].routerId, pair.0)))
  }

  function RoutesOf(records: seq<Record>, pair: (string, string)): Speaks {
    (r: Record, n: nat) => RouteJoins(records, pair, r, n)
  }

  function InRoute<T>(get: Route -> Option<T>): (Record, nat) -> Option<T> {
    (r: Record, n: nat) => if n < |r.routes| then get(r.routes[n]) else None
  }

  /** A pair of different routers, in the order of links. */
  predicate IsPair(pair: (string, string)) {
    pair.0 != "" && pair.1 != "" && pair.0 != pair.1 && Pair(pair.0, pair.1) == pair
  }

  lemma PairOf(a: string, b: string, pair: (string, string))
    requires IsPair(pair)
    ensures (a != "" && b != "" && a != b && Pair(a, b) == pair) <==>
            (a == pair.0 && b == pair.1) || (a == pair.1 && b == pair.0)
  {
    PairIsUnordered(pair.0, pair.1);
  }

  lemma RouteJoinsIff(records: seq<Record>, pair: (string, string), r: Record, n: nat)
    requires IsPair(pair) && n < |r.routes|
    ensures RouteJoins(records, pair, r, n) <==>
            OfPair(RouteReport(Id(r), r.routes[n], ByRouterId(records)), pair)
  {
    PairOf(Id(r), Lookup(ByRouterId(records), r.routes[n].routerId), pair);
    NumberLeadsTo(records, r.routes[n].routerId, pair.0);
    NumberLeadsTo(records, r.routes[n].routerId, pair.1);
  }

  lemma RoutesTabulate<T>(records: seq<Record>, pair: (string, string), r: Record, get: Route -> Option<T>,
                          have: Metrics -> Option<T>)
    requires IsPair(pair)
    requires forall route: Route :: have(RouteMetrics(route)) == get(route)
    ensures Tabulates(RouteReports(Id(r), r.routes, ByRouterId(records)), pair, have, r, RoutesOf(records, pair),
                      InRoute(get))
  {
    forall n: nat | n < |r.routes|
      ensures RouteJoins(records, pair, r, n) <==>
              OfPair(RouteReports(Id(r), r.routes, ByRouterId(records))[n], pair)
      ensures have(RouteReports(Id(r), r.routes, ByRouterId(records))[n].metrics) == get(r.routes[n])
    {
      RouteJoinsIff(records, pair, r, n);
      assert RouteReport(Id(r), r.routes[n], ByRouterId(records)).metrics == RouteMetrics(r.routes[n]);
    }
  }

  /** What a route says of a link. */
  function RouteMetrics(route: Route): Metrics {
    Metrics(route.qualityIn, route.qualityOut, route.cost, None, None, None, None, None)
  }

  lemma RouteContributes<T>(records: seq<Record>, r: Record, pair: (string, string), get: Route -> Option<T>,
                            have: Metrics -> Option<T>)
    requires IsPair(pair) && Collects(have)
    requires forall route: Route :: have(RouteMetrics(route)) == get(route)
    requires forall n: Neighbor :: have(NeighborMetrics(n)).None?
    ensures Contributes(r, ByExtAddress(records), ByRouterId(records), pair, have, RoutesOf(records, pair),
                        InRoute(get))
  {
    var byExt, byId := ByExtAddress(records), ByRouterId(records);
    var neighbors, routes := NeighborReports(Id(r), r.neighbors, byExt), RouteReports(Id(r), r.routes, byId);
    assert forall n :: 0 <= n < |neighbors| ==> neighbors[n].metrics == NeighborMetrics(r.neighbors[n]);
    RoutesTabulate(records, pair, r, get, have);
    RecordIsFirst(neighbors, routes, [], pair, have, r, RoutesOf(records, pair), InRoute(get));
    assert neighbors + routes + [] == ReportsOf(r, byExt, byId);
  }

  /** A metric of routes is that of the first route of the pair that has it. */
  lemma RouteMetricIsFirst<T>(records: seq<Record>, pair: (string, string), get: Route -> Option<T>,
                              have: Metrics -> Option<T>)
    requires IsPair(pair) && Collects(have)
    requires forall route: Route :: have(RouteMetrics(route)) == get(route)
    requires forall n: Neighbor :: have(NeighborMetrics(n)).None?
    ensures IsFirstValue(records, RoutesOf(records, pair), InRoute(get), have(MergedIn(records, pair)))
  {
    var byExt, byId := ByExtAddress(records), ByRouterId(records);
    forall i | 0 <= i < |records|
      ensures Contributes(records[i], byExt, byId, pair, have, RoutesOf(records, pair), InRoute(get))
    {
      RouteContributes(records, records[i], pair, get, have);
    }
    RecordsAreFirst(records, byExt, byId, pair, have, RoutesOf(records, pair), InRoute(get));
  }

  // ---------------------------------------------------------------- neighbours

  /** Neighbour `n` of `r` joins the pair: one end is `r`, and the neighbour's address leads to the other. */
  predicate NeighborJoins(records: seq<Record>, pair: (string, string), r: Record, n: nat) {
    && n < |r.neighbors|
    && ((Id(r) == pair.0 && IsAddressed(records, ToLower(r.neighbors[n].extAddress), pair.1))
        || (Id(r) == pair.1 && IsAddressed(records, ToLower(r.neighbors[n].extAddress), pair.0)))
  }

  function NeighborsOf(records: seq<Record>, pair: (string, string)): Speaks {
    (r: Record, n: nat) => NeighborJoins(records, pair, r, n)
  }

  function InNeighbor<T>(get: Neighbor -> Option<T>): (Record, nat) -> Option<T> {
    (r: Record, n: nat) => if n < |r.neighbors| then get(r.neighbors[n]) else None
  }

  /** What a neighbour entry says of a link. */
  function NeighborMetrics(n: Neighbor): Metrics {
    Metrics(None, None, None, n.margin, n.averageRssi, n.lastRssi, n.frameErrors, n.messageErrors)
  }

  lemma NeighborJoinsIff(records: seq<Record>, pair: (string, string), r: Record, n: nat)
    requires IsPair(pair) && n < |r.neighbors|
    ensures NeighborJoins(records, pair, r, n) <==>
            OfPair(NeighborReport(Id(r), r.neighbors[n], ByExtAddress(records)), pair)
  {
    var address := ToLower(r.neighbors[n].extAddress);
    PairOf(Id(r), Lookup(ByExtAddress(records), address), pair);
    AddressLeadsTo(records, address, pair.0);
    AddressLeadsTo(records, address, pair.1);
  }

  lemma NeighborsTabulate<T>(records: seq<Record>, pair: (string, string), r: Record, get: Neighbor -> Option<T>,
                             have: Metrics -> Option<T>)
    requires IsPair(pair)
    requires forall n: Neighbor :: have(NeighborMetrics(n)) == get(n)
    ensures Tabulates(NeighborReports(Id(r), r.neighbors, ByExtAddress(records)), pair, have, r,
                      NeighborsOf(records, pair), InNeighbor(get))
  {
    forall n: nat | n < |r.neighbors|
      ensures NeighborJoins(records, pair, r, n) <==>
              OfPair(NeighborReports(Id(r), r.neighbors, ByExtAddress(records))[n], pair)
      ensures have(NeighborReports(Id(r), r.neighbors, ByExtAddress(records))[n].metrics) == get(r.neighbors[n])
    {
      NeighborJoinsIff(records, pair, r, n);
      assert NeighborReport(Id(r), r.neighbors[n], ByExtAddress(records)).metrics == NeighborMetrics(r.neighbors[n]);
    }
  }

  lemma NeighborContributes<T>(records: seq<Record>, r: Record, pair: (string, string), get: Neighbor -> Option<T>,
                               have: Metrics -> Option<T>)
    requires IsPair(pair) && Collects(have)
    requires forall n: Neighbor :: have(NeighborMetrics(n)) == get(n)
    requires forall route: Route :: have(RouteMetrics(route)).None?
    ensures Contributes(r, ByExtAddress(records), ByRouterId(records), pair, have, NeighborsOf(records, pair),
                        InNeighbor(get))
  {
    var byExt, byId := ByExtAddress(records), ByRouterId(records);
    var neighbors, routes := NeighborReports(Id(r), r.neighbors, byExt), RouteReports(Id(r), r.routes, byId);
    assert forall n :: 0 <= n < |routes| ==> routes[n].metrics == RouteMetrics(r.routes[n]);
    NeighborsTabulate(records, pair, r, get, have);
    RecordIsFirst([], neighbors, routes, pair, have, r, NeighborsOf(records, pair), InNeighbor(get));
    assert [] + neighbors + routes == ReportsOf(r, byExt, byId);
  }

  /** A metric of neighbours is that of the first neighbour entry of the pair that has it. */
  lemma NeighborMetricIsFirst<T>(records: seq<Record>, pair: (string, string), get: Neighbor -> Option<T>,
                                 have: Metrics -> Option<T>)
    requires IsPair(pair) && Collects(have)
    requires forall n: Neighbor :: have(NeighborMetrics(n)) == get(n)
    requires forall route: Route :: have(RouteMetrics(route)).None?
    ensures IsFirstValue(records, NeighborsOf(records, pair), InNeighbor(get), have(MergedIn(records, pair)))
  {
    var byExt, byId := ByExtAddress(records), ByRouterId(records);
    forall i | 0 <= i < |records|
      ensures Contributes(records[i], byExt, byId, pair, have, NeighborsOf(records, pair), InNeighbor(get))
    {
      NeighborContributes(records, records[i], pair, get, have);
    }
    RecordsAreFirst(records, byExt, byId, pair, have, NeighborsOf(records, pair), InNeighbor(get));
  }

  // ---------------------------------------------------------------- links of routers

  /** Every metric of a link between two routers, by the table it comes from. */
  ghost predicate MetricsOf(records: seq<Record>, pair: (string, string), m: Metrics) {
    var routes, neighbors := RoutesOf(records, pair), NeighborsOf(records, pair);
    && IsFirstValue(records, routes, InRoute((r: Route) => r.qualityIn), m.qualityIn)
    && IsFirstValue(records, routes, InRoute((r: Route) => r.qualityOut), m.qualityOut)
    && IsFirstValue(records, routes, InRoute((r: Route) => r.cost), m.cost)
    && IsFirstValue(records, neighbors, InNeighbor((n: Neighbor) => n.margin), m.margin)
    && IsFirstValue(records, neighbors, InNeighbor((n: Neighbor) => n.averageRssi), m.averageRssi)
    && IsFirstValue(records, neighbors, InNeighbor((n: Neighbor) => n.lastRssi), m.lastRssi)
    && IsFirstValue(records, neighbors, InNeighbor((n: Neighbor) => n.frameErrors), m.frameErrors)
    && IsFirstValue(records, neighbors, InNeighbor((n: Neighbor) => n.messageErrors), m.messageErrors)
  }

  /** What all reports of a pair add up to. */
  function MergedIn(records: seq<Record>, pair: (string, string)): Metrics {
    Merged(AllReports(records, ByExtAddress(records), ByRouterId(records)), pair)
  }

  lemma FirstQualityIn(records: seq<Record>, pair: (string, string))
    requires IsPair(pair)
    ensures IsFirstValue(records, RoutesOf(records, pair), InRoute((r: Route) => r.qualityIn),
                         MergedIn(records, pair).qualityIn)
  {
    var have := (m: Metrics) => m.qualityIn;
    forall a, b
      ensures CollectsOne(have, a, b)
    {
    }
    RouteMetricIsFirst(records, pair, (r: Route) => r.qualityIn, have);
  }

  lemma FirstQualityOut(records: seq<Record>, pair: (string, string))
    requires IsPair(pair)
    ensures IsFirstValue(records, RoutesOf(records, pair), InRoute((r: Route) => r.qualityOut),
                         MergedIn(records, pair).qualityOut)
  {
    var have := (m: Metrics) => m.qualityOut;
    forall a, b
      ensures CollectsOne(have, a, b)
    {
    }
    RouteMetricIsFirst(records, pair, (r: Route) => r.qualityOut, have);
  }

  lemma FirstCost(records: seq<Record>, pair: (string, string))
    requires IsPair(pair)
    ensures IsFirstValue(records, RoutesOf(records, pair), InRoute((r: Route) => r.cost),
                         MergedIn(records, pair).cost)
  {
    var have := (m: Metrics) => m.cost;
    forall a, b
      ensures CollectsOne(have, a, b)
    {
    }
    RouteMetricIsFirst(records, pair, (r: Route) => r.cost, have);
  }

  lemma FirstMargin(records: seq<Record>, pair: (string, string))
    requires IsPair(pair)
    ensures IsFirstValue(records, NeighborsOf(records, pair), InNeighbor((n: Neighbor) => n.margin),
                         MergedIn(records, pair).margin)
  {
    var have := (m: Metrics) => m.margin;
    forall a, b
      ensures CollectsOne(have, a, b)
    {
    }
    NeighborMetricIsFirst(records, pair, (n: Neighbor) => n.margin, have);
  }

  lemma FirstAverageRssi(records: seq<Record>, pair: (string, string))
    requires IsPair(pair)
    ensures IsFirstValue(records, NeighborsOf(records, pair), InNeighbor((n: Neighbor) => n.averageRssi),
                         MergedIn(records, pair).averageRssi)
  {
    var have := (m: Metrics) => m.averageRssi;
    forall a, b
      ensures CollectsOne(have, a, b)
    {
    }
    NeighborMetricIsFirst(records, pair, (n: Neighbor) => n.averageRssi, have);
  }

  lemma FirstLastRssi(records: seq<Record>, pair: (string, string))
    requires IsPair(pair)
    ensures IsFirstValue(records, NeighborsOf(records, pair), InNeighbor((n: Neighbor) => n.lastRssi),
                         MergedIn(records, pair).lastRssi)
  {
    var have := (m: Metrics) => m.lastRssi;
    forall a, b
      ensures CollectsOne(have, a, b)
    {
    }
    NeighborMetricIsFirst(records, pair, (n: Neighbor) => n.lastRssi, have);
  }

  lemma FirstFrameErrors(records: seq<Record>, pair: (string, string))
    requires IsPair(pair)
    ensures IsFirstValue(records, NeighborsOf(records, pair), InNeighbor((n: Neighbor) => n.frameErrors),
                         MergedIn(records, pair).frameErrors)
  {
    var have := (m: Metrics) => m.frameErrors;
    forall a, b
      ensures CollectsOne(have, a, b)
    {
    }
    NeighborMetricIsFirst(records, pair, (n: Neighbor) => n.frameErrors, have);
  }

  lemma FirstMessageErrors(records: seq<Record>, pair: (string, string))
    requires IsPair(pair)
    ensures IsFirstValue(records, NeighborsOf(records, pair), InNeighbor((n: Neighbor) => n.messageErrors),
                         MergedIn(records, pair).messageErrors)
  {
    var have := (m: Metrics) => m.messageErrors;
    forall a, b
      ensures CollectsOne(have, a, b)
    {
    }
    NeighborMetricIsFirst(records, pair, (n: Neighbor) => n.messageErrors, have);
  }

  /**
   Quality in, quality out and cost of a link are those of the first route of its pair that
   has one; margin, signal strengths and error rates those of the first neighbour entry.
   */
  lemma LinkMetricsAreFirst(records: seq<Record>, links: seq<Link>, k: nat)
    requires ExactRouterLinks(links, AllReports(records, ByExtAddress(records), ByRouterId(records)))
    requires k < |links| && links[k].kind == RouterLink
    ensures MetricsOf(records, (links[k].source, links[k].target), links[k].metrics)
  {
    var pair := (links[k].source, links[k].target);
    LinkIsPair(links, AllReports(records, ByExtAddress(records), ByRouterId(records)), k);
    assert links[k].metrics == MergedIn(records, pair);
    FirstQualityIn(records, pair);
    FirstQualityOut(records, pair);
    FirstCost(records, pair);
    FirstMargin(records, pair);
    FirstAverageRssi(records, pair);
    FirstLastRssi(records, pair);
    FirstFrameErrors(records, pair);
    FirstMessageErrors(records, pair);
  }

  lemma LinkIsPair(links: seq<Link>, reports: seq<Report>, k: nat)
    requires ExactRouterLinks(links, reports) && k < |links| && links[k].kind == RouterLink
    ensures IsPair((links[k].source, links[k].target))
  {
    var pair := (links[k].source, links[k].target);
    assert Named(reports, pair);
    var i :| 0 <= i < |reports| && Usable(reports[i]) && Pair(reports[i].source, reports[i].target) == pair;
  }

  // ---------------------------------------------------------------- links of children

  lemma {:induction false} FirstDetailIs(ds: seq<Detail>, childId: int, i: nat)
    requires i < |ds| && ds[i].childId == childId && forall j :: 0 <= j < i ==> ds[j].childId != childId
    ensures FirstDetail(ds, childId) == Some(ds[i])
  {
    if i > 0 {
      FirstDetailIs(ds[1..], childId, i - 1);
    }
  }

  lemma {:induction false} NoDetail(ds: seq<Detail>, childId: int)
    requires forall j :: 0 <= j < |ds| ==> ds[j].childId != childId
    ensures FirstDetail(ds, childId) == None
  {
    if ds != [] {
      NoDetail(ds[1..], childId);
    }
  }

  /** A child's link has no quality in or out, no cost and no message errors; the rest is its first detail's. */
  predicate FromDetail(m: Metrics, d: Detail) {
    && m.margin == d.margin && m.averageRssi == d.averageRssi && m.lastRssi == d.lastRssi
    && m.frameErrors == d.frameErrors
    && m.messageErrors == None && m.qualityIn == m.qualityOut == m.cost == None
  }

  /** The metrics of the child that stands at place `k` among its router's children. */
  lemma ChildMetrics(r: Record, k: nat, i: nat)
    requires k < |LinksOfChildren(r)|
    requires var id := ChildIds(r, |r.childTable|, |r.children|)[k];
             i < |r.children| && r.children[i].childId == id && forall j :: 0 <= j < i ==> r.children[j].childId != id
    ensures FromDetail(LinksOfChildren(r)[k].metrics, r.children[i])
  {
    FirstDetailIs(r.children, ChildIds(r, |r.childTable|, |r.children|)[k], i);
  }

  lemma ChildWithoutDetail(r: Record, k: nat)
    requires k < |LinksOfChildren(r)|
    requires var id := ChildIds(r, |r.childTable|, |r.children|)[k];
             forall j :: 0 <= j < |r.children| ==> r.children[j].childId != id
    ensures var m := LinksOfChildren(r)[k].metrics;
            && m.margin == m.averageRssi == m.lastRssi == m.qualityIn == m.qualityOut == m.cost == None
            && m.frameErrors == m.messageErrors == None
  {
    NoDetail(r.children, ChildIds(r, |r.childTable|, |r.children|)[k]);
  }
}
