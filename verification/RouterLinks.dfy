/** The router half of the topology built from OTBR's diagnostics (`decodeTopology` in internal/otbr/client.go). */
module RouterLinks {
  // Which record of a router survives, and how the links the routers report from both
  // ends are merged in place. The order of the surviving records is left open: it comes
  // from a map and a sort whose comparison is not a strict order when a router ID is
  // missing.

  import opened Wrappers
  import opened Text

  datatype Neighbor = Neighbor(extAddress: string, margin: Option<int>, averageRssi: Option<int>, lastRssi: Option<int>,
                               frameErrors: Option<real>, messageErrors: Option<real>)

  datatype Route = Route(routerId: int, qualityIn: Option<int>, qualityOut: Option<int>, cost: Option<int>)

  datatype Mode = Mode(rxOnWhenIdle: Option<bool>, fullDevice: Option<bool>, fullData: Option<bool>)

  datatype TableEntry = TableEntry(childId: int, timeout: Option<int>, linkQuality: Option<int>, mode: Mode)

  datatype Detail = Detail(childId: int, extAddress: string, rloc16: string, timeout: Option<int>, mode: Mode,
                           margin: Option<int>, averageRssi: Option<int>, lastRssi: Option<int>,
                           frameErrors: Option<real>)

  /** One decoded diagnostic record. `created` is 0 when it is missing or unreadable. */
  datatype Record = Record(extAddress: string, rloc16: string, routerId: Option<int>, created: int,
                           neighbors: seq<Neighbor>, routes: seq<Route>, childTable: seq<TableEntry>,
                           children: seq<Detail>)

  /** What a record is known by: its extended address, or its locator without one. */
  function Id(r: Record): string { if r.extAddress != "" then r.extAddress else r.rloc16 }

  // ---------------------------------------------------------------- the surviving records

  /** Position `i` holds the record that survives for its key: created last, and first among those. */
  predicate Survives(items: seq<Record>, i: nat)
    requires i < |items|
  {
    && Id(items[i]) != ""
    && (forall j :: 0 <= j < |items| && Id(items[j]) == Id(items[i]) ==> items[j].created <= items[i].created)
    && (forall j :: 0 <= j < i && Id(items[j]) == Id(items[i]) ==> items[j].created < items[i].created)
  }

  predicate IsSurvivor(items: seq<Record>, key: string, r: Record) {
    exists i :: 0 <= i < |items| && items[i] == r && Id(r) == key && Survives(items, i)
  }

  /** One survivor for every key that occurs, and nothing else. */
  ghost predicate IsLatest(items: seq<Record>, latest: map<string, Record>) {
    && (forall key :: key in latest ==> IsSurvivor(items, key, latest[key]))
    && (forall i :: 0 <= i < |items| && Id(items[i]) != "" ==> Id(items[i]) in latest)
  }

  method Latest(items: seq<Record>) returns (latest: map<string, Record>)
    ensures IsLatest(items, latest)
  {
    latest := map[];
    for n := 0 to |items|
      invariant IsLatest(items[..n], latest)
    {
      var r := items[n];
      ghost var before, front, grown := latest, items[..n], items[..n + 1];
      assert grown == front + [r];
      if Id(r) == "" {
        LatestKeeps(front, r, latest);
        continue;
      }
      if Id(r) !in latest || r.created > latest[Id(r)].created {
        latest := latest[Id(r) := r];
        LatestReplaces(front, r, before);
      } else {
        LatestKeeps(front, r, latest);
      }
    }
    assert items[..|items|] == items;
  }

  lemma SurvivorStays(items: seq<Record>, r: Record, key: string, survivor: Record)
    requires IsSurvivor(items, key, survivor) && (Id(r) == key ==> r.created <= survivor.created)
    ensures IsSurvivor(items + [r], key, survivor)
  {
    var i :| 0 <= i < |items| && items[i] == survivor && Id(survivor) == key && Survives(items, i);
    assert (items + [r])[i] == survivor;
    assert Survives(items + [r], i);
  }

  lemma SurvivorChanges(items: seq<Record>, r: Record)
    requires Id(r) != "" && forall j :: 0 <= j < |items| && Id(items[j]) == Id(r) ==> items[j].created < r.created
    ensures IsSurvivor(items + [r], Id(r), r)
  {
    assert (items + [r])[|items|] == r;
    assert Survives(items + [r], |items|);
  }

  lemma LatestKeeps(items: seq<Record>, r: Record, latest: map<string, Record>)
    requires IsLatest(items, latest)
    requires Id(r) == "" || (Id(r) in latest && r.created <= latest[Id(r)].created)
    ensures IsLatest(items + [r], latest)
  {
    forall key | key in latest
      ensures IsSurvivor(items + [r], key, latest[key])
    {
      SurvivorStays(items, r, key, latest[key]);
    }
  }

  lemma LatestReplaces(items: seq<Record>, r: Record, latest: map<string, Record>)
    requires IsLatest(items, latest) && Id(r) != ""
    requires Id(r) !in latest || r.created > latest[Id(r)].created
    ensures IsLatest(items + [r], latest[Id(r) := r])
  {
    forall j | 0 <= j < |items| && Id(items[j]) == Id(r)
      ensures items[j].created < r.created
    {
      assert IsSurvivor(items, Id(r), latest[Id(r)]);
    }
    SurvivorChanges(items, r);
    forall key | key in latest && key != Id(r)
      ensures IsSurvivor(items + [r], key, latest[key])
    {
      SurvivorStays(items, r, key, latest[key]);
    }
  }

  /** The survivors in some order: each key's record once. */
  ghost predicate Enumerates(records: seq<Record>, latest: map<string, Record>) {
    && (forall i :: 0 <= i < |records| ==> Id(records[i]) in latest && latest[Id(records[i])] == records[i])
    && (forall i, j :: 0 <= i < j < |records| ==> Id(records[i]) != Id(records[j]))
    && (forall key :: key in latest ==> exists i :: 0 <= i < |records| && records[i] == latest[key])
  }

  /** The same while some keys are left. */
  ghost predicate EnumeratesBut(records: seq<Record>, latest: map<string, Record>, left: set<string>) {
    && (forall i :: 0 <= i < |records| ==>
          Id(records[i]) in latest && latest[Id(records[i])] == records[i] && Id(records[i]) !in left)
    && (forall i, j :: 0 <= i < j < |records| ==> Id(records[i]) != Id(records[j]))
    && (forall key :: key in latest && key !in left ==> IsListed(records, latest[key]))
  }

  predicate IsListed(records: seq<Record>, r: Record) { exists i :: 0 <= i < |records| && records[i] == r }

  lemma ListOneMore(records: seq<Record>, latest: map<string, Record>, left: set<string>, key: string)
    requires EnumeratesBut(records, latest, left) && key in left && key in latest && Id(latest[key]) == key
    ensures EnumeratesBut(records + [latest[key]], latest, left - {key})
  {
    var grown := records + [latest[key]];
    forall other | other in latest && other !in left - {key}
      ensures IsListed(grown, latest[other])
    {
      if other == key {
        assert grown[|records|] == latest[key];
      } else {
        var i :| 0 <= i < |records| && records[i] == latest[other];
        assert grown[i] == records[i];
      }
    }
  }

  /** Takes the map's values in whatever order it gives them. */
  method Enumerate(latest: map<string, Record>) returns (records: seq<Record>)
    requires forall key :: key in latest ==> Id(latest[key]) == key
    ensures Enumerates(records, latest)
  {
    records := [];
    var left := latest.Keys;
    while left != {}
      invariant left <= latest.Keys && EnumeratesBut(records, latest, left)
      decreases left
    {
      var key :| key in left;
      ListOneMore(records, latest, left, key);
      left := left - {key};
      records := records + [latest[key]];
    }
    assert forall key :: key in latest ==> IsListed(records, latest[key]);
  }

  // ---------------------------------------------------------------- what the routers say of each other

  datatype Metrics = Metrics(qualityIn: Option<int>, qualityOut: Option<int>, cost: Option<int>, margin: Option<int>,
                             averageRssi: Option<int>, lastRssi: Option<int>, frameErrors: Option<real>,
                             messageErrors: Option<real>)

  const NO_METRICS := Metrics(None, None, None, None, None, None, None, None)

  function First<T>(a: Option<T>, b: Option<T>): Option<T> { if a.None? then b else a }

  /** Fills what `a` lacks from `b`. */
  function Merge(a: Metrics, b: Metrics): Metrics {
    Metrics(First(a.qualityIn, b.qualityIn), First(a.qualityOut, b.qualityOut), First(a.cost, b.cost),
            First(a.margin, b.margin), First(a.averageRssi, b.averageRssi), First(a.lastRssi, b.lastRssi),
            First(a.frameErrors, b.frameErrors), First(a.messageErrors, b.messageErrors))
  }

  /** One end's account of a link. An end that is not known is the empty text. */
  datatype Report = Report(source: string, target: string, metrics: Metrics)

  predicate Usable(r: Report) { r.source != "" && r.target != "" && r.source != r.target }

  /** The two ends of a link in order, so that both directions name the same pair. */
  function Pair(a: string, b: string): (string, string) { if Less(b, a) then (b, a) else (a, b) }

  lemma PairIsUnordered(a: string, b: string)
    ensures Pair(a, b) == Pair(b, a) && Pair(a, b) in {(a, b), (b, a)} && !Less(Pair(a, b).1, Pair(a, b).0)
  {
    LessIsTotal(a, b);
  }

  /** Extended addresses to IDs, and router IDs to IDs; a later record wins. */
  function ByExtAddress(records: seq<Record>): map<string, string> {
    if records == [] then map[]
    else
      var r, before := records[|records| - 1], ByExtAddress(records[..|records| - 1]);
      if r.extAddress != "" then before[ToLower(r.extAddress) := Id(r)] else before
  }

  function ByRouterId(records: seq<Record>): map<int, string> {
    if records == [] then map[]
    else
      var r, before := records[|records| - 1], ByRouterId(records[..|records| - 1]);
      if r.routerId.Some? then before[r.routerId.value := Id(r)] else before
  }

  function Lookup<K>(m: map<K, string>, key: K): string { if key in m then m[key] else "" }

  function NeighborReport(source: string, n: Neighbor, byExt: map<string, string>): Report {
    Report(source, Lookup(byExt, ToLower(n.extAddress)),
           Metrics(None, None, None, n.margin, n.averageRssi, n.lastRssi, n.frameErrors, n.messageErrors))
  }

  function RouteReport(source: string, r: Route, byId: map<int, string>): Report {
    Report(source, Lookup(byId, r.routerId), Metrics(r.qualityIn, r.qualityOut, r.cost, None, None, None, None, None))
  }

  function NeighborReports(source: string, ns: seq<Neighbor>, byExt: map<string, string>): (rs: seq<Report>)
    ensures |rs| == |ns| && forall i :: 0 <= i < |ns| ==> rs[i] == NeighborReport(source, ns[i], byExt)
  {
    seq(|ns|, i requires 0 <= i < |ns| => NeighborReport(source, ns[i], byExt))
  }

  function RouteReports(source: string, routes: seq<Route>, byId: map<int, string>): (rs: seq<Report>)
    ensures |rs| == |routes| && forall i :: 0 <= i < |routes| ==> rs[i] == RouteReport(source, routes[i], byId)
  {
    seq(|routes|, i requires 0 <= i < |routes| => RouteReport(source, routes[i], byId))
  }

  /** Everything one record says of links, in the order it is taken: neighbours, then routes. */
  function ReportsOf(r: Record, byExt: map<string, string>, byId: map<int, string>): seq<Report> {
    NeighborReports(Id(r), r.neighbors, byExt) + RouteReports(Id(r), r.routes, byId)
  }

  function AllReports(records: seq<Record>, byExt: map<string, string>, byId: map<int, string>): seq<Report> {
    if records == [] then []
    else AllReports(records[..|records| - 1], byExt, byId) + ReportsOf(records[|records| - 1], byExt, byId)
  }

  // ---------------------------------------------------------------- the links

  datatype Kind = RouterLink | ChildLink

  datatype Link = Link(source: string, target: string, kind: Kind, linkQuality: Option<int>, metrics: Metrics)

  /** Some report names the pair. */
  ghost predicate Named(reports: seq<Report>, pair: (string, string)) {
    exists i :: 0 <= i < |reports| && Usable(reports[i]) && Pair(reports[i].source, reports[i].target) == pair
  }

  /** What the reports of a pair, from either end, add up to in order; MetricIsFirstReported says what that is. */
  function Merged(reports: seq<Report>, pair: (string, string)): Metrics {
    if reports == [] then NO_METRICS
    else
      var r, before := reports[|reports| - 1], Merged(reports[..|reports| - 1], pair);
      if Usable(r) && Pair(r.source, r.target) == pair then Merge(before, r.metrics) else before
  }

  function ChildLinks(links: seq<Link>): seq<Link> {
    if links == [] then []
    else if links[|links| - 1].kind == ChildLink then ChildLinks(links[..|links| - 1]) + [links[|links| - 1]]
    else ChildLinks(links[..|links| - 1])
  }

  type Index = map<(string, string), nat>

  /** The index finds the one link of every reported pair, with what the reports say of it. */
  ghost predicate Tracks(links: seq<Link>, index: Index, reports: seq<Report>) {
    && (forall pair :: pair in index <==> Named(reports, pair))
    && (forall pair :: pair in index ==>
          index[pair] < |links| && links[index[pair]] == Link(pair.0, pair.1, RouterLink, None, Merged(reports, pair)))
    && (forall k :: 0 <= k < |links| && links[k].kind == RouterLink ==> Indexed(links[k], index, k))
  }

  predicate Indexed(link: Link, index: Index, k: nat) {
    var pair := (link.source, link.target);
    pair in index && index[pair] == k
  }

  lemma SkipTracks(links: seq<Link>, index: Index, reports: seq<Report>, r: Report)
    requires Tracks(links, index, reports) && !Usable(r)
    ensures Tracks(links, index, reports + [r])
  {
    forall pair: (string, string)
      ensures Merged(reports + [r], pair) == Merged(reports, pair)
              && (Named(reports + [r], pair) <==> Named(reports, pair))
    {
      OneMoreReport(reports, r, pair);
    }
  }

  lemma FillTracks(links: seq<Link>, index: Index, reports: seq<Report>, r: Report)
    requires Tracks(links, index, reports) && Usable(r) && Pair(r.source, r.target) in index
    ensures Tracks(FillIn(links, index[Pair(r.source, r.target)], r.metrics), index, reports + [r])
  {
    var key := Pair(r.source, r.target);
    var after := FillIn(links, index[key], r.metrics);
    forall pair: (string, string)
      ensures Named(reports + [r], pair) <==> Named(reports, pair)
      ensures pair in index ==>
                index[pair] < |after| && after[index[pair]] ==
                  Link(pair.0, pair.1, RouterLink, None, Merged(reports + [r], pair))
    {
      OneMoreReport(reports, r, pair);
    }
  }

  lemma AppendIndexes(links: seq<Link>, index: Index, key: (string, string), r: Report)
    requires forall k :: 0 <= k < |links| && links[k].kind == RouterLink ==> Indexed(links[k], index, k)
    requires key !in index
    ensures var after := links + [Link(key.0, key.1, RouterLink, None, r.metrics)];
            forall k :: 0 <= k < |after| && after[k].kind == RouterLink ==> Indexed(after[k], index[key := |links|], k)
  {
    var after := links + [Link(key.0, key.1, RouterLink, None, r.metrics)];
    forall k | 0 <= k < |after| && after[k].kind == RouterLink
      ensures Indexed(after[k], index[key := |links|], k)
    {
      assert k < |links| ==> Indexed(links[k], index, k);
    }
  }

  lemma AppendTracks(links: seq<Link>, index: Index, reports: seq<Report>, r: Report)
    requires Tracks(links, index, reports) && Usable(r) && Pair(r.source, r.target) !in index
    ensures var key := Pair(r.source, r.target);
            var after := AppendTo(links, Link(key.0, key.1, RouterLink, None, r.metrics));
            Tracks(after, index[key := |links|], reports + [r])
  {
    var key := Pair(r.source, r.target);
    var after, indexed := links + [Link(key.0, key.1, RouterLink, None, r.metrics)], index[key := |links|];
    NothingMerged(reports, key);
    AppendIndexes(links, index, key, r);
    forall pair: (string, string)
      ensures pair in indexed <==> Named(reports + [r], pair)
      ensures pair in indexed ==>
                indexed[pair] < |after| && after[indexed[pair]] ==
                  Link(pair.0, pair.1, RouterLink, None, Merged(reports + [r], pair))
    {
      OneMoreReport(reports, r, pair);
    }
  }

  /** The links under construction; `reports` are the reports taken so far. */
  class Builder {
    var links: seq<Link>
    var index: Index
    ghost var reports: seq<Report>

    ghost predicate Valid()
      reads this
    {
      Tracks(links, index, reports)
    }

    constructor ()
      ensures Valid() && links == [] && reports == []
    {
      links, index, reports := [], map[], [];
    }

    /** Adds what one end says of a link, to the link already there for the pair or as a new one. */
    method AddRouterLink(r: Report)
      requires Valid()
      modifies this
      ensures Valid() && reports == old(reports) + [r] && ChildLinks(links) == ChildLinks(old(links))
    {
      ghost var before := reports;
      reports := reports + [r];
      if r.source == "" || r.target == "" || r.source == r.target {
        SkipTracks(links, index, before, r);
        return;
      }
      var key := Pair(r.source, r.target);
      if key in index {
        FillTracks(links, index, before, r);
        links := FillIn(links, index[key], r.metrics);
        return;
      }
      AppendTracks(links, index, before, r);
      index, links := index[key := |links|], AppendTo(links, Link(key.0, key.1, RouterLink, None, r.metrics));
    }

    /** Appends the link of one child. */
    method AddChildLink(link: Link)
      requires Valid() && link.kind == ChildLink
      modifies this`links
      ensures Valid() && ChildLinks(links) == ChildLinks(old(links)) + [link]
    {
      links := AppendTo(links, link);
    }
  }

  /** Fills the gaps of the link at `k`; the children's links are not touched. */
  function FillIn(links: seq<Link>, k: nat, metrics: Metrics): (r: seq<Link>)
    requires k < |links| && links[k].kind == RouterLink
    ensures |r| == |links| && r[k] == links[k].(metrics := Merge(links[k].metrics, metrics))
    ensures forall j :: 0 <= j < |links| && j != k ==> r[j] == links[j]
    ensures ChildLinks(r) == ChildLinks(links)
  {
    var link := links[k].(metrics := Merge(links[k].metrics, metrics));
    UpdateKeepsChildren(links, k, link);
    links[k := link]
  }

  function AppendTo(links: seq<Link>, link: Link): (r: seq<Link>)
    ensures ChildLinks(r) == if link.kind == ChildLink then ChildLinks(links) + [link] else ChildLinks(links)
  {
    assert (links + [link])[..|links|] == links;
    links + [link]
  }

  lemma OneMoreReport(reports: seq<Report>, r: Report, pair: (string, string))
    ensures var usable := Usable(r) && Pair(r.source, r.target) == pair;
            && Merged(reports + [r], pair) ==
              (if usable then Merge(Merged(reports, pair), r.metrics) else Merged(reports, pair))
            && (Named(reports + [r], pair) <==> Named(reports, pair) || usable)
  {
    var grown := reports + [r];
    assert grown[..|reports|] == reports;
    if Named(reports, pair) {
      var i :| 0 <= i < |reports| && Usable(reports[i]) && Pair(reports[i].source, reports[i].target) == pair;
      assert grown[i] == reports[i];
    }
    if Usable(r) && Pair(r.source, r.target) == pair {
      assert grown[|reports|] == r;
    }
  }

  lemma {:induction false} NothingMerged(reports: seq<Report>, pair: (string, string))
    ensures !Named(reports, pair) ==> Merged(reports, pair) == NO_METRICS
  {
    if reports != [] {
      var front, r := reports[..|reports| - 1], reports[|reports| - 1];
      assert reports == front + [r];
      OneMoreReport(front, r, pair);
      NothingMerged(front, pair);
    }
  }

  // ---------------------------------------------------------------- what merging keeps

  datatype Field = QualityIn | QualityOut | Cost | Margin | AverageRssi | LastRssi | FrameErrors | MessageErrors

  function Fraction(n: Option<int>): Option<real> { if n.None? then None else Some(n.value as real) }

  /** One metric; the whole numbers among them as reals. */
  function Value(m: Metrics, f: Field): Option<real> {
    match f
    case QualityIn => Fraction(m.qualityIn)
    case QualityOut => Fraction(m.qualityOut)
    case Cost => Fraction(m.cost)
    case Margin => Fraction(m.margin)
    case AverageRssi => Fraction(m.averageRssi)
    case LastRssi => Fraction(m.lastRssi)
    case FrameErrors => m.frameErrors
    case MessageErrors => m.messageErrors
  }

  /** What one report says of a metric of the pair. */
  function OfferOf(r: Report, pair: (string, string), f: Field): Option<real> {
    if Usable(r) && Pair(r.source, r.target) == pair then Value(r.metrics, f) else None
  }

  predicate OffersFirst(reports: seq<Report>, pair: (string, string), f: Field, i: nat)
    requires i < |reports|
  {
    OfferOf(reports[i], pair, f).Some? && forall j :: 0 <= j < i ==> OfferOf(reports[j], pair, f).None?
  }

  function Offers(reports: seq<Report>, pair: (string, string), f: Field): (offers: seq<Option<real>>)
    ensures |offers| == |reports| && forall i :: 0 <= i < |offers| ==> offers[i] == OfferOf(reports[i], pair, f)
  {
    if reports == [] then [] else Offers(reports[..|reports| - 1], pair, f) + [OfferOf(reports[|reports| - 1], pair, f)]
  }

  function FirstSome(offers: seq<Option<real>>): Option<real> {
    if offers == [] then None else First(FirstSome(offers[..|offers| - 1]), offers[|offers| - 1])
  }

  predicate IsFirstSome(offers: seq<Option<real>>, i: nat)
    requires i < |offers|
  {
    offers[i].Some? && forall j :: 0 <= j < i ==> offers[j].None?
  }

  lemma {:induction false} FirstSomeIsFirst(offers: seq<Option<real>>)
    ensures FirstSome(offers).None? <==> forall i :: 0 <= i < |offers| ==> offers[i].None?
    ensures FirstSome(offers).Some? ==> exists i :: 0 <= i < |offers| && IsFirstSome(offers, i)
    ensures forall i :: 0 <= i < |offers| && IsFirstSome(offers, i) ==> FirstSome(offers) == offers[i]
  {
    if offers != [] {
      var n := |offers| - 1;
      var front := offers[..n];
      FirstSomeIsFirst(front);
      assert forall i :: 0 <= i < n ==> front[i] == offers[i];
      assert forall i :: 0 <= i < n ==> IsFirstSome(front, i) == IsFirstSome(offers, i);
      if FirstSome(front).None? && offers[n].Some? {
        assert IsFirstSome(offers, n);
      }
    }
  }

  lemma MergeByField(a: Metrics, b: Metrics, f: Field)
    ensures Value(Merge(a, b), f) == First(Value(a, f), Value(b, f))
  {
  }

  lemma {:induction false} MergedIsFirstSome(reports: seq<Report>, pair: (string, string), f: Field)
    ensures Value(Merged(reports, pair), f) == FirstSome(Offers(reports, pair, f))
  {
    if reports != [] {
      var front, r := reports[..|reports| - 1], reports[|reports| - 1];
      MergedIsFirstSome(front, pair, f);
      MergeByField(Merged(front, pair), r.metrics, f);
      assert Offers(reports, pair, f)[..|front|] == Offers(front, pair, f);
    }
  }

  /**
   Every metric of a pair is that of the first report of the pair bringing it, from
   whichever end, and is missing exactly when none does.
   */
  lemma MetricIsFirstReported(reports: seq<Report>, pair: (string, string), f: Field)
    ensures var merged := Value(Merged(reports, pair), f);
            && (merged.None? <==> forall i :: 0 <= i < |reports| ==> OfferOf(reports[i], pair, f).None?)
            && (merged.Some? ==> exists i :: 0 <= i < |reports| && OffersFirst(reports, pair, f, i))
            && forall i :: 0 <= i < |reports| && OffersFirst(reports, pair, f, i) ==>
                 merged == OfferOf(reports[i], pair, f)
  {
    var offers := Offers(reports, pair, f);
    MergedIsFirstSome(reports, pair, f);
    FirstSomeIsFirst(offers);
    forall i | 0 <= i < |reports|
      ensures IsFirstSome(offers, i) == OffersFirst(reports, pair, f, i)
    {
      assert offers[i] == OfferOf(reports[i], pair, f);
    }
  }

  lemma {:induction false} UpdateKeepsChildren(links: seq<Link>, k: nat, link: Link)
    requires k < |links| && links[k].kind == RouterLink && link.kind == RouterLink
    ensures ChildLinks(links[k := link]) == ChildLinks(links)
  {
    var front := links[..|links| - 1];
    if k < |links| - 1 {
      UpdateKeepsChildren(front, k, link);
      assert links[k := link][..|links| - 1] == front[k := link];
    } else {
      assert links[k := link][..|links| - 1] == front;
    }
  }

  // ---------------------------------------------------------------- what the finished graph promises

  /** The router links of a graph are exactly what the reports say. */
  ghost predicate ExactRouterLinks(links: seq<Link>, reports: seq<Report>) {
    && (forall k :: 0 <= k < |links| && links[k].kind == RouterLink ==>
          && links[k].source != links[k].target
          && Pair(links[k].source, links[k].target) == (links[k].source, links[k].target)
          && Named(reports, (links[k].source, links[k].target))
          && links[k].metrics == Merged(reports, (links[k].source, links[k].target)))
    && (forall j, k :: 0 <= j < k < |links| && links[j].kind == RouterLink && links[k].kind == RouterLink ==>
          Pair(links[j].source, links[j].target) != Pair(links[k].source, links[k].target))
    && (forall i :: 0 <= i < |reports| && Usable(reports[i]) ==>
          exists k :: 0 <= k < |links| && links[k].kind == RouterLink
                      && (links[k].source, links[k].target) == Pair(reports[i].source, reports[i].target))
  }

  lemma BuilderIsExact(b: Builder)
    requires b.Valid()
    ensures ExactRouterLinks(b.links, b.reports)
  {
    forall k | 0 <= k < |b.links| && b.links[k].kind == RouterLink
      ensures b.links[k].source != b.links[k].target
      ensures Pair(b.links[k].source, b.links[k].target) == (b.links[k].source, b.links[k].target)
    {
      var pair := (b.links[k].source, b.links[k].target);
      assert Named(b.reports, pair);
      var i :| 0 <= i < |b.reports| && Usable(b.reports[i]) && Pair(b.reports[i].source, b.reports[i].target) == pair;
      LessIsTotal(pair.0, pair.1);
      LessIsTotal(b.reports[i].source, b.reports[i].target);
    }
    forall i | 0 <= i < |b.reports| && Usable(b.reports[i])
      ensures exists k :: 0 <= k < |b.links| && b.links[k].kind == RouterLink
                          && (b.links[k].source, b.links[k].target) == Pair(b.reports[i].source, b.reports[i].target)
    {
      var pair := Pair(b.reports[i].source, b.reports[i].target);
      assert Named(b.reports, pair);
      assert b.links[b.index[pair]].source == pair.0;
    }
  }

  predicate Listed(records: seq<Record>, id: string) { exists i :: 0 <= i < |records| && Id(records[i]) == id }

  lemma ListedGrows(records: seq<Record>, r: Record, id: string)
    ensures Listed(records + [r], id) <==> Listed(records, id) || id == Id(r)
  {
    var grown := records + [r];
    assert grown[|records|] == r;
    if Listed(records, id) {
      var i :| 0 <= i < |records| && Id(records[i]) == id;
      assert grown[i] == records[i];
    }
  }

  /** Both indexes lead to listed routers. */
  lemma {:induction false} IndexesLeadToListed(records: seq<Record>)
    ensures forall ext :: ext in ByExtAddress(records) ==> Listed(records, ByExtAddress(records)[ext])
    ensures forall id :: id in ByRouterId(records) ==> Listed(records, ByRouterId(records)[id])
  {
    if records != [] {
      var front, r := records[..|records| - 1], records[|records| - 1];
      assert records == front + [r];
      IndexesLeadToListed(front);
      forall ext | ext in ByExtAddress(records)
        ensures Listed(records, ByExtAddress(records)[ext])
      {
        assert ByExtAddress(records)[ext] == Id(r)
               || (ext in ByExtAddress(front) && ByExtAddress(records)[ext] == ByExtAddress(front)[ext]);
        ListedGrows(front, r, ByExtAddress(records)[ext]);
      }
      forall id | id in ByRouterId(records)
        ensures Listed(records, ByRouterId(records)[id])
      {
        assert ByRouterId(records)[id] == Id(r)
               || (id in ByRouterId(front) && ByRouterId(records)[id] == ByRouterId(front)[id]);
        ListedGrows(front, r, ByRouterId(records)[id]);
      }
    }
  }

  /** Every report is one record's account of one peer. */
  predicate FromRecord(report: Report, r: Record, byExt: map<string, string>, byId: map<int, string>) {
    || (exists n :: 0 <= n < |r.neighbors| && report == NeighborReport(Id(r), r.neighbors[n], byExt))
    || (exists n :: 0 <= n < |r.routes| && report == RouteReport(Id(r), r.routes[n], byId))
  }

  lemma ReportsOfOne(r: Record, byExt: map<string, string>, byId: map<int, string>, report: Report)
    ensures report in ReportsOf(r, byExt, byId) <==> FromRecord(report, r, byExt, byId)
  {
    var a, b := NeighborReports(Id(r), r.neighbors, byExt), RouteReports(Id(r), r.routes, byId);
    assert report in a + b <==> report in a || report in b;
    assert forall n :: 0 <= n < |r.neighbors| ==> a[n] == NeighborReport(Id(r), r.neighbors[n], byExt);
    assert forall n :: 0 <= n < |r.routes| ==> b[n] == RouteReport(Id(r), r.routes[n], byId);
  }

  lemma {:induction false} ReportsComeFromRecords(records: seq<Record>, byExt: map<string, string>,
                                                  byId: map<int, string>, report: Report)
    ensures report in AllReports(records, byExt, byId) <==> ReportedBySome(records, byExt, byId, report)
  {
    if records != [] {
      var front, r := records[..|records| - 1], records[|records| - 1];
      ReportsComeFromRecords(front, byExt, byId, report);
      ReportsOfOne(r, byExt, byId, report);
      if ReportedBySome(records, byExt, byId, report) {
        var i :| 0 <= i < |records| && FromRecord(report, records[i], byExt, byId);
        assert i < |front| ==> FromRecord(report, front[i], byExt, byId);
      }
      if ReportedBySome(front, byExt, byId, report) {
        var i :| 0 <= i < |front| && FromRecord(report, front[i], byExt, byId);
        assert FromRecord(report, records[i], byExt, byId);
      }
      if FromRecord(report, r, byExt, byId) {
        assert FromRecord(report, records[|front|], byExt, byId);
      }
    }
  }

  predicate ReportedBySome(records: seq<Record>, byExt: map<string, string>, byId: map<int, string>, report: Report) {
    exists i :: 0 <= i < |records| && FromRecord(report, records[i], byExt, byId)
  }

  lemma ReportEndsAreListed(records: seq<Record>, report: Report)
    requires ReportedBySome(records, ByExtAddress(records), ByRouterId(records), report) && report.target != ""
    ensures Listed(records, report.source) && Listed(records, report.target)
  {
    IndexesLeadToListed(records);
  }

  /**
   The links of the finished graph join listed routers.
   */
  lemma LinksJoinListedRouters(records: seq<Record>, links: seq<Link>, k: nat)
    requires ExactRouterLinks(links, AllReports(records, ByExtAddress(records), ByRouterId(records)))
    requires k < |links| && links[k].kind == RouterLink
    ensures Listed(records, links[k].source) && Listed(records, links[k].target)
  {
    var byExt, byId := ByExtAddress(records), ByRouterId(records);
    var reports, pair := AllReports(records, byExt, byId), (links[k].source, links[k].target);
    assert Named(reports, pair);
    var i :| 0 <= i < |reports| && Usable(reports[i]) && Pair(reports[i].source, reports[i].target) == pair;
    ReportsComeFromRecords(records, byExt, byId, reports[i]);
    ReportEndsAreListed(records, reports[i]);
  }

  // ---------------------------------------------------------------- whom a record names

  /** Position `i` holds the last record with this extended address, in lower case. */
  predicate LastAddressed(records: seq<Record>, address: string, i: nat) {
    && i < |records| && records[i].extAddress != "" && ToLower(records[i].extAddress) == address
    && forall j :: i < j < |records| ==> records[j].extAddress == "" || ToLower(records[j].extAddress) != address
  }

  /** Position `i` holds the last record with this router ID. */
  predicate LastNumbered(records: seq<Record>, number: int, i: nat) {
    && i < |records| && records[i].routerId == Some(number)
    && forall j :: i < j < |records| ==> records[j].routerId != Some(number)
  }

  /** `id` is the ID of the last record with the address. */
  predicate IsAddressed(records: seq<Record>, address: string, id: string) {
    exists i :: 0 <= i < |records| && LastAddressed(records, address, i) && Id(records[i]) == id
  }

  /** `id` is the ID of the last record with the router ID. */
  predicate IsNumbered(records: seq<Record>, number: int, id: string) {
    exists i :: 0 <= i < |records| && LastNumbered(records, number, i) && Id(records[i]) == id
  }

  /** The address of a neighbour leads to the last record with it, whatever the case of its letters. */
  lemma {:induction false} AddressLeadsTo(records: seq<Record>, address: string, id: string)
    requires id != ""
    ensures Lookup(ByExtAddress(records), address) == id <==> IsAddressed(records, address, id)
  {
    if records != [] {
      var n := |records| - 1;
      var front, r := records[..n], records[n];
      AddressLeadsTo(front, address, id);
      if r.extAddress != "" && ToLower(r.extAddress) == address {
        assert LastAddressed(records, address, n);
      } else {
        assert forall i: nat :: LastAddressed(records, address, i) <==> LastAddressed(front, address, i);
      }
    }
  }

  /** The router ID of a route leads to the last record with it. */
  lemma {:induction false} NumberLeadsTo(records: seq<Record>, number: int, id: string)
    requires id != ""
    ensures Lookup(ByRouterId(records), number) == id <==> IsNumbered(records, number, id)
  {
    if records != [] {
      var n := |records| - 1;
      var front, r := records[..n], records[n];
      NumberLeadsTo(front, number, id);
      if r.routerId == Some(number) {
        assert LastNumbered(records, number, n);
      } else {
        assert forall i: nat :: LastNumbered(records, number, i) <==> LastNumbered(front, number, i);
      }
    }
  }

  /** A neighbour of `r` has the address of `id`'s record, or a route of `r` its router ID. */
  predicate Names(r: Record, records: seq<Record>, id: string) {
    || (exists n :: 0 <= n < |r.neighbors| && IsAddressed(records, ToLower(r.neighbors[n].extAddress), id))
    || (exists n :: 0 <= n < |r.routes| && IsNumbered(records, r.routes[n].routerId, id))
  }

  /** Some record of router `a` names `b`. */
  predicate NamesPeer(records: seq<Record>, a: string, b: string) {
    exists i :: 0 <= i < |records| && Id(records[i]) == a && Names(records[i], records, b)
  }

  lemma ReportIsNaming(records: seq<Record>, r: Record, b: string)
    requires b != ""
    ensures (exists report: Report :: report.source == Id(r) && report.target == b
                                      && FromRecord(report, r, ByExtAddress(records), ByRouterId(records)))
            <==> Names(r, records, b)
  {
    var byExt, byId := ByExtAddress(records), ByRouterId(records);
    forall n | 0 <= n < |r.neighbors|
      ensures NeighborReport(Id(r), r.neighbors[n], byExt).target == b <==>
              IsAddressed(records, ToLower(r.neighbors[n].extAddress), b)
    {
      AddressLeadsTo(records, ToLower(r.neighbors[n].extAddress), b);
    }
    forall n | 0 <= n < |r.routes|
      ensures RouteReport(Id(r), r.routes[n], byId).target == b <==>
              IsNumbered(records, r.routes[n].routerId, b)
    {
      NumberLeadsTo(records, r.routes[n].routerId, b);
    }
    if Names(r, records, b) {
      if n :| 0 <= n < |r.neighbors| && IsAddressed(records, ToLower(r.neighbors[n].extAddress), b) {
        assert FromRecord(NeighborReport(Id(r), r.neighbors[n], byExt), r, byExt, byId);
      } else {
        var n :| 0 <= n < |r.routes| && IsNumbered(records, r.routes[n].routerId, b);
        assert FromRecord(RouteReport(Id(r), r.routes[n], byId), r, byExt, byId);
      }
    }
  }

  lemma ReportsAreNamings(records: seq<Record>, a: string, b: string)
    requires b != ""
    ensures ReportsPeer(records, a, b) <==> NamesPeer(records, a, b)
  {
    forall i | 0 <= i < |records|
      ensures (exists report: Report :: report.source == Id(records[i]) && report.target == b
                 && FromRecord(report, records[i], ByExtAddress(records), ByRouterId(records)))
              <==> Names(records[i], records, b)
    {
      ReportIsNaming(records, records[i], b);
    }
  }

  /**
   Two IDs are linked exactly when a record of one lists a neighbour with the other's
   address or a route with its router ID.
   */
  lemma NamedPeersAreLinked(records: seq<Record>, links: seq<Link>, a: string, b: string)
    requires ExactRouterLinks(links, AllReports(records, ByExtAddress(records), ByRouterId(records)))
    requires a != "" && b != "" && a != b
    ensures IsLinked(links, Pair(a, b)) <==> NamesPeer(records, a, b) || NamesPeer(records, b, a)
  {
    ReportedPeersAreLinked(records, links, a, b);
    ReportsAreNamings(records, a, b);
    ReportsAreNamings(records, b, a);
  }

  lemma ReportedPeersAreLinked(records: seq<Record>, links: seq<Link>, a: string, b: string)
    requires ExactRouterLinks(links, AllReports(records, ByExtAddress(records), ByRouterId(records)))
    requires a != "" && b != "" && a != b
    ensures IsLinked(links, Pair(a, b)) <==> ReportsPeer(records, a, b) || ReportsPeer(records, b, a)
  {
    PairIsUnordered(a, b);
    if IsLinked(links, Pair(a, b)) {
      LinkedPeersAreReported(records, links, a, b);
    }
    if ReportsPeer(records, a, b) {
      PeerIsLinked(records, links, a, b);
    }
    if ReportsPeer(records, b, a) {
      PeerIsLinked(records, links, b, a);
    }
  }

  /** A router link joins the pair. */
  predicate IsLinked(links: seq<Link>, pair: (string, string)) {
    exists k :: 0 <= k < |links| && links[k].kind == RouterLink && Pair(links[k].source, links[k].target) == pair
  }

  lemma LinkedPeersAreReported(records: seq<Record>, links: seq<Link>, a: string, b: string)
    requires ExactRouterLinks(links, AllReports(records, ByExtAddress(records), ByRouterId(records)))
    requires IsLinked(links, Pair(a, b))
    ensures ReportsPeer(records, a, b) || ReportsPeer(records, b, a)
  {
    var byExt, byId := ByExtAddress(records), ByRouterId(records);
    var reports := AllReports(records, byExt, byId);
    assert Named(reports, Pair(a, b));
    var i :| 0 <= i < |reports| && Usable(reports[i]) && Pair(reports[i].source, reports[i].target) == Pair(a, b);
    ReportsComeFromRecords(records, byExt, byId, reports[i]);
    assert (reports[i].source == a && reports[i].target == b) || (reports[i].source == b && reports[i].target == a);
  }

  /** Some report of router `a` is of `b`. */
  ghost predicate ReportsPeer(records: seq<Record>, a: string, b: string) {
    exists report: Report, i :: 0 <= i < |records| && report.source == a && report.target == b
                                && FromRecord(report, records[i], ByExtAddress(records), ByRouterId(records))
  }

  lemma PeerIsLinked(records: seq<Record>, links: seq<Link>, a: string, b: string)
    requires ExactRouterLinks(links, AllReports(records, ByExtAddress(records), ByRouterId(records)))
    requires a != "" && b != "" && a != b && ReportsPeer(records, a, b)
    ensures IsLinked(links, Pair(a, b))
  {
    var byExt, byId := ByExtAddress(records), ByRouterId(records);
    var reports := AllReports(records, byExt, byId);
    var report: Report, i :| 0 <= i < |records| && report.source == a && report.target == b
                             && FromRecord(report, records[i], byExt, byId);
    ReportsComeFromRecords(records, byExt, byId, report);
    var j :| 0 <= j < |reports| && reports[j] == report;
    assert Usable(reports[j]);
    var k :| 0 <= k < |links| && links[k].kind == RouterLink && (links[k].source, links[k].target) == Pair(a, b);
  }
}
