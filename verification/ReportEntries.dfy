/** What the entries and sections of the report say, path by path (internal/matter/report.go). */
module ReportEntries {
  import opened Wrappers
  import opened Text
  import opened TextFacts
  import opened Sorting
  import opened Report

  // ---------------------------------------------------------------- paths

  /** Endpoint, cluster and attribute, between two slashes. */
  predicate IsPath(path: string, endpoint: string, cluster: string, attribute: string) {
    && '/' !in endpoint && '/' !in cluster && '/' !in attribute
    && path == endpoint + ['/'] + (cluster + ['/'] + attribute)
  }

  lemma PathParts(path: string, endpoint: string, cluster: string, attribute: string)
    requires IsPath(path, endpoint, cluster, attribute)
    ensures ThreePart(path)
    ensures Part(path, 0) == endpoint && Part(path, 1) == cluster && Part(path, 2) == attribute
  {
    SplitAt(endpoint, cluster + ['/'] + attribute, '/');
    SplitAt(cluster, attribute, '/');
    SplitWhole(attribute, '/');
  }

  /** Nothing else has three parts. */
  lemma ThreePartIff(path: string)
    ensures ThreePart(path) <==> exists a: string, b: string, c: string :: IsPath(path, a, b, c)
  {
    var parts := Split(path, '/');
    SplitIs(path, '/');
    if ThreePart(path) {
      assert parts[1..] == [parts[1], parts[2]] && parts[1..][1..] == [parts[2]];
      assert Join(parts[1..], '/') == parts[1] + ['/'] + parts[2];
      assert IsPath(path, parts[0], parts[1], parts[2]);
    }
    if a: string, b: string, c: string :| IsPath(path, a, b, c) {
      PathParts(path, a, b, c);
    }
  }

  // ---------------------------------------------------------------- entries

  /** A path under a heading: its name and value, unless the value is empty. */
  lemma SpecEntryIs(k: Knowledge, attributes: Attributes, path: string)
    ensures SpecEntry(k, attributes, path) ==
            if path in attributes && k.value(path, attributes[path]) != ""
            then [Entry(k.name(path), k.value(path, attributes[path]), path)] else []
  {
  }

  /** A table: one entry for every row, in order. */
  lemma TableEntriesAre(k: Knowledge, attributes: Attributes, path: string, i: nat)
    ensures path !in attributes ==> TableEntries(k, attributes, path) == []
    ensures path in attributes ==> |TableEntries(k, attributes, path)| == |k.rows(path, attributes[path])|
    ensures path in attributes && i < |k.rows(path, attributes[path])| ==>
              var (name, value) := k.rows(path, attributes[path])[i];
              TableEntries(k, attributes, path)[i] == Entry(name, value, path)
  {
  }

  /**
   Any other path: an empty value is called so, and a path of protocol bookkeeping is named after
   its cluster as well.
   */
  lemma RestEntryIs(k: Knowledge, attributes: Attributes, path: string, endpoint: string, cluster: string,
                    attribute: string)
    requires IsPath(path, endpoint, cluster, attribute) && path in attributes
    ensures var e := RestEntry(k, attributes, path);
            && e.source == path
            && e.value == (if k.value(path, attributes[path]) == "" then "empty" else k.value(path, attributes[path]))
            && e.name == if k.isGlobal(attribute) then k.title(endpoint, cluster) + " \U{b7} " + k.name(path)
                         else k.name(path)
  {
    PathParts(path, endpoint, cluster, attribute);
  }

  /** Where it goes: with the metadata, or to its cluster, and past the root endpoint to a band of its own. */
  lemma RestGoes(k: Knowledge, attributes: Attributes, homes: seq<Section>, path: string, endpoint: string,
                 cluster: string, attribute: string)
    requires RestHome(k, attributes, homes, path) && IsRest(k, attributes, path)
    requires IsPath(path, endpoint, cluster, attribute)
    ensures homes != []
    ensures k.isGlobal(attribute) ==> homes[0].title == "Cluster metadata" && homes[0].group == Raw
    ensures !k.isGlobal(attribute) ==> homes[0].title == k.title(endpoint, cluster)
    ensures !k.isGlobal(attribute) && endpoint != "0" ==> homes[0].group == Endpoints
    ensures homes[0].group in {Endpoints, Raw}
  {
    PathParts(path, endpoint, cluster, attribute);
    if !k.isGlobal(attribute) && endpoint != "0" {
      assert GoesTo(k, attributes, attributes.Keys, path, ClusterTitle(k, path));
    }
  }

  // ---------------------------------------------------------------- orders

  /** The bands in the order they are shown, an unknown one behind all others. */
  lemma BandOrder(text: string)
    ensures GroupRank(Overview) < GroupRank(Thread) < GroupRank(Matter) < GroupRank(Endpoints) < GroupRank(Raw)
    ensures GroupRank(Raw) < GroupRank(Unrecognised(text))
  {
  }

  /** So a section of an earlier band stands before every one of a later band. */
  lemma BandsAscend(k: Knowledge, sections: seq<Section>, i: nat, j: nat)
    requires InRuns(sections, SectionRank) && i < j < |sections|
    ensures GroupRank(sections[i].group) <= GroupRank(sections[j].group)
  {
  }

  /** Entries of a cluster by the number of their attribute, of the metadata by name. */
  lemma EntriesAscend(k: Knowledge, entries: seq<Entry>, i: nat, j: nat)
    requires i < j < |entries|
    ensures InRuns(entries, NumberOf(k)) ==> k.number(entries[i].source) <= k.number(entries[j].source)
    ensures NeverDescends(entries, ByName()) ==> !Less(entries[j].name, entries[i].name)
  {
    if NeverDescends(entries, ByName()) {
      assert !ByName()(entries[j], entries[i]);
    }
    if InRuns(entries, NumberOf(k)) {
      assert NumberOf(k)(entries[i]) <= NumberOf(k)(entries[j]);
    }
  }
}
