/**
 The readable report of a diagnostics export (`Report` and `remainingSections` in
 internal/matter/report.go, `tableSections` in internal/matter/report_tables.go). What
 the tables know about Matter is a parameter; the question is where each path ends up.
 */
module Report {
  import opened Wrappers
  import opened Text
  import opened Sorting

  datatype Group = Overview | Thread | Matter | Endpoints | Raw | Unrecognised(text: string)

  datatype Entry = Entry(name: string, value: string, source: string)

  datatype Section = Section(title: string, group: Group, entries: seq<Entry>)

  /** A heading and the paths listed under it. */
  datatype Spec = Spec(title: string, group: Group, paths: seq<string>)

  /** A path whose value is a list, shown as rows. */
  datatype Table = Table(title: string, group: Group, path: string)

  type Attributes = map<string, string>

  /**
   The tables of clusters, attributes and renderers. `rows` is empty for a list that is
   empty or cannot be decoded.
   */
  datatype Knowledge = Knowledge(
    specs: seq<Spec>, tables: seq<Table>,
    name: string -> string, value: (string, string) -> string, rows: (string, string) -> seq<(string, string)>,
    title: (string, string) -> string, isGlobal: string -> bool, number: string -> int)

  const METADATA_TITLE := "Cluster metadata"
  const DOT := " \U{b7} "

  function GroupRank(g: Group): int {
    match g
    case Overview => 0
    case Thread => 1
    case Matter => 2
    case Endpoints => 3
    case Raw => 4
    case Unrecognised(_) => 5
  }

  function SectionRank(s: Section): int { GroupRank(s.group) }

  // ---------------------------------------------------------------- what should be where

  function ValueIn(attributes: Attributes, path: string): string { if path in attributes then attributes[path] else "" }

  function ShownValue(k: Knowledge, attributes: Attributes, path: string): string {
    k.value(path, ValueIn(attributes, path))
  }

  function SpecPaths(specs: seq<Spec>): seq<string> {
    if specs == [] then [] else SpecPaths(specs[..|specs| - 1]) + specs[|specs| - 1].paths
  }

  function TablePaths(tables: seq<Table>): seq<string> {
    if tables == [] then [] else TablePaths(tables[..|tables| - 1]) + [tables[|tables| - 1].path]
  }

  /** No path is listed twice, which holds of the tables in the code. */
  predicate Disjoint(k: Knowledge) { Distinct(SpecPaths(k.specs) + TablePaths(k.tables)) }

  predicate ThreePart(path: string) { |Split(path, '/')| == 3 }

  function Part(path: string, i: nat): string { if i < |Split(path, '/')| then Split(path, '/')[i] else "" }

  /** Neither listed nor a table. */
  predicate IsRest(k: Knowledge, attributes: Attributes, path: string) {
    path in attributes && path !in SpecPaths(k.specs) && path !in TablePaths(k.tables) && ThreePart(path)
  }

  predicate IsGlobal(k: Knowledge, path: string) { k.isGlobal(Part(path, 2)) }

  function ClusterTitle(k: Knowledge, path: string): string { k.title(Part(path, 0), Part(path, 1)) }

  function SpecEntry(k: Knowledge, attributes: Attributes, path: string): seq<Entry> {
    var value := ShownValue(k, attributes, path);
    if path in attributes && value != "" then [Entry(k.name(path), value, path)] else []
  }

  function TableEntries(k: Knowledge, attributes: Attributes, path: string): seq<Entry> {
    if path !in attributes then []
    else
      var rows := k.rows(path, attributes[path]);
      seq(|rows|, i requires 0 <= i < |rows| => Entry(rows[i].0, rows[i].1, path))
  }

  function RestEntry(k: Knowledge, attributes: Attributes, path: string): Entry {
    var value := ShownValue(k, attributes, path);
    Entry(if IsGlobal(k, path) then ClusterTitle(k, path) + DOT + k.name(path) else k.name(path),
          if value == "" then "empty" else value, path)
  }

  /** The entries a path should have, all in one section. */
  function Expected(k: Knowledge, attributes: Attributes, path: string): seq<Entry> {
    if path in SpecPaths(k.specs) then SpecEntry(k, attributes, path)
    else if path in TablePaths(k.tables) then TableEntries(k, attributes, path)
    else if IsRest(k, attributes, path) then [RestEntry(k, attributes, path)]
    else []
  }

  function Of(path: string): Entry -> bool { (e: Entry) => e.source == path }

  function Mentions(path: string): Section -> bool { (s: Section) => Filter(s.entries, Of(path)) != [] }

  /** Exactly one section mentions the path, with exactly these entries; or none does when there are none. */
  predicate Placed(sections: seq<Section>, path: string, entries: seq<Entry>) {
    var homes := Filter(sections, Mentions(path));
    if entries == [] then homes == [] else |homes| == 1 && Filter(homes[0].entries, Of(path)) == entries
  }

  // ---------------------------------------------------------------- sections by heading

  function SpecEntries(k: Knowledge, attributes: Attributes, paths: seq<string>): seq<Entry> {
    if paths == [] then []
    else SpecEntries(k, attributes, paths[..|paths| - 1]) + SpecEntry(k, attributes, paths[|paths| - 1])
  }

  function Titled(title: string, group: Group, entries: seq<Entry>): seq<Section> {
    if entries == [] then [] else [Section(title, group, entries)]
  }

  function SpecSections(k: Knowledge, attributes: Attributes, specs: seq<Spec>): seq<Section> {
    if specs == [] then []
    else
      var spec := specs[|specs| - 1];
      SpecSections(k, attributes, specs[..|specs| - 1])
        + Titled(spec.title, spec.group, SpecEntries(k, attributes, spec.paths))
  }

  function TableSections(k: Knowledge, attributes: Attributes, tables: seq<Table>): seq<Section> {
    if tables == [] then []
    else
      var table := tables[|tables| - 1];
      TableSections(k, attributes, tables[..|tables| - 1])
        + Titled(table.title, table.group, TableEntries(k, attributes, table.path))
  }

  /** The paths a list of headings claims. */
  ghost predicate Claims(attributes: Attributes, paths: seq<string>, used: set<string>) {
    forall p :: p in used <==> p in attributes && p in paths
  }

  /** One heading. */
  method ReadSpec(k: Knowledge, attributes: Attributes, paths: seq<string>, ghost before: seq<string>,
                  used: set<string>)
    returns (entries: seq<Entry>, used': set<string>)
    requires Claims(attributes, before, used)
    ensures entries == SpecEntries(k, attributes, paths) && Claims(attributes, before + paths, used')
  {
    entries, used' := [], used;
    assert before + [] == before;
    for i := 0 to |paths|
      invariant entries == SpecEntries(k, attributes, paths[..i]) && Claims(attributes, before + paths[..i], used')
    {
      assert paths[..i + 1][..i] == paths[..i];
      assert before + paths[..i + 1] == before + paths[..i] + [paths[i]];
      if paths[i] in attributes {
        used' := used' + {paths[i]};
        var value := k.value(paths[i], attributes[paths[i]]);
        if value != "" {
          entries := entries + [Entry(k.name(paths[i]), value, paths[i])];
        }
      }
    }
    assert paths[..|paths|] == paths;
  }

  lemma OneMoreSpec(k: Knowledge, attributes: Attributes, i: nat)
    requires i < |k.specs|
    ensures SpecPaths(k.specs[..i + 1]) == SpecPaths(k.specs[..i]) + k.specs[i].paths
    ensures SpecSections(k, attributes, k.specs[..i + 1]) ==
            SpecSections(k, attributes, k.specs[..i])
            + Titled(k.specs[i].title, k.specs[i].group, SpecEntries(k, attributes, k.specs[i].paths))
  {
    assert k.specs[..i + 1][..i] == k.specs[..i];
  }

  method ReadSpecs(k: Knowledge, attributes: Attributes) returns (sections: seq<Section>, used: set<string>)
    ensures sections == SpecSections(k, attributes, k.specs) && Claims(attributes, SpecPaths(k.specs), used)
  {
    sections, used := [], {};
    for i := 0 to |k.specs|
      invariant sections == SpecSections(k, attributes, k.specs[..i])
                && Claims(attributes, SpecPaths(k.specs[..i]), used)
    {
      OneMoreSpec(k, attributes, i);
      var entries;
      entries, used := ReadSpec(k, attributes, k.specs[i].paths, SpecPaths(k.specs[..i]), used);
      if entries != [] {
        sections := sections + [Section(k.specs[i].title, k.specs[i].group, entries)];
      }
    }
    assert k.specs[..|k.specs|] == k.specs;
  }

  method ReadTables(k: Knowledge, attributes: Attributes, ghost before: seq<string>, used: set<string>)
    returns (sections: seq<Section>, used': set<string>)
    requires Claims(attributes, before, used)
    ensures sections == TableSections(k, attributes, k.tables)
            && Claims(attributes, before + TablePaths(k.tables), used')
  {
    sections, used' := [], used;
    assert before + [] == before;
    for i := 0 to |k.tables|
      invariant sections == TableSections(k, attributes, k.tables[..i])
      invariant Claims(attributes, before + TablePaths(k.tables[..i]), used')
    {
      var path := k.tables[i].path;
      assert k.tables[..i + 1][..i] == k.tables[..i];
      assert before + TablePaths(k.tables[..i + 1]) == before + TablePaths(k.tables[..i]) + [path];
      if path in attributes {
        used' := used' + {path};
        var entries := TableEntries(k, attributes, path);
        if entries != [] {
          sections := sections + [Section(k.tables[i].title, k.tables[i].group, entries)];
        }
      }
    }
    assert k.tables[..|k.tables|] == k.tables;
  }

  // ---------------------------------------------------------------- the rest

  function GroupIn(groups: map<string, seq<Entry>>, title: string): seq<Entry> {
    if title in groups then groups[title] else []
  }

  predicate GoesTo(k: Knowledge, attributes: Attributes, done: set<string>, path: string, title: string) {
    path in done && IsRest(k, attributes, path) && !IsGlobal(k, path) && ClusterTitle(k, path) == title
  }

  predicate IsMetadata(k: Knowledge, attributes: Attributes, done: set<string>, path: string) {
    path in done && IsRest(k, attributes, path) && IsGlobal(k, path)
  }

  function EntryIf(k: Knowledge, attributes: Attributes, path: string, goes: bool): seq<Entry> {
    if goes then [RestEntry(k, attributes, path)] else []
  }

  ghost predicate GroupsHold(k: Knowledge, attributes: Attributes, done: set<string>, groups: map<string, seq<Entry>>) {
    && (forall t, p :: Filter(GroupIn(groups, t), Of(p)) ==
          EntryIf(k, attributes, p, GoesTo(k, attributes, done, p, t)))
    && (forall t :: t in groups ==> groups[t] != [])
  }

  ghost predicate MetadataHolds(k: Knowledge, attributes: Attributes, done: set<string>, metadata: seq<Entry>) {
    forall p :: Filter(metadata, Of(p)) == EntryIf(k, attributes, p, IsMetadata(k, attributes, done, p))
  }

  /** Some path under this title is of an endpoint other than 0. */
  predicate IsOuter(k: Knowledge, attributes: Attributes, done: set<string>, title: string) {
    exists p :: p in done && GoesTo(k, attributes, done, p, title) && Part(p, 0) != "0"
  }

  ghost predicate OuterHolds(k: Knowledge, attributes: Attributes, done: set<string>, outer: set<string>) {
    forall t :: t in outer <==> IsOuter(k, attributes, done, t)
  }

  lemma NothingGathered(k: Knowledge, attributes: Attributes)
    ensures GroupsHold(k, attributes, {}, map[]) && MetadataHolds(k, attributes, {}, [])
            && OuterHolds(k, attributes, {}, {})
  {
  }

  lemma NotRest(k: Knowledge, attributes: Attributes, done: set<string>, path: string,
                groups: map<string, seq<Entry>>, metadata: seq<Entry>, outer: set<string>)
    requires GroupsHold(k, attributes, done, groups) && MetadataHolds(k, attributes, done, metadata)
    requires OuterHolds(k, attributes, done, outer) && !IsRest(k, attributes, path)
    ensures GroupsHold(k, attributes, done + {path}, groups) && MetadataHolds(k, attributes, done + {path}, metadata)
    ensures OuterHolds(k, attributes, done + {path}, outer)
  {
    forall t, p
      ensures GoesTo(k, attributes, done + {path}, p, t) == GoesTo(k, attributes, done, p, t)
    {
    }
    forall p
      ensures IsMetadata(k, attributes, done + {path}, p) == IsMetadata(k, attributes, done, p)
    {
    }
    forall t
      ensures IsOuter(k, attributes, done + {path}, t) == IsOuter(k, attributes, done, t)
    {
      if IsOuter(k, attributes, done + {path}, t) {
        var p :| p in done + {path} && GoesTo(k, attributes, done + {path}, p, t) && Part(p, 0) != "0";
        assert GoesTo(k, attributes, done, p, t);
      }
      if IsOuter(k, attributes, done, t) {
        var p :| p in done && GoesTo(k, attributes, done, p, t) && Part(p, 0) != "0";
        assert GoesTo(k, attributes, done + {path}, p, t);
      }
    }
  }

  lemma OneMoreMetadata(k: Knowledge, attributes: Attributes, done: set<string>, path: string, metadata: seq<Entry>)
    requires MetadataHolds(k, attributes, done, metadata) && path !in done
    requires IsRest(k, attributes, path) && IsGlobal(k, path)
    ensures MetadataHolds(k, attributes, done + {path}, metadata + [RestEntry(k, attributes, path)])
  {
    var e := RestEntry(k, attributes, path);
    forall p
      ensures Filter(metadata + [e], Of(p)) == EntryIf(k, attributes, p, IsMetadata(k, attributes, done + {path}, p))
    {
      FilterSnoc(metadata, e, Of(p));
      assert Filter(metadata, Of(p)) == EntryIf(k, attributes, p, IsMetadata(k, attributes, done, p));
    }
  }

  lemma GroupsIgnoreMetadata(k: Knowledge, attributes: Attributes, done: set<string>, path: string,
                             groups: map<string, seq<Entry>>, outer: set<string>)
    requires GroupsHold(k, attributes, done, groups) && OuterHolds(k, attributes, done, outer) && IsGlobal(k, path)
    ensures GroupsHold(k, attributes, done + {path}, groups) && OuterHolds(k, attributes, done + {path}, outer)
  {
    forall t, p
      ensures GoesTo(k, attributes, done + {path}, p, t) == GoesTo(k, attributes, done, p, t)
    {
    }
    forall t
      ensures IsOuter(k, attributes, done + {path}, t) == IsOuter(k, attributes, done, t)
    {
      if IsOuter(k, attributes, done + {path}, t) {
        var p :| p in done + {path} && GoesTo(k, attributes, done + {path}, p, t) && Part(p, 0) != "0";
        assert GoesTo(k, attributes, done, p, t);
      }
      if IsOuter(k, attributes, done, t) {
        var p :| p in done && GoesTo(k, attributes, done, p, t) && Part(p, 0) != "0";
        assert GoesTo(k, attributes, done + {path}, p, t);
      }
    }
  }

  function WithEntry(groups: map<string, seq<Entry>>, title: string, e: Entry): map<string, seq<Entry>> {
    groups[title := GroupIn(groups, title) + [e]]
  }

  lemma OneMoreInGroup(k: Knowledge, attributes: Attributes, done: set<string>, path: string,
                       groups: map<string, seq<Entry>>)
    requires GroupsHold(k, attributes, done, groups) && path !in done
    requires IsRest(k, attributes, path) && !IsGlobal(k, path)
    ensures GroupsHold(k, attributes, done + {path},
            WithEntry(groups, ClusterTitle(k, path), RestEntry(k, attributes, path)))
  {
    var e, title := RestEntry(k, attributes, path), ClusterTitle(k, path);
    forall t, p
      ensures Filter(GroupIn(WithEntry(groups, title, e), t), Of(p)) ==
              EntryIf(k, attributes, p, GoesTo(k, attributes, done + {path}, p, t))
    {
      FilterSnoc(GroupIn(groups, title), e, Of(p));
      assert Filter(GroupIn(groups, t), Of(p)) == EntryIf(k, attributes, p, GoesTo(k, attributes, done, p, t));
    }
  }

  /** Groups what no heading and no table claimed; the paths come in any order. */
  method GatherRest(k: Knowledge, attributes: Attributes, used: set<string>)
    returns (groups: map<string, seq<Entry>>, outer: set<string>, metadata: seq<Entry>)
    requires Claims(attributes, SpecPaths(k.specs) + TablePaths(k.tables), used)
    ensures GroupsHold(k, attributes, attributes.Keys, groups) && OuterHolds(k, attributes, attributes.Keys, outer)
    ensures MetadataHolds(k, attributes, attributes.Keys, metadata)
  {
    groups, outer, metadata := map[], {}, [];
    NothingGathered(k, attributes);
    var left := attributes.Keys;
    ghost var done: set<string> := {};
    while left != {}
      invariant left !! done && left + done == attributes.Keys
      invariant GroupsHold(k, attributes, done, groups) && OuterHolds(k, attributes, done, outer)
      invariant MetadataHolds(k, attributes, done, metadata)
      decreases left
    {
      var path := AnyOf(left);
      left := left - {path};
      if path in used || !ThreePart(path) {
        NotRest(k, attributes, done, path, groups, metadata, outer);
      } else if IsGlobal(k, path) {
        OneMoreMetadata(k, attributes, done, path, metadata);
        GroupsIgnoreMetadata(k, attributes, done, path, groups, outer);
        metadata := metadata + [RestEntry(k, attributes, path)];
      } else {
        OneMoreInGroup(k, attributes, done, path, groups);
        MetadataIgnoresGroups(k, attributes, done, path, metadata);
        groups := WithEntry(groups, ClusterTitle(k, path), RestEntry(k, attributes, path));
        outer := outer + if Part(path, 0) != "0" then {ClusterTitle(k, path)} else {};
      }
      done := done + {path};
    }
  }

  lemma MetadataIgnoresGroups(k: Knowledge, attributes: Attributes, done: set<string>, path: string,
                              metadata: seq<Entry>)
    requires MetadataHolds(k, attributes, done, metadata) && !IsGlobal(k, path)
    ensures MetadataHolds(k, attributes, done + {path}, metadata)
  {
    forall p
      ensures IsMetadata(k, attributes, done + {path}, p) == IsMetadata(k, attributes, done, p)
    {
    }
  }

  function NumberOf(k: Knowledge): Entry -> int { (e: Entry) => k.number(e.source) }

  function ByName(): (Entry, Entry) -> bool { (a: Entry, b: Entry) => Less(a.name, b.name) }

  /** The section of one cluster title. */
  function GroupSection(k: Knowledge, groups: map<string, seq<Entry>>, outer: set<string>, title: string): Section {
    Section(title, if title in outer then Endpoints else Raw, Sort(GroupIn(groups, title), ByRank(NumberOf(k))))
  }

  function GroupSections(sectionOf: string -> Section, titles: seq<string>): seq<Section> {
    if titles == [] then [] else GroupSections(sectionOf, titles[..|titles| - 1]) + [sectionOf(titles[|titles| - 1])]
  }

  function SectionOf(k: Knowledge, groups: map<string, seq<Entry>>, outer: set<string>): string -> Section {
    title => GroupSection(k, groups, outer, title)
  }

  lemma DistinctGrows(names: seq<string>, name: string)
    requires Distinct(names) && name !in names
    ensures Distinct(names + [name])
  {
    var grown := names + [name];
    forall i, j | 0 <= i < j < |grown|
      ensures grown[i] != grown[j]
    {
      assert grown[i] == names[i] && names[i] in names;
    }
  }

  /** The names, in ascending order. */
  method SortedTitles(names: set<string>) returns (titles: seq<string>)
    ensures Ascending(titles, Less) && forall t :: t in titles <==> t in names
  {
    var left, listed := names, [];
    while left != {}
      invariant left <= names && Distinct(listed) && forall t :: t in listed <==> t in names - left
      decreases left
    {
      var title := AnyOf(left);
      assert title !in listed;
      DistinctGrows(listed, title);
      left, listed := left - {title}, listed + [title];
    }
    titles := Sort(listed, Less);
    TextOrderIsStrict();
    forall i, j | 0 <= i < j < |listed|
      ensures Less(listed[i], listed[j]) || Less(listed[j], listed[i])
    {
      LessIsTotal(listed[i], listed[j]);
    }
    SortAscends(listed, Less);
  }

  /** `remainingSections`. */
  method RemainingSections(k: Knowledge, attributes: Attributes, used: set<string>) returns (sections: seq<Section>)
    requires Claims(attributes, SpecPaths(k.specs) + TablePaths(k.tables), used)
    ensures forall p :: RestPlaced(k, attributes, sections, p)
    ensures RestInOrder(k, sections)
  {
    var groups, outer, metadata := GatherRest(k, attributes, used);
    var titles := SortedTitles(groups.Keys);
    sections := [];
    for i := 0 to |titles|
      invariant sections == GroupSections(SectionOf(k, groups, outer), titles[..i])
    {
      assert titles[..i + 1][..i] == titles[..i];
      sections := sections + [GroupSection(k, groups, outer, titles[i])];
    }
    assert titles[..|titles|] == titles;
    sections := sections + Titled(METADATA_TITLE, Raw, Sort(metadata, ByName()));
    RestIsInOrder(k, groups, outer, metadata, titles);
    forall p
      ensures RestPlaced(k, attributes, sections, p)
    {
      RestIsPlaced(k, attributes, groups, outer, metadata, titles, p);
    }
  }

  /**
   A path of the rest has its one entry in the section of its cluster, or with the
   metadata; other paths are not mentioned.
   */
  predicate RestPlaced(k: Knowledge, attributes: Attributes, sections: seq<Section>, path: string) {
    && Placed(sections, path, EntryIf(k, attributes, path, IsRest(k, attributes, path)))
    && (IsRest(k, attributes, path) ==> RestHome(k, attributes, Filter(sections, Mentions(path)), path))
  }

  predicate RestHome(k: Knowledge, attributes: Attributes, homes: seq<Section>, path: string) {
    && homes != []
    && homes[0].title == (if IsGlobal(k, path) then METADATA_TITLE else ClusterTitle(k, path))
    && homes[0].group ==
         if !IsGlobal(k, path) && IsOuter(k, attributes, attributes.Keys, ClusterTitle(k, path)) then Endpoints else Raw
  }

  /** Cluster sections by ascending title, the entries of each by number. */
  predicate ClustersInOrder(k: Knowledge, sections: seq<Section>) {
    && (forall i, j :: 0 <= i < j < |sections| ==> Less(sections[i].title, sections[j].title))
    && (forall i :: 0 <= i < |sections| ==> InRuns(sections[i].entries, NumberOf(k)))
  }

  /** At most one metadata section, its entries by name. */
  predicate MetadataInOrder(sections: seq<Section>) {
    |sections| <= 1 && forall i :: 0 <= i < |sections| ==> NeverDescends(sections[i].entries, ByName())
  }

  /** The cluster sections in order, and the metadata behind all of them. */
  ghost predicate RestInOrder(k: Knowledge, sections: seq<Section>) {
    exists n: nat :: n <= |sections| && ClustersInOrder(k, sections[..n]) && MetadataInOrder(sections[n..])
  }

  lemma ByNameNeverDescends(entries: seq<Entry>)
    ensures NeverDescends(Sort(entries, ByName()), ByName())
  {
    TextOrderIsStrict();
    forall a: Entry, b: Entry, c: Entry | !Less(b.name, a.name) && !Less(c.name, b.name)
      ensures !Less(c.name, a.name)
    {
      LessIsTotal(a.name, b.name);
      LessIsTotal(b.name, c.name);
    }
    SortNeverDescends(entries, ByName());
  }

  lemma {:induction false} GroupSectionsInOrder(k: Knowledge, groups: map<string, seq<Entry>>, outer: set<string>,
                                                titles: seq<string>)
    requires Ascending(titles, Less)
    ensures var sections := GroupSections(SectionOf(k, groups, outer), titles);
            |sections| == |titles| && (forall i :: 0 <= i < |titles| ==> sections[i].title == titles[i])
            && ClustersInOrder(k, sections)
  {
    if titles != [] {
      var n := |titles| - 1;
      GroupSectionsInOrder(k, groups, outer, titles[..n]);
      SortIsStable(GroupIn(groups, titles[n]), NumberOf(k), 0);
    }
  }

  lemma RestIsInOrder(k: Knowledge, groups: map<string, seq<Entry>>, outer: set<string>, metadata: seq<Entry>,
                      titles: seq<string>)
    requires Ascending(titles, Less)
    ensures RestInOrder(k, GroupSections(SectionOf(k, groups, outer), titles)
                           + Titled(METADATA_TITLE, Raw, Sort(metadata, ByName())))
  {
    var clusters := GroupSections(SectionOf(k, groups, outer), titles);
    var last := Titled(METADATA_TITLE, Raw, Sort(metadata, ByName()));
    GroupSectionsInOrder(k, groups, outer, titles);
    ByNameNeverDescends(metadata);
    assert (clusters + last)[..|clusters|] == clusters && (clusters + last)[|clusters|..] == last;
  }

  lemma GroupMentions(k: Knowledge, attributes: Attributes, groups: map<string, seq<Entry>>, outer: set<string>,
                      title: string, p: string)
    requires GroupsHold(k, attributes, attributes.Keys, groups)
    ensures Filter(GroupSection(k, groups, outer, title).entries, Of(p)) ==
            EntryIf(k, attributes, p, GoesTo(k, attributes, attributes.Keys, p, title))
  {
    assert Filter(GroupIn(groups, title), Of(p)) ==
           EntryIf(k, attributes, p, GoesTo(k, attributes, attributes.Keys, p, title));
    SortKeepsOne(GroupIn(groups, title), ByRank(NumberOf(k)), Of(p));
  }

  lemma OneGroupMentions(k: Knowledge, attributes: Attributes, groups: map<string, seq<Entry>>, outer: set<string>,
                         title: string, p: string)
    requires GroupsHold(k, attributes, attributes.Keys, groups)
    ensures Mentions(p)(GroupSection(k, groups, outer, title)) <==>
            IsRest(k, attributes, p) && !IsGlobal(k, p) && ClusterTitle(k, p) == title
  {
    GroupMentions(k, attributes, groups, outer, title, p);
  }

  /** Among sections of distinct titles only the path's own mentions it. */
  lemma {:induction false} OwnSectionMentions(sectionOf: string -> Section, titles: seq<string>,
                                              mentions: Section -> bool,
                                              goes: bool, home: string)
    requires Distinct(titles)
    requires forall t :: t in titles ==> mentions(sectionOf(t)) == (goes && t == home)
    ensures Filter(GroupSections(sectionOf, titles), mentions) ==
            if goes && home in titles then [sectionOf(home)] else []
  {
    if titles != [] {
      var n := |titles| - 1;
      assert titles == titles[..n] + [titles[n]];
      OwnSectionMentions(sectionOf, titles[..n], mentions, goes, home);
      FilterSnoc(GroupSections(sectionOf, titles[..n]), sectionOf(titles[n]), mentions);
    }
  }

  lemma GroupSectionsMention(k: Knowledge, attributes: Attributes, groups: map<string, seq<Entry>>,
                             outer: set<string>, titles: seq<string>, p: string)
    requires GroupsHold(k, attributes, attributes.Keys, groups) && Distinct(titles)
    ensures Filter(GroupSections(SectionOf(k, groups, outer), titles), Mentions(p)) ==
            if IsRest(k, attributes, p) && !IsGlobal(k, p) && ClusterTitle(k, p) in titles
            then [GroupSection(k, groups, outer, ClusterTitle(k, p))] else []
  {
    var sectionOf := SectionOf(k, groups, outer);
    forall t | t in titles
      ensures Mentions(p)(sectionOf(t)) == (IsRest(k, attributes, p) && !IsGlobal(k, p) && t == ClusterTitle(k, p))
    {
      OneGroupMentions(k, attributes, groups, outer, t, p);
    }
    OwnSectionMentions(sectionOf, titles, Mentions(p), IsRest(k, attributes, p) && !IsGlobal(k, p), ClusterTitle(k, p));
  }

  lemma MetadataMention(k: Knowledge, attributes: Attributes, metadata: seq<Entry>, p: string)
    requires MetadataHolds(k, attributes, attributes.Keys, metadata)
    ensures Filter(Titled(METADATA_TITLE, Raw, Sort(metadata, ByName())), Mentions(p)) ==
            var section := Section(METADATA_TITLE, Raw, Sort(metadata, ByName()));
            if IsMetadata(k, attributes, attributes.Keys, p) then [section] else []
    ensures IsMetadata(k, attributes, attributes.Keys, p) ==>
            Filter(Sort(metadata, ByName()), Of(p)) == [RestEntry(k, attributes, p)]
  {
    SortKeepsOne(metadata, ByName(), Of(p));
    var section := Section(METADATA_TITLE, Raw, Sort(metadata, ByName()));
    FilterSnoc([], section, Mentions(p));
    assert [] + [section] == [section];
  }

  lemma AscendingIsDistinct(titles: seq<string>)
    requires Ascending(titles, Less)
    ensures Distinct(titles)
  {
    forall i, j | 0 <= i < j < |titles|
      ensures titles[i] != titles[j]
    {
      LessIsTotal(titles[i], titles[j]);
    }
  }

  lemma RestIsPlaced(k: Knowledge, attributes: Attributes, groups: map<string, seq<Entry>>, outer: set<string>,
                     metadata: seq<Entry>, titles: seq<string>, p: string)
    requires GroupsHold(k, attributes, attributes.Keys, groups) && OuterHolds(k, attributes, attributes.Keys, outer)
    requires MetadataHolds(k, attributes, attributes.Keys, metadata)
    requires Ascending(titles, Less) && forall t :: t in titles <==> t in groups
    ensures var sections := GroupSections(SectionOf(k, groups, outer), titles)
                            + Titled(METADATA_TITLE, Raw, Sort(metadata, ByName()));
            RestPlaced(k, attributes, sections, p)
  {
    var title := ClusterTitle(k, p);
    AscendingIsDistinct(titles);
    GroupSectionsMention(k, attributes, groups, outer, titles, p);
    GroupMentions(k, attributes, groups, outer, title, p);
    MetadataMention(k, attributes, metadata, p);
    FilterJoins(GroupSections(SectionOf(k, groups, outer), titles),
      Titled(METADATA_TITLE, Raw, Sort(metadata, ByName())), Mentions(p));
    assert Filter(GroupIn(groups, title), Of(p)) ==
           EntryIf(k, attributes, p, GoesTo(k, attributes, attributes.Keys, p, title));
    assert title in outer <==> IsOuter(k, attributes, attributes.Keys, title);
  }

  // ---------------------------------------------------------------- the whole report

  lemma LastIsNew(paths: seq<string>)
    requires Distinct(paths) && paths != []
    ensures var n := |paths| - 1;
            Distinct(paths[..n]) && forall p :: p in paths <==> (p in paths[..n] && p != paths[n]) || p == paths[n]
  {
    assert paths == paths[..|paths| - 1] + [paths[|paths| - 1]];
  }

  lemma {:induction false} SpecEntriesOf(k: Knowledge, attributes: Attributes, paths: seq<string>, p: string)
    requires Distinct(paths)
    ensures Filter(SpecEntries(k, attributes, paths), Of(p)) == if p in paths then SpecEntry(k, attributes, p) else []
  {
    if paths != [] {
      var n := |paths| - 1;
      LastIsNew(paths);
      SpecEntriesOf(k, attributes, paths[..n], p);
      FilterJoins(SpecEntries(k, attributes, paths[..n]), SpecEntry(k, attributes, paths[n]), Of(p));
      OneSpecEntry(k, attributes, paths[n], p);
    }
  }

  lemma OneSpecEntry(k: Knowledge, attributes: Attributes, path: string, p: string)
    ensures Filter(SpecEntry(k, attributes, path), Of(p)) == if p == path then SpecEntry(k, attributes, p) else []
  {
    var e := Entry(k.name(path), ShownValue(k, attributes, path), path);
    FilterSnoc([], e, Of(p));
    assert [] + [e] == [e];
  }

  /** A titled section mentions a path exactly when an entry of it does. */
  lemma TitledMentions(title: string, group: Group, entries: seq<Entry>, p: string)
    ensures Filter(Titled(title, group, entries), Mentions(p)) ==
            if Filter(entries, Of(p)) != [] then [Section(title, group, entries)] else []
  {
    var section := Section(title, group, entries);
    FilterSnoc([], section, Mentions(p));
    assert [] + [section] == [section];
  }

  lemma DistinctParts(a: seq<string>, b: seq<string>)
    requires Distinct(a + b)
    ensures Distinct(a) && Distinct(b) && forall p :: p in a ==> p !in b
  {
    var all := a + b;
    forall i, j | 0 <= i < |a| && 0 <= j < |b|
      ensures a[i] != b[j]
    {
      assert all[i] == a[i] && all[|a| + j] == b[j];
    }
    assert forall i :: 0 <= i < |a| ==> a[i] == all[i];
    assert forall i :: 0 <= i < |b| ==> b[i] == all[|a| + i];
  }

  lemma {:induction false} SpecIsPlaced(k: Knowledge, attributes: Attributes, specs: seq<Spec>, p: string)
    requires Distinct(SpecPaths(specs))
    ensures Placed(SpecSections(k, attributes, specs), p,
                   if p in SpecPaths(specs) then SpecEntry(k, attributes, p) else [])
  {
    if specs != [] {
      var n := |specs| - 1;
      var spec := specs[n];
      DistinctParts(SpecPaths(specs[..n]), spec.paths);
      SpecIsPlaced(k, attributes, specs[..n], p);
      SpecEntriesOf(k, attributes, spec.paths, p);
      TitledMentions(spec.title, spec.group, SpecEntries(k, attributes, spec.paths), p);
      FilterJoins(SpecSections(k, attributes, specs[..n]),
                  Titled(spec.title, spec.group, SpecEntries(k, attributes, spec.paths)), Mentions(p));
    }
  }

  lemma {:induction false} AllOrNone(entries: seq<Entry>, path: string, p: string)
    requires forall i :: 0 <= i < |entries| ==> entries[i].source == path
    ensures Filter(entries, Of(p)) == if p == path then entries else []
  {
    if entries != [] {
      AllOrNone(entries[1..], path, p);
      assert entries == [entries[0]] + entries[1..];
    }
  }

  lemma {:induction false} TableIsPlaced(k: Knowledge, attributes: Attributes, tables: seq<Table>, p: string)
    requires Distinct(TablePaths(tables))
    ensures Placed(TableSections(k, attributes, tables), p,
                   if p in TablePaths(tables) then TableEntries(k, attributes, p) else [])
  {
    if tables != [] {
      var n := |tables| - 1;
      var table := tables[n];
      DistinctParts(TablePaths(tables[..n]), [table.path]);
      TableIsPlaced(k, attributes, tables[..n], p);
      AllOrNone(TableEntries(k, attributes, table.path), table.path, p);
      TitledMentions(table.title, table.group, TableEntries(k, attributes, table.path), p);
      FilterJoins(TableSections(k, attributes, tables[..n]),
                  Titled(table.title, table.group, TableEntries(k, attributes, table.path)), Mentions(p));
      assert table.path in [table.path];
    }
  }

  lemma PlacedInOne(a: seq<Section>, b: seq<Section>, p: string, inA: seq<Entry>, inB: seq<Entry>)
    requires Placed(a, p, inA) && Placed(b, p, inB) && (inA == [] || inB == [])
    ensures Placed(a + b, p, inA + inB)
  {
    FilterJoins(a, b, Mentions(p));
    assert inA + [] == inA && [] + inB == inB;
  }

  /** Sorting the sections moves them and changes nothing in them. */
  lemma PlacedInOrder(sections: seq<Section>, p: string, entries: seq<Entry>)
    requires Placed(sections, p, entries)
    ensures Placed(Banded(sections), p, entries)
    ensures Filter(Banded(sections), Mentions(p)) == Filter(sections, Mentions(p))
  {
    SortKeepsOne(sections, ByRank(SectionRank), Mentions(p));
  }

  /** The sections with each band in one run. */
  function Banded(sections: seq<Section>): seq<Section> { Sort(sections, ByRank(SectionRank)) }

  /** Each band is one run, with its sections in the order they were made. */
  lemma BandsAreRuns(sections: seq<Section>, rank: int)
    ensures InRuns(Banded(sections), SectionRank)
    ensures Filter(Banded(sections), HasRank(SectionRank, rank)) == Filter(sections, HasRank(SectionRank, rank))
  {
    SortIsStable(sections, SectionRank, rank);
  }

  /** A path is where it should be, with what it should show. */
  predicate Reported(k: Knowledge, attributes: Attributes, sections: seq<Section>, path: string) {
    && Placed(sections, path, Expected(k, attributes, path))
    && (IsRest(k, attributes, path) ==> RestHome(k, attributes, Filter(sections, Mentions(path)), path))
  }

  lemma AllIsPlaced(k: Knowledge, attributes: Attributes, rest: seq<Section>, p: string)
    requires Disjoint(k) && RestPlaced(k, attributes, rest, p)
    ensures Reported(k, attributes,
                     Banded(SpecSections(k, attributes, k.specs) + TableSections(k, attributes, k.tables) + rest), p)
  {
    var specs, tables := SpecSections(k, attributes, k.specs), TableSections(k, attributes, k.tables);
    DistinctParts(SpecPaths(k.specs), TablePaths(k.tables));
    SpecIsPlaced(k, attributes, k.specs, p);
    TableIsPlaced(k, attributes, k.tables, p);
    var inSpecs := if p in SpecPaths(k.specs) then SpecEntry(k, attributes, p) else [];
    var inTables := if p in TablePaths(k.tables) then TableEntries(k, attributes, p) else [];
    var inRest := EntryIf(k, attributes, p, IsRest(k, attributes, p));
    PlacedInOne(specs, tables, p, inSpecs, inTables);
    PlacedInOne(specs + tables, rest, p, inSpecs + inTables, inRest);
    assert inSpecs + inTables + inRest == Expected(k, attributes, p);
    PlacedInOrder(specs + tables + rest, p, Expected(k, attributes, p));
    FilterJoins(specs + tables, rest, Mentions(p));
  }

  /**
   `Report`: nothing with three parts is dropped or shown twice, and each band is one run.
   `made` is what the sections are in the order they were made: those of the headings and
   tables first, then `rest` in its own order.
   */
  method Report(k: Knowledge, attributes: Attributes)
    returns (sections: seq<Section>, ghost made: seq<Section>, ghost rest: seq<Section>)
    requires Disjoint(k)
    ensures forall p :: Reported(k, attributes, sections, p)
    ensures InRuns(sections, SectionRank) && sections == Banded(made)
    ensures made == SpecSections(k, attributes, k.specs) + TableSections(k, attributes, k.tables) + rest
    ensures RestInOrder(k, rest)
  {
    var specs, used := ReadSpecs(k, attributes);
    var tables;
    tables, used := ReadTables(k, attributes, SpecPaths(k.specs), used);
    var others := RemainingSections(k, attributes, used);
    rest := others;
    made := specs + tables + others;
    sections := Banded(specs + tables + others);
    forall p
      ensures Reported(k, attributes, sections, p)
    {
      AllIsPlaced(k, attributes, others, p);
    }
    BandsAreRuns(specs + tables + others, 0);
  }

  /** In particular: which paths of an export the report leaves out. */
  lemma OnlyEmptiesAreDropped(k: Knowledge, attributes: Attributes, sections: seq<Section>, path: string)
    requires Reported(k, attributes, sections, path) && path in attributes && ThreePart(path)
    ensures Filter(sections, Mentions(path)) == [] <==>
            || (path in SpecPaths(k.specs) && k.value(path, attributes[path]) == "")
            || (path !in SpecPaths(k.specs) && path in TablePaths(k.tables) && k.rows(path, attributes[path]) == [])
  {
    assert path in TablePaths(k.tables) ==> |TableEntries(k, attributes, path)| == |k.rows(path, attributes[path])|;
  }
}
