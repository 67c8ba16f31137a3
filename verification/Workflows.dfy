/** The workflow rows of console-tui/src/store.rs: one row per bundle, folded from the payload's version items. */
module Workflows {
  import opened Wrappers
  import opened Sorting
  import StringOrder
  import Texts

  datatype Entrypoint = Entrypoint(
    flowId: string, workflowId: string, name: string, description: string, interfaces: seq<string>, deprecated: bool)

  datatype Item = Item(
    bundleId: string, version: string, isDraft: bool, channel: Option<string>, createdAt: string,
    scope: Option<string>, latest: string, source: Option<string>, description: string,
    defaultEntrypoint: string, entrypoints: seq<Entrypoint>)

  datatype Version = Version(version: string, channel: string, createdAt: string, entrypoints: nat)

  /** Name, description and interfaces of an entrypoint. */
  datatype Info = Info(name: string, description: string, interfaces: seq<string>)

  datatype Row = Row(
    bundleId: string, scope: string, published: nat, draft: nat, entrypoints: nat, latest: string, deprecated: bool,
    flows: seq<(string, string, string)>, name: string, description: string, source: Option<string>,
    info: seq<Info>, interfaces: seq<string>, versions: seq<Version>)

  // ----- what one item contributes

  function JoinComma(s: seq<string>): string {
    if s == [] then [] else if |s| == 1 then s[0] else s[0] + ", " + JoinComma(s[1..])
  }

  function NameOf(e: Entrypoint): string {
    if Texts.Trim(e.name) == [] then Texts.Trim(e.flowId) else Texts.Trim(e.name)
  }

  function InfoOf(eps: seq<Entrypoint>): (r: seq<Info>)
    ensures |r| == |eps|
  {
    seq(|eps|, i requires 0 <= i < |eps| => Info(NameOf(eps[i]), Texts.Trim(eps[i].description), eps[i].interfaces))
  }

  function FlowsOf(eps: seq<Entrypoint>): seq<(string, string, string)> {
    seq(|eps|, i requires 0 <= i < |eps| => (eps[i].flowId, eps[i].workflowId, JoinComma(eps[i].interfaces)))
  }

  function VersionOf(it: Item): Version {
    Version(it.version,
            if it.channel.Some? then it.channel.value else if it.isDraft then "draft" else "published",
            it.createdAt, |it.entrypoints|)
  }

  /** The first entrypoint the item declares as its default. */
  function Declared(flowId: string, eps: seq<Entrypoint>): Option<Entrypoint> {
    if flowId == [] || eps == [] then None
    else if Texts.Trim(eps[0].flowId) == flowId then Some(eps[0])
    else Declared(flowId, eps[1..])
  }

  /** The entrypoint that names the bundle: the declared default, else the first. */
  function Default(it: Item): Option<Entrypoint> {
    var declared := Declared(it.defaultEntrypoint, it.entrypoints);
    if declared.Some? then declared
    else if it.entrypoints != [] then Some(it.entrypoints[0])
    else None
  }

  function AllInterfaces(info: seq<Info>): seq<string> {
    if info == [] then [] else AllInterfaces(info[..|info| - 1]) + info[|info| - 1].interfaces
  }

  /** First occurrences, in order. */
  function Distinct(s: seq<string>): seq<string> {
    if s == [] then []
    else
      var before := Distinct(s[..|s| - 1]);
      if s[|s| - 1] in before then before else before + [s[|s| - 1]]
  }

  /** The version is at least every version seen: it names the bundle from now on. */
  predicate Newer(versions: seq<Version>, version: string) {
    forall i :: 0 <= i < |versions| ==> StringOrder.Le(versions[i].version, version)
  }

  function NewRow(it: Item): Row {
    Row(it.bundleId, if it.scope.Some? then it.scope.value else "private",
        0, 0, 0, "", false, [], "", "", None, [], [], [])
  }

  function Named(row: Row, it: Item): Row {
    var ep := Default(it);
    var named :=
      if ep.Some? then
        row.(name := NameOf(ep.value),
             description := if Texts.Trim(it.description) == [] then Texts.Trim(ep.value.description)
                            else Texts.Trim(it.description))
      else row;
    named.(source := it.source, info := InfoOf(it.entrypoints),
           interfaces := Distinct(AllInterfaces(InfoOf(it.entrypoints))))
  }

  function Counted(row: Row, it: Item): Row {
    row.(
      draft := row.draft + (if it.isDraft then 1 else 0),
      published := row.published + (if it.isDraft then 0 else 1),
      entrypoints := if |it.entrypoints| > row.entrypoints then |it.entrypoints| else row.entrypoints,
      latest := if row.latest == [] then it.latest else row.latest,
      deprecated := row.deprecated || AnyDeprecated(it),
      flows := if row.flows == [] then FlowsOf(it.entrypoints) else row.flows)
  }

  predicate AnyDeprecated(it: Item) {
    exists i :: 0 <= i < |it.entrypoints| && it.entrypoints[i].deprecated
  }

  function Update(row: Row, it: Item): Row {
    var named := if Newer(row.versions, it.version) then Named(Counted(row, it), it) else Counted(row, it);
    named.(versions := row.versions + [VersionOf(it)])
  }

  /** The items of one bundle, in payload order. */
  function ItemsOf(items: seq<Item>, id: string): seq<Item> {
    if items == [] then []
    else
      var before := ItemsOf(items[..|items| - 1], id);
      if items[|items| - 1].bundleId == id then before + [items[|items| - 1]] else before
  }

  function Folded(items: seq<Item>): Row
    requires items != []
  {
    var last := items[|items| - 1];
    Update(if |items| == 1 then NewRow(last) else Folded(items[..|items| - 1]), last)
  }

  function VersionsDown(a: Version, b: Version): bool {
    StringOrder.Le(b.version, a.version)
  }

  /** The row of a bundle: its items folded, its versions newest first. */
  function RowOf(items: seq<Item>, id: string): Row
    requires ItemsOf(items, id) != []
  {
    Sorted(Folded(ItemsOf(items, id)))
  }

  // ----- the code

  type Rows = map<string, Row>

  ghost predicate HoldsRows(rows: Rows, items: seq<Item>) {
    forall id :: id in rows <==> id != "" && ItemsOf(items, id) != []
  }

  ghost predicate HoldsFolds(rows: Rows, items: seq<Item>) {
    forall id :: id in rows && ItemsOf(items, id) != [] ==> rows[id] == Folded(ItemsOf(items, id))
  }

  lemma DistinctStep(s: seq<string>, x: string)
    ensures Distinct(s + [x]) == if x in Distinct(s) then Distinct(s) else Distinct(s) + [x]
  {
    assert (s + [x])[..|s|] == s;
  }

  lemma InterfacesStep(info: seq<Info>, k: nat)
    requires k < |info|
    ensures AllInterfaces(info[..k + 1]) == AllInterfaces(info[..k]) + info[k].interfaces
  {
    assert info[..k + 1][..k] == info[..k];
  }

  /** The inner loop: the interfaces of one entrypoint. */
  method AddInterfaces(ifaces: seq<string>, list: seq<string>, ghost before: seq<string>) returns (r: seq<string>)
    requires ifaces == Distinct(before)
    ensures r == Distinct(before + list)
  {
    hide *;
    r := ifaces;
    assert before + list[..0] == before;
    for i := 0 to |list|
      invariant r == Distinct(before + list[..i])
    {
      DistinctStep(before + list[..i], list[i]);
      assert before + list[..i + 1] == (before + list[..i]) + [list[i]];
      if list[i] !in r {
        r := r + [list[i]];
      }
    }
    assert list[..|list|] == list;
  }

  /** The nested loops over the interfaces of the entrypoints. */
  method CollectInterfaces(info: seq<Info>) returns (ifaces: seq<string>)
    ensures ifaces == Distinct(AllInterfaces(info))
  {
    hide *;
    NoInterfaces(info);
    ifaces := [];
    for k := 0 to |info|
      invariant ifaces == Distinct(AllInterfaces(info[..k]))
    {
      InterfacesStep(info, k);
      ifaces := AddInterfaces(ifaces, info[k].interfaces, AllInterfaces(info[..k]));
    }
    assert info[..|info|] == info;
  }

  lemma NoInterfaces(info: seq<Info>)
    ensures Distinct(AllInterfaces(info[..0])) == []
  {
  }

  /** Counts, first values and maxima, changed field by field. */
  method CountItem(row: Row, it: Item) returns (r: Row)
    ensures r == Counted(row, it)
  {
    hide FlowsOf;
    r := row;
    if it.isDraft {
      r := r.(draft := r.draft + 1);
    } else {
      r := r.(published := r.published + 1);
    }
    if |it.entrypoints| > r.entrypoints {
      r := r.(entrypoints := |it.entrypoints|);
    }
    if r.latest == [] {
      r := r.(latest := it.latest);
    }
    if AnyDeprecated(it) {
      r := r.(deprecated := true);
    }
    if r.flows == [] {
      r := r.(flows := FlowsOf(it.entrypoints));
    }
  }

  /** The newest version names the bundle and says what it does. */
  method NameRow(row: Row, it: Item) returns (r: Row)
    ensures r == Named(row, it)
  {
    hide Distinct, AllInterfaces, Default, InfoOf, NameOf;
    r := row;
    var ep := Default(it);
    if ep.Some? {
      var description := Texts.Trim(it.description);
      r := r.(name := NameOf(ep.value),
        description := if description == [] then Texts.Trim(ep.value.description) else description);
    }
    r := r.(source := it.source);
    var info := InfoOf(it.entrypoints);
    var ifaces := CollectInterfaces(info);
    r := r.(info := info, interfaces := ifaces);
  }

  /** The body of the loop over the items. */
  method UpdateRow(row: Row, it: Item) returns (r: Row)
    ensures r == Update(row, it)
  {
    hide Newer, Named, Counted, VersionOf;
    r := CountItem(row, it);
    CountingKeepsVersions(row, it);
    if Newer(r.versions, it.version) {
      r := NameRow(r, it);
      NamingKeepsCounts(Counted(row, it), it);
    }
    r := r.(versions := r.versions + [VersionOf(it)]);
  }

  lemma CountingKeepsVersions(row: Row, it: Item)
    ensures Counted(row, it).versions == row.versions
    ensures Counted(row, it).name == row.name && Counted(row, it).description == row.description
  {
  }

  lemma NamingKeepsCounts(row: Row, it: Item)
    ensures var r := Named(row, it);
            && r.versions == row.versions && r.scope == row.scope && r.entrypoints == row.entrypoints
            && r.latest == row.latest && r.flows == row.flows && r.deprecated == row.deprecated
  {
  }

  method CollectRows(items: seq<Item>) returns (byId: Rows)
    ensures HoldsRows(byId, items) && HoldsFolds(byId, items)
  {
    hide Update, NewRow;
    byId := map[];
    for k := 0 to |items|
      invariant HoldsRows(byId, items[..k]) && HoldsFolds(byId, items[..k])
    {
      var it := items[k];
      assert items[..k + 1][..k] == items[..k];
      ghost var before := ItemsOf(items[..k], it.bundleId);
      assert ItemsOf(items[..k + 1], it.bundleId) == before + [it];
      assert (before + [it])[..|before|] == before;
      if it.bundleId == "" {
        continue;
      }
      var row := if it.bundleId in byId then byId[it.bundleId] else NewRow(it);
      row := UpdateRow(row, it);
      byId := byId[it.bundleId := row];
    }
    assert items[..|items|] == items;
  }

  predicate ById(a: Row, b: Row) {
    StringOrder.Le(a.bundleId, b.bundleId)
  }

  lemma {:induction false} FoldedId(items: seq<Item>, id: string)
    requires items != [] && forall i :: 0 <= i < |items| ==> items[i].bundleId == id
    ensures Folded(items).bundleId == id
  {
    hide *;
    var n := |items| - 1;
    if n == 0 {
      assert items == [items[0]];
      FoldedOne(items[0]);
    } else {
      FoldedStep(items, n);
      FoldedId(items[..n], id);
      UpdateCounts(Folded(items[..n]), items[n]);
    }
  }

  lemma {:induction false} ItemsOfHaveId(items: seq<Item>, id: string)
    ensures forall i :: 0 <= i < |ItemsOf(items, id)| ==> ItemsOf(items, id)[i].bundleId == id
  {
    if items != [] {
      ItemsOfHaveId(items[..|items| - 1], id);
    }
  }

  lemma {:induction false} ItemIsCounted(items: seq<Item>, k: nat)
    requires k < |items|
    ensures ItemsOf(items, items[k].bundleId) != []
  {
    if k < |items| - 1 {
      ItemIsCounted(items[..|items| - 1], k);
    }
  }

  lemma RowKeepsId(items: seq<Item>, id: string)
    requires ItemsOf(items, id) != []
    ensures RowOf(items, id).bundleId == id
  {
    ItemsOfHaveId(items, id);
    FoldedId(ItemsOf(items, id), id);
  }

  /** The keys of a BTreeMap, in its order. */
  method KeysInOrder(byId: Rows) returns (ids: seq<string>)
    ensures SortedBy(ids, StringOrder.Le) && multiset(ids) == multiset(byId.Keys)
  {
    StringOrder.IsTotalOrder();
    ids := [];
    var left := byId.Keys;
    while left != {}
      invariant left <= byId.Keys
      invariant SortedBy(ids, StringOrder.Le) && multiset(ids) == multiset(byId.Keys - left)
      decreases |left|
    {
      var id :| id in left;
      InsertKeepsSorted(id, ids, StringOrder.Le);
      assert byId.Keys - (left - {id}) == (byId.Keys - left) + {id};
      ids := Insert(id, ids, StringOrder.Le);
      left := left - {id};
    }
    assert byId.Keys - {} == byId.Keys;
  }

  lemma CountedTwice(ids: seq<string>, i: nat, j: nat)
    requires i < j < |ids| && ids[i] == ids[j]
    ensures multiset(ids)[ids[i]] >= 2
  {
    assert ids == ids[..j] + [ids[j]] + ids[j + 1..];
    assert ids[..j][i] == ids[i] && ids[i] in ids[..j];
  }

  lemma SetHasNoRepeats(ids: seq<string>, s: set<string>)
    requires multiset(ids) == multiset(s)
    ensures forall i, j :: 0 <= i < j < |ids| ==> ids[i] != ids[j]
    ensures forall id :: id in ids <==> id in s
  {
    forall i, j | 0 <= i < j < |ids| ensures ids[i] != ids[j] {
      if ids[i] == ids[j] {
        CountedTwice(ids, i, j);
      }
    }
    forall id ensures id in ids <==> id in s {
      assert id in ids <==> id in multiset(ids);
    }
  }

  ghost predicate RowsFor(rows: seq<Row>, ids: seq<string>, items: seq<Item>) {
    && |rows| == |ids|
    && forall i :: 0 <= i < |rows| ==>
         ids[i] != "" && ItemsOf(items, ids[i]) != [] && rows[i] == RowOf(items, ids[i]) && rows[i].bundleId == ids[i]
  }

  lemma NoRowsYet(items: seq<Item>)
    ensures RowsFor([], [], items)
  {
  }

  function Sorted(row: Row): Row {
    row.(versions := Sort(row.versions, VersionsDown))
  }

  lemma RowsForMore(rows: seq<Row>, ids: seq<string>, items: seq<Item>, id: string, row: Row)
    requires RowsFor(rows, ids, items)
    requires id != "" && ItemsOf(items, id) != [] && row == RowOf(items, id) && row.bundleId == id
    ensures RowsFor(rows + [row], ids + [id], items)
  {
    hide ItemsOf, RowOf;
  }

  lemma RowInMap(byId: Rows, items: seq<Item>, id: string)
    requires HoldsRows(byId, items) && HoldsFolds(byId, items) && id in byId
    ensures id != "" && ItemsOf(items, id) != []
    ensures Sorted(byId[id]) == RowOf(items, id) && RowOf(items, id).bundleId == id
  {
    hide ItemsOf, Folded, Sort;
    RowKeepsId(items, id);
  }

  /** The map's rows in key order, the versions of each sorted. */
  method ListRows(byId: Rows, ids: seq<string>, ghost items: seq<Item>) returns (rows: seq<Row>)
    requires HoldsRows(byId, items) && HoldsFolds(byId, items)
    requires forall i :: 0 <= i < |ids| ==> ids[i] in byId
    ensures RowsFor(rows, ids, items)
  {
    hide *;
    NoRowsYet(items);
    assert ids[..0] == [];
    rows := [];
    for n := 0 to |ids|
      invariant RowsFor(rows, ids[..n], items)
    {
      var row := Sorted(byId[ids[n]]);
      RowInMap(byId, items, ids[n]);
      RowsForMore(rows, ids[..n], items, ids[n], row);
      rows := rows + [row];
      assert ids[..n + 1] == ids[..n] + [ids[n]];
    }
    assert ids[..|ids|] == ids;
  }

  /** One row for every bundle id of a payload that is not empty, ordered by it. */
  ghost predicate IsTable(rows: seq<Row>, items: seq<Item>) {
    && (forall i :: 0 <= i < |rows| ==>
          && rows[i].bundleId != "" && ItemsOf(items, rows[i].bundleId) != []
          && rows[i] == RowOf(items, rows[i].bundleId))
    && SortedBy(rows, ById)
    && (forall i, j :: 0 <= i < j < |rows| ==> rows[i].bundleId != rows[j].bundleId)
    && (forall k :: 0 <= k < |items| && items[k].bundleId != "" ==>
          exists i :: 0 <= i < |rows| && rows[i].bundleId == items[k].bundleId)
  }

  lemma RowsAreTable(rows: seq<Row>, ids: seq<string>, byId: Rows, items: seq<Item>)
    requires HoldsRows(byId, items) && RowsFor(rows, ids, items)
    requires SortedBy(ids, StringOrder.Le) && forall i, j :: 0 <= i < j < |ids| ==> ids[i] != ids[j]
    requires forall id :: id in ids <==> id in byId
    ensures IsTable(rows, items)
  {
    hide ItemsOf, RowOf;
    forall k | 0 <= k < |items| && items[k].bundleId != ""
      ensures exists i :: 0 <= i < |rows| && rows[i].bundleId == items[k].bundleId
    {
      ItemIsCounted(items, k);
      assert items[k].bundleId in ids;
      var i :| 0 <= i < |ids| && ids[i] == items[k].bundleId;
      assert rows[i].bundleId == ids[i];
    }
  }

  /** The rows, newest version first, ordered by bundle id. */
  method WorkflowRows(items: seq<Item>) returns (rows: seq<Row>)
    ensures IsTable(rows, items)
  {
    hide ItemsOf, RowOf, Sort;
    var byId := CollectRows(items);
    var ids := KeysInOrder(byId);
    SetHasNoRepeats(ids, byId.Keys);
    assert forall i :: 0 <= i < |ids| ==> ids[i] in ids;
    rows := ListRows(byId, ids, items);
    RowsAreTable(rows, ids, byId, items);
    SortOfSorted(rows, ById);
    rows := Sort(rows, ById);
  }

  // ----- what a folded row says

  /** One item: counted once, its version appended, shown exactly when its version is at least every one before. */
  lemma UpdateCounts(row: Row, it: Item)
    ensures var r := Update(row, it);
            && r.bundleId == row.bundleId && r.published + r.draft == row.published + row.draft + 1
            && r.versions == row.versions + [VersionOf(it)]
            && (Newer(row.versions, it.version) ==> ShowsItem(r, it))
            && (!Newer(row.versions, it.version) ==> forall shown :: ShowsItem(row, shown) ==> ShowsItem(r, shown))
  {
  }

  lemma FoldedOne(it: Item)
    ensures Folded([it]).bundleId == it.bundleId
    ensures Folded([it]).published + Folded([it]).draft == 1 && Folded([it]).versions == [VersionOf(it)]
    ensures ShowsItem(Folded([it]), it) && IsLeader([it], 0)
  {
    UpdateCounts(NewRow(it), it);
    StringOrder.Total(it.version, it.version);
  }

  lemma FoldedStep(items: seq<Item>, n: nat)
    requires |items| == n + 1 && n > 0
    ensures Folded(items) == Update(Folded(items[..n]), items[n])
  {
  }

  /** No item is lost: one version per item, each counted once as published or as draft. */
  lemma {:induction false} NoItemIsLost(items: seq<Item>)
    requires items != []
    ensures var row := Folded(items);
            && row.published + row.draft == |row.versions| == |items|
            && forall i :: 0 <= i < |items| ==> row.versions[i] == VersionOf(items[i])
  {
    hide *;
    var n := |items| - 1;
    if n == 0 {
      assert items == [items[0]];
      FoldedOne(items[0]);
    } else {
      NoItemIsLost(items[..n]);
      FoldedStep(items, n);
      UpdateCounts(Folded(items[..n]), items[n]);
    }
  }

  /** The first `latest` that is not empty. */
  ghost predicate IsFirstLatest(items: seq<Item>, latest: string) {
    if latest == "" then forall i :: 0 <= i < |items| ==> items[i].latest == ""
    else exists i :: 0 <= i < |items| && items[i].latest == latest && forall j :: 0 <= j < i ==> items[j].latest == ""
  }

  lemma LatestGrows(items: seq<Item>, it: Item, latest: string)
    requires IsFirstLatest(items, latest)
    ensures IsFirstLatest(items + [it], if latest == "" then it.latest else latest)
  {
    assert (items + [it])[|items|] == it;
    if latest != "" {
      var i :| 0 <= i < |items| && items[i].latest == latest && forall j :: 0 <= j < i ==> items[j].latest == "";
      assert (items + [it])[i].latest == latest;
    }
  }

  /** The flows of the first item that has an entrypoint. */
  ghost predicate AreFirstFlows(items: seq<Item>, flows: seq<(string, string, string)>) {
    if flows == [] then forall i :: 0 <= i < |items| ==> items[i].entrypoints == []
    else exists i :: 0 <= i < |items| && flows == FlowsOf(items[i].entrypoints)
                     && forall j :: 0 <= j < i ==> items[j].entrypoints == []
  }

  lemma FlowsGrow(items: seq<Item>, it: Item, flows: seq<(string, string, string)>)
    requires AreFirstFlows(items, flows)
    ensures AreFirstFlows(items + [it], if flows == [] then FlowsOf(it.entrypoints) else flows)
  {
    hide FlowsOf;
    FlowsAreEmpty(it.entrypoints);
    assert (items + [it])[|items|] == it;
    if flows != [] {
      var i :| 0 <= i < |items| && flows == FlowsOf(items[i].entrypoints)
               && forall j :: 0 <= j < i ==> items[j].entrypoints == [];
      assert (items + [it])[i] == items[i];
    }
  }

  lemma FlowsAreEmpty(eps: seq<Entrypoint>)
    ensures FlowsOf(eps) == [] <==> eps == []
  {
  }

  ghost predicate IsMostEntrypoints(items: seq<Item>, n: nat) {
    && (forall i :: 0 <= i < |items| ==> |items[i].entrypoints| <= n)
    && (items == [] ==> n == 0)
    && (items != [] ==> exists i :: 0 <= i < |items| && |items[i].entrypoints| == n)
  }

  lemma EntrypointsGrow(items: seq<Item>, it: Item, n: nat)
    requires IsMostEntrypoints(items, n)
    ensures IsMostEntrypoints(items + [it], if |it.entrypoints| > n then |it.entrypoints| else n)
  {
    var all := items + [it];
    assert all[|items|] == it;
    if items != [] {
      var i :| 0 <= i < |items| && |items[i].entrypoints| == n;
      assert all[i] == items[i];
    }
  }

  ghost predicate SomeDeprecated(items: seq<Item>) {
    exists i :: 0 <= i < |items| && AnyDeprecated(items[i])
  }

  lemma DeprecationGrows(items: seq<Item>, it: Item)
    ensures SomeDeprecated(items + [it]) <==> SomeDeprecated(items) || AnyDeprecated(it)
  {
    hide AnyDeprecated;
    var all := items + [it];
    assert all[|items|] == it;
    if SomeDeprecated(items) {
      var i :| 0 <= i < |items| && AnyDeprecated(items[i]);
      assert all[i] == items[i];
    }
  }

  /** The scope of the first item, the first `latest` and flows there are, the most entrypoints, any deprecation. */
  ghost predicate Summarises(row: Row, items: seq<Item>) {
    && (items != [] ==> row.scope == if items[0].scope.Some? then items[0].scope.value else "private")
    && IsFirstLatest(items, row.latest) && AreFirstFlows(items, row.flows)
    && IsMostEntrypoints(items, row.entrypoints) && (row.deprecated <==> SomeDeprecated(items))
  }

  lemma SummaryFields(row: Row, it: Item)
    ensures var r := Update(row, it);
            && r.scope == row.scope
            && r.latest == (if row.latest == "" then it.latest else row.latest)
            && r.flows == (if row.flows == [] then FlowsOf(it.entrypoints) else row.flows)
            && r.entrypoints == (if |it.entrypoints| > row.entrypoints then |it.entrypoints| else row.entrypoints)
            && (r.deprecated <==> row.deprecated || AnyDeprecated(it))
  {
    hide Named, Newer, FlowsOf, VersionOf, AnyDeprecated;
    NamingKeepsCounts(Counted(row, it), it);
  }

  lemma SummaryGrows(row: Row, items: seq<Item>, it: Item)
    requires Summarises(row, items)
    requires items == [] ==> row.scope == if it.scope.Some? then it.scope.value else "private"
    ensures Summarises(Update(row, it), items + [it])
  {
    hide Update, IsFirstLatest, AreFirstFlows, IsMostEntrypoints, SomeDeprecated, FlowsOf, AnyDeprecated;
    SummaryFields(row, it);
    LatestGrows(items, it, row.latest);
    FlowsGrow(items, it, row.flows);
    EntrypointsGrow(items, it, row.entrypoints);
    DeprecationGrows(items, it);
  }

  lemma FreshSummary(it: Item)
    ensures Summarises(NewRow(it), [])
    ensures NewRow(it).scope == if it.scope.Some? then it.scope.value else "private"
  {
  }

  /** What a row says about all its items at once. */
  lemma {:induction false} RowSummarises(items: seq<Item>)
    requires items != []
    ensures Summarises(Folded(items), items)
  {
    hide *;
    var n := |items| - 1;
    assert items == items[..n] + [items[n]];
    if n == 0 {
      FoldedFirst(items);
      FreshSummary(items[0]);
      SummaryGrows(NewRow(items[0]), [], items[0]);
    } else {
      RowSummarises(items[..n]);
      FoldedStep(items, n);
      SummaryGrows(Folded(items[..n]), items[..n], items[n]);
    }
  }

  /** An item at least as new as every one before it, with an entrypoint to take a name from. */
  ghost predicate Names(items: seq<Item>, i: nat) {
    && i < |items| && items[i].entrypoints != []
    && forall j :: 0 <= j < i ==> StringOrder.Le(items[j].version, items[i].version)
  }

  ghost predicate IsNamedBy(row: Row, it: Item) {
    var ep := Default(it);
    && ep.Some? && row.name == NameOf(ep.value)
    && row.description == (if Texts.Trim(it.description) != [] then Texts.Trim(it.description)
                           else Texts.Trim(ep.value.description))
  }

  /** The last naming item names the row; without one it has no name. */
  ghost predicate IsNamed(row: Row, items: seq<Item>) {
    || (row.name == row.description == "" && forall i: nat :: !Names(items, i))
    || (exists i: nat :: Names(items, i) && IsNamedBy(row, items[i]) && forall j: nat :: j > i ==> !Names(items, j))
  }

  lemma UpdateNames(row: Row, it: Item)
    ensures var r := Update(row, it);
            if Newer(row.versions, it.version) && it.entrypoints != [] then IsNamedBy(r, it)
            else r.name == row.name && r.description == row.description
  {
    hide Newer, Counted, InfoOf, Distinct, AllInterfaces, NameOf, Texts.Trim, VersionOf;
    CountingKeepsVersions(row, it);
  }

  lemma NamesGrow(items: seq<Item>, it: Item, versions: seq<Version>)
    requires |versions| == |items| && forall i :: 0 <= i < |items| ==> versions[i].version == items[i].version
    ensures forall i: nat :: i < |items| ==> Names(items + [it], i) == Names(items, i)
    ensures Names(items + [it], |items|) <==> Newer(versions, it.version) && it.entrypoints != []
  {
    hide StringOrder.Le;
    var all, n := items + [it], |items|;
    assert all[n] == it && forall i :: 0 <= i < n ==> all[i] == items[i];
    if Names(all, n) {
      forall i | 0 <= i < n ensures StringOrder.Le(versions[i].version, it.version) {
        assert StringOrder.Le(all[i].version, all[n].version);
      }
    }
  }

  lemma NamingGrows(row: Row, items: seq<Item>, it: Item)
    requires IsNamed(row, items) && |row.versions| == |items|
    requires forall i :: 0 <= i < |items| ==> row.versions[i].version == items[i].version
    ensures IsNamed(Update(row, it), items + [it])
  {
    hide Update, Newer, Default, Texts.Trim, NameOf, StringOrder.Le;
    var all, r, n := items + [it], Update(row, it), |items|;
    assert all[n] == it && forall i :: 0 <= i < n ==> all[i] == items[i];
    UpdateNames(row, it);
    NamesGrow(items, it, row.versions);
    if !Names(all, n) {
      NamingKept(row, r, items, it);
    }
  }

  lemma NamingKept(row: Row, r: Row, items: seq<Item>, it: Item)
    requires IsNamed(row, items) && !Names(items + [it], |items|)
    requires r.name == row.name && r.description == row.description
    requires forall i: nat :: i < |items| ==> Names(items + [it], i) == Names(items, i)
    ensures IsNamed(r, items + [it])
  {
    hide Default, Texts.Trim, NameOf, StringOrder.Le;
    var all := items + [it];
    if i: nat :| Names(items, i) && IsNamedBy(row, items[i]) && forall j: nat :: j > i ==> !Names(items, j) {
      assert Names(all, i) && all[i] == items[i] && IsNamedBy(r, all[i]);
      forall j: nat | j > i ensures !Names(all, j) {
        if j < |items| {
          assert !Names(items, j);
        }
      }
    } else {
      forall i: nat ensures !Names(all, i) {
        if i < |items| {
          assert !Names(items, i);
        }
      }
    }
  }

  /** Name and description come from the last item that was the newest so far and has an entrypoint. */
  lemma {:induction false} RowIsNamed(items: seq<Item>)
    requires items != []
    ensures IsNamed(Folded(items), items)
  {
    hide *;
    var n := |items| - 1;
    assert items == items[..n] + [items[n]];
    if n == 0 {
      FreshIsNamed(items[0]);
      NamingGrows(NewRow(items[0]), [], items[0]);
      FoldedFirst(items);
      assert items == [] + [items[0]];
    } else {
      RowIsNamed(items[..n]);
      NoItemIsLost(items[..n]);
      VersionsOf(items[..n], Folded(items[..n]).versions);
      FoldedStep(items, n);
      NamingGrows(Folded(items[..n]), items[..n], items[n]);
    }
  }

  lemma FreshIsNamed(it: Item)
    ensures IsNamed(NewRow(it), []) && NewRow(it).versions == []
  {
  }

  lemma FoldedFirst(items: seq<Item>)
    requires |items| == 1
    ensures Folded(items) == Update(NewRow(items[0]), items[0])
  {
  }

  lemma VersionsOf(items: seq<Item>, versions: seq<Version>)
    requires |versions| == |items| && forall i :: 0 <= i < |items| ==> versions[i] == VersionOf(items[i])
    ensures forall i :: 0 <= i < |items| ==> versions[i].version == items[i].version
  {
  }

  /** The last item that carries the greatest version string. */
  ghost predicate IsLeader(items: seq<Item>, i: nat) {
    && i < |items|
    && (forall j :: 0 <= j < |items| ==> StringOrder.Le(items[j].version, items[i].version))
    && (forall j :: i < j < |items| ==> items[j].version != items[i].version)
  }

  /** What the row shows comes from that item. */
  ghost predicate ShowsItem(row: Row, it: Item) {
    && row.source == it.source && row.info == InfoOf(it.entrypoints)
    && row.interfaces == Distinct(AllInterfaces(InfoOf(it.entrypoints)))
  }

  /** A new item is newest exactly when it is at least the leader so far. */
  lemma NewestBeatsLeader(items: seq<Item>, i: nat, versions: seq<Version>, version: string)
    requires IsLeader(items, i) && |versions| == |items|
    requires forall j :: 0 <= j < |items| ==> versions[j] == VersionOf(items[j])
    ensures Newer(versions, version) <==> StringOrder.Le(items[i].version, version)
  {
    StringOrder.IsTotalOrder();
    assert versions[i].version == items[i].version;
    assert forall j :: 0 <= j < |items| ==> versions[j].version == items[j].version;
  }

  lemma NextLeader(items: seq<Item>, i: nat)
    requires |items| > 1 && IsLeader(items[..|items| - 1], i)
    ensures var n := |items| - 1;
            if StringOrder.Le(items[i].version, items[n].version) then IsLeader(items, n) else IsLeader(items, i)
  {
    hide StringOrder.Le;
    var n := |items| - 1;
    assert forall j :: 0 <= j < n ==> items[..n][j] == items[j];
    StringOrder.Total(items[i].version, items[n].version);
    StringOrder.Total(items[n].version, items[n].version);
    if StringOrder.Le(items[i].version, items[n].version) {
      forall j | 0 <= j < n ensures StringOrder.Le(items[j].version, items[n].version) {
        StringOrder.Transitive(items[..n][j].version, items[..n][i].version, items[n].version);
      }
    }
  }

  /** Source, entrypoint info and interfaces come from the last item that carries the greatest version string. */
  lemma {:induction false} LeaderIsShown(items: seq<Item>) returns (i: nat)
    requires items != []
    ensures IsLeader(items, i) && ShowsItem(Folded(items), items[i])
  {
    hide *;
    var n := |items| - 1;
    if n == 0 {
      assert items == [items[0]];
      FoldedOne(items[0]);
      i := 0;
    } else {
      var before := items[..n];
      i := LeaderIsShown(before);
      LeaderInRange(before, i);
      NoItemIsLost(before);
      NewestBeatsLeader(before, i, Folded(before).versions, items[n].version);
      NextLeader(items, i);
      FoldedStep(items, n);
      UpdateCounts(Folded(before), items[n]);
      if StringOrder.Le(items[i].version, items[n].version) {
        i := n;
      }
    }
  }

  lemma LeaderInRange(items: seq<Item>, i: nat)
    requires IsLeader(items, i)
    ensures i < |items|
  {
  }

  lemma LeaderIsUnique(items: seq<Item>, i: nat, j: nat)
    requires IsLeader(items, i) && IsLeader(items, j)
    ensures i == j
  {
    StringOrder.Antisymmetry(items[i].version, items[j].version);
  }

  ghost predicate NoRepeats(s: seq<string>) {
    forall i, j :: 0 <= i < j < |s| ==> s[i] != s[j]
  }

  /** The interfaces of a list, each once: the same members, no repeats. */
  lemma {:induction false} DistinctHasNoRepeats(s: seq<string>)
    ensures NoRepeats(Distinct(s)) && forall x :: x in Distinct(s) <==> x in s
  {
    if s != [] {
      var before := Distinct(s[..|s| - 1]);
      DistinctHasNoRepeats(s[..|s| - 1]);
      assert s == s[..|s| - 1] + [s[|s| - 1]];
    }
  }

  /** Sorting the versions leaves the rest of the row. */
  lemma SortedRow(row: Row, items: seq<Item>, it: Item)
    requires Summarises(row, items) && IsNamed(row, items) && ShowsItem(row, it)
    ensures var r := Sorted(row);
            && Summarises(r, items) && IsNamed(r, items) && ShowsItem(r, it)
            && r.published == row.published && r.draft == row.draft && r.interfaces == row.interfaces
            && |r.versions| == |row.versions|
            && multiset(r.versions) == multiset(row.versions) && SortedBy(r.versions, VersionsDown)
  {
    hide IsFirstLatest, AreFirstFlows, IsMostEntrypoints, SomeDeprecated, Sort, InfoOf, Distinct, AllInterfaces,
         Default, Texts.Trim, NameOf, StringOrder.Le;
    VersionsDownIsPreorder();
    SortSorts(row.versions, VersionsDown);
    if i: nat :| Names(items, i) && IsNamedBy(row, items[i]) && forall j: nat :: j > i ==> !Names(items, j) {
      assert IsNamedBy(Sorted(row), items[i]);
    }
  }

  lemma ShownInterfaces(row: Row, it: Item)
    requires ShowsItem(row, it)
    ensures NoRepeats(row.interfaces)
  {
    DistinctHasNoRepeats(AllInterfaces(InfoOf(it.entrypoints)));
  }

  lemma RowOfIs(items: seq<Item>, id: string)
    requires ItemsOf(items, id) != []
    ensures RowOf(items, id) == Sorted(Folded(ItemsOf(items, id)))
  {
  }

  /** A finished row: counts, versions newest first, and the shown item, for every bundle of every payload. */
  lemma RowIsSound(items: seq<Item>, id: string) returns (i: nat)
    requires ItemsOf(items, id) != []
    ensures var mine, row := ItemsOf(items, id), RowOf(items, id);
            && row.published + row.draft == |row.versions| == |mine|
            && multiset(row.versions) == multiset(Folded(mine).versions) && SortedBy(row.versions, VersionsDown)
            && IsLeader(mine, i) && i < |mine| && ShowsItem(row, mine[i])
            && NoRepeats(row.interfaces)
            && Summarises(row, mine) && IsNamed(row, mine)
  {
    hide *;
    var mine := ItemsOf(items, id);
    NoItemIsLost(mine);
    RowSummarises(mine);
    RowIsNamed(mine);
    i := LeaderIsShown(mine);
    LeaderInRange(mine, i);
    RowOfIs(items, id);
    ShownInterfaces(Folded(mine), mine[i]);
    SortedRow(Folded(mine), mine, mine[i]);
  }

  /** Items of one version string stay in payload order in the finished row. */
  lemma EqualVersionsKeepOrder(items: seq<Item>, id: string, v: Version)
    requires ItemsOf(items, id) != []
    ensures AlikeTo(RowOf(items, id).versions, v, VersionsDown)
         == AlikeTo(Folded(ItemsOf(items, id)).versions, v, VersionsDown)
  {
    VersionsDownIsPreorder();
    SortIsStable(Folded(ItemsOf(items, id)).versions, v, VersionsDown);
  }

  lemma VersionsDownIsPreorder()
    ensures TotalPreorder(VersionsDown)
  {
    StringOrder.IsTotalOrder();
  }

  // ----- the same, said of the items' own fields

  /** The texts with a comma and a space between. */
  lemma {:induction false} CommasBetween(s: seq<string>, x: string)
    ensures JoinComma([]) == "" && JoinComma([x]) == x
    ensures s != [] ==> JoinComma(s + [x]) == JoinComma(s) + ", " + x
  {
    if |s| == 1 {
      assert (s + [x])[1..] == [x];
    } else if s != [] {
      CommasBetween(s[1..], x);
      assert (s + [x])[1..] == s[1..] + [x];
      assert s[0] + ", " + (JoinComma(s[1..]) + ", " + x) == (s[0] + ", " + JoinComma(s[1..])) + ", " + x;
    }
  }

  /** Name, else identifier, both without the white space around them. */
  ghost predicate IsNameOf(name: string, e: Entrypoint) {
    name == if Texts.Trim(e.name) != "" then Texts.Trim(e.name) else Texts.Trim(e.flowId)
  }

  /** The position of the entrypoint that names the bundle: the first whose trimmed flow id is the declared default, and
      the first of all where none is declared or none fits. */
  ghost predicate IsNaming(it: Item, k: nat) {
    && k < |it.entrypoints|
    && (if it.defaultEntrypoint != "" && exists j :: 0 <= j < |it.entrypoints| && IsDeclared(it, j) then
          IsDeclared(it, k) && forall j :: 0 <= j < k ==> !IsDeclared(it, j)
        else k == 0)
  }

  predicate IsDeclared(it: Item, k: int)
    requires 0 <= k < |it.entrypoints|
  {
    Texts.Trim(it.entrypoints[k].flowId) == it.defaultEntrypoint
  }

  lemma {:induction false} DeclaredIs(flowId: string, eps: seq<Entrypoint>) returns (k: nat)
    requires flowId != ""
    ensures k <= |eps| && forall j :: 0 <= j < k ==> Texts.Trim(eps[j].flowId) != flowId
    ensures Declared(flowId, eps) == if k < |eps| then Some(eps[k]) else None
    ensures k < |eps| ==> Texts.Trim(eps[k].flowId) == flowId
  {
    hide Texts.Trim;
    if eps == [] || Texts.Trim(eps[0].flowId) == flowId {
      k := 0;
    } else {
      var i := DeclaredIs(flowId, eps[1..]);
      k := i + 1;
      assert forall j :: 0 < j < k ==> eps[j] == eps[1..][j - 1];
    }
  }

  lemma DefaultIs(it: Item) returns (k: nat)
    ensures if it.entrypoints == [] then Default(it) == None
            else IsNaming(it, k) && Default(it) == Some(it.entrypoints[k])
  {
    hide Texts.Trim, Declared;
    k := 0;
    if it.defaultEntrypoint != "" {
      k := DeclaredIs(it.defaultEntrypoint, it.entrypoints);
      if k == |it.entrypoints| {
        assert forall j :: 0 <= j < k ==> !IsDeclared(it, j);
        k := 0;
      }
    } else {
      NothingDeclared(it.entrypoints);
    }
  }

  lemma NothingDeclared(eps: seq<Entrypoint>)
    ensures Declared("", eps) == None
  {
  }

  /** The row's name and description are those of the item's naming entrypoint; the item's own description goes first. */
  ghost predicate NamedBy(row: Row, it: Item, k: nat) {
    && IsNaming(it, k) && IsNameOf(row.name, it.entrypoints[k])
    && row.description == if Texts.Trim(it.description) != "" then Texts.Trim(it.description)
                          else Texts.Trim(it.entrypoints[k].description)
  }

  lemma NamedByIs(row: Row, it: Item) returns (k: nat)
    requires IsNamedBy(row, it)
    ensures NamedBy(row, it, k)
  {
    hide Texts.Trim, IsNaming, Default;
    k := DefaultIs(it);
  }

  /** Flow id, workflow id and interfaces of every entrypoint, in order. */
  ghost predicate AreFlows(flows: seq<(string, string, string)>, eps: seq<Entrypoint>) {
    && |flows| == |eps|
    && forall i :: 0 <= i < |eps| ==> flows[i] == (eps[i].flowId, eps[i].workflowId, JoinComma(eps[i].interfaces))
  }

  ghost predicate IsInfo(info: seq<Info>, eps: seq<Entrypoint>) {
    && |info| == |eps|
    && forall i :: 0 <= i < |eps| ==>
         && IsNameOf(info[i].name, eps[i]) && info[i].description == Texts.Trim(eps[i].description)
         && info[i].interfaces == eps[i].interfaces
  }

  /** A version is listed with its channel, or with draft or published where the item gives none. */
  ghost predicate ListsItem(v: Version, it: Item) {
    && v.version == it.version && v.createdAt == it.createdAt && v.entrypoints == |it.entrypoints|
    && (it.channel.Some? ==> v.channel == it.channel.value)
    && (it.channel.None? ==> v.channel == if it.isDraft then "draft" else "published")
  }

  lemma ItemFields(it: Item)
    ensures AreFlows(FlowsOf(it.entrypoints), it.entrypoints) && IsInfo(InfoOf(it.entrypoints), it.entrypoints)
    ensures ListsItem(VersionOf(it), it)
  {
    hide Texts.Trim, JoinComma;
  }

  function Drafts(items: seq<Item>): nat {
    if items == [] then 0 else (if items[0].isDraft then 1 else 0) + Drafts(items[1..])
  }

  lemma {:induction false} DraftsGrow(items: seq<Item>, it: Item)
    ensures Drafts(items + [it]) == Drafts(items) + (if it.isDraft then 1 else 0)
  {
    if items == [] {
      assert [] + [it] == [it] && [it][1..] == [];
    } else {
      DraftsGrow(items[1..], it);
      assert (items + [it])[1..] == items[1..] + [it];
    }
  }

  lemma DraftsCounted(row: Row, it: Item)
    ensures Update(row, it).draft == row.draft + (if it.isDraft then 1 else 0)
  {
  }

  lemma NoDraftsYet(it: Item)
    ensures NewRow(it).draft == 0 && Drafts([]) == 0
  {
  }

  /** The drafts are counted as drafts. */
  lemma {:induction false} DraftsAreCounted(items: seq<Item>)
    requires items != []
    ensures Folded(items).draft == Drafts(items)
  {
    hide *;
    var n := |items| - 1;
    assert items == items[..n] + [items[n]];
    DraftsGrow(items[..n], items[n]);
    if n == 0 {
      FoldedFirst(items);
      NoDraftsYet(items[0]);
      assert items[..0] == [];
      DraftsCounted(NewRow(items[0]), items[0]);
    } else {
      DraftsAreCounted(items[..n]);
      FoldedStep(items, n);
      DraftsCounted(Folded(items[..n]), items[n]);
    }
  }

  /** Every interface of every entrypoint, once. */
  ghost predicate OffersAll(interfaces: seq<string>, eps: seq<Entrypoint>) {
    && NoRepeats(interfaces)
    && forall x :: x in interfaces <==> exists k :: 0 <= k < |eps| && x in eps[k].interfaces
  }

  lemma {:induction false} AllAreOffered(info: seq<Info>, x: string)
    ensures x in AllInterfaces(info) <==> exists k :: 0 <= k < |info| && x in info[k].interfaces
  {
    if info != [] {
      var n := |info| - 1;
      AllAreOffered(info[..n], x);
      assert forall k :: 0 <= k < n ==> info[..n][k] == info[k];
      assert x in AllInterfaces(info) <==> x in AllInterfaces(info[..n]) || x in info[n].interfaces;
    }
  }

  lemma ShownOffers(row: Row, it: Item)
    requires ShowsItem(row, it)
    ensures OffersAll(row.interfaces, it.entrypoints)
  {
    hide Texts.Trim, NameOf, Distinct, AllInterfaces;
    var info := InfoOf(it.entrypoints);
    DistinctHasNoRepeats(AllInterfaces(info));
    forall x ensures x in row.interfaces <==> exists k :: 0 <= k < |info| && x in it.entrypoints[k].interfaces {
      AllAreOffered(info, x);
      assert forall k :: 0 <= k < |info| ==> info[k].interfaces == it.entrypoints[k].interfaces;
    }
  }

  /** Source, information and interfaces of this item. */
  ghost predicate Displays(row: Row, it: Item) {
    row.source == it.source && IsInfo(row.info, it.entrypoints) && OffersAll(row.interfaces, it.entrypoints)
  }

  /** The flows of the first item that has an entrypoint. */
  ghost predicate ShowsFlows(flows: seq<(string, string, string)>, mine: seq<Item>) {
    && (flows == [] ==> forall i :: 0 <= i < |mine| ==> mine[i].entrypoints == [])
    && (flows != [] ==> exists i :: 0 <= i < |mine| && AreFlows(flows, mine[i].entrypoints)
                                    && forall j :: 0 <= j < i ==> mine[j].entrypoints == [])
  }

  /** The last naming item names the row, by the entrypoint it declares; without one there is no name. */
  ghost predicate IsTitled(row: Row, mine: seq<Item>) {
    || (row.name == row.description == "" && forall i: nat :: !Names(mine, i))
    || (exists i: nat, k: nat :: Names(mine, i) && NamedBy(row, mine[i], k) && forall j: nat :: j > i ==> !Names(mine, j))
  }

  lemma FlowsAreShown(row: Row, mine: seq<Item>)
    requires Summarises(row, mine)
    ensures ShowsFlows(row.flows, mine)
  {
    hide FlowsOf, AreFlows, IsFirstLatest, IsMostEntrypoints, SomeDeprecated, InfoOf, IsInfo, ListsItem, VersionOf;
    if row.flows != [] {
      var i :| 0 <= i < |mine| && row.flows == FlowsOf(mine[i].entrypoints)
               && forall j :: 0 <= j < i ==> mine[j].entrypoints == [];
      ItemFields(mine[i]);
    }
  }

  lemma NameIsTitled(row: Row, mine: seq<Item>)
    requires IsNamed(row, mine)
    ensures IsTitled(row, mine)
  {
    hide NamedBy, IsNamedBy, StringOrder.Le;
    if i: nat :| Names(mine, i) && IsNamedBy(row, mine[i]) && forall j: nat :: j > i ==> !Names(mine, j) {
      var k := NamedByIs(row, mine[i]);
    }
  }

  /** In any order, one listed version for every item. */
  ghost predicate ListsAll(versions: seq<Version>, vs: seq<Version>, mine: seq<Item>) {
    && multiset(versions) == multiset(vs) && |vs| == |mine|
    && forall i :: 0 <= i < |mine| ==> ListsItem(vs[i], mine[i])
  }

  lemma VersionsListAll(versions: seq<Version>, vs: seq<Version>, mine: seq<Item>)
    requires multiset(versions) == multiset(vs) && |vs| == |mine|
    requires forall i :: 0 <= i < |mine| ==> vs[i] == VersionOf(mine[i])
    ensures ListsAll(versions, vs, mine)
  {
    hide VersionOf, ListsItem, FlowsOf, AreFlows, InfoOf, IsInfo;
    forall i | 0 <= i < |mine| ensures ListsItem(vs[i], mine[i]) {
      ItemFields(mine[i]);
    }
  }

  /** The greatest version string first. */
  ghost predicate NewestFirst(versions: seq<Version>) {
    forall i, j :: 0 <= i < j < |versions| ==> StringOrder.Le(versions[j].version, versions[i].version)
  }

  lemma SortedIsNewestFirst(versions: seq<Version>)
    requires SortedBy(versions, VersionsDown)
    ensures NewestFirst(versions)
  {
    hide StringOrder.Le;
    forall i, j | 0 <= i < j < |versions| ensures StringOrder.Le(versions[j].version, versions[i].version) {
      assert VersionsDown(versions[i], versions[j]);
    }
  }

  /** An entrypoint of some item is deprecated. */
  ghost predicate HoldsDeprecated(mine: seq<Item>) {
    exists i, k :: 0 <= i < |mine| && 0 <= k < |mine[i].entrypoints| && mine[i].entrypoints[k].deprecated
  }

  lemma DeprecationIsTold(row: Row, mine: seq<Item>)
    requires Summarises(row, mine)
    ensures row.deprecated <==> HoldsDeprecated(mine)
  {
    hide IsFirstLatest, AreFirstFlows, IsMostEntrypoints;
    if row.deprecated {
      var i :| 0 <= i < |mine| && AnyDeprecated(mine[i]);
      var k :| 0 <= k < |mine[i].entrypoints| && mine[i].entrypoints[k].deprecated;
    }
    if i, k :| 0 <= i < |mine| && 0 <= k < |mine[i].entrypoints| && mine[i].entrypoints[k].deprecated {
      assert AnyDeprecated(mine[i]);
    }
  }

  /** Every finished row, said of its items alone: drafts and the rest, one listed version for each, newest first, the
      flows of the first item with an entrypoint, the leader's source, information and interfaces, and its name. */
  lemma RowTells(items: seq<Item>, id: string) returns (shown: nat)
    requires ItemsOf(items, id) != []
    ensures var mine, row := ItemsOf(items, id), RowOf(items, id);
            && row.draft == Drafts(mine) && row.published == |mine| - Drafts(mine)
            && (exists vs :: ListsAll(row.versions, vs, mine)) && NewestFirst(row.versions)
            && ShowsFlows(row.flows, mine) && IsTitled(row, mine) && (row.deprecated <==> HoldsDeprecated(mine))
            && IsLeader(mine, shown) && shown < |mine| && Displays(row, mine[shown])
  {
    hide *;
    var mine, row := ItemsOf(items, id), RowOf(items, id);
    shown := RowIsSound(items, id);
    NoItemIsLost(mine);
    DraftsAreCounted(mine);
    RowOfIs(items, id);
    SortKeepsDraft(Folded(mine));
    VersionsListAll(row.versions, Folded(mine).versions, mine);
    SortedIsNewestFirst(row.versions);
    FlowsAreShown(row, mine);
    DeprecationIsTold(row, mine);
    NameIsTitled(row, mine);
    ItDisplays(row, mine[shown]);
  }

  lemma SortKeepsDraft(row: Row)
    ensures Sorted(row).draft == row.draft
  {
  }

  lemma ItDisplays(row: Row, it: Item)
    requires ShowsItem(row, it)
    ensures Displays(row, it)
  {
    hide InfoOf, IsInfo, OffersAll, FlowsOf, AreFlows, ListsItem, VersionOf, Distinct, AllInterfaces;
    ItemFields(it);
    ShownOffers(row, it);
  }
}
