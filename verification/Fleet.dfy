/** The index and the detail page (server/src/page.rs): grouping the whole fleet by app, joining
    each instance with its own node's verdicts, and the two views built from that. */
module Fleet {
  import opened Prelude
  import opened Wire
  import opened Verify
  import opened Summary

  /** What the server keeps per node; the page borrows the same three fields. */
  datatype StoredReport = StoredReport(receivedAt: nat, report: NodeReport, verdicts: seq<CvmVerdict>)

  /** One CVM paired with the verdicts of the node report it came from. */
  datatype Instance = Instance(cvm: Cvm, verdicts: seq<CvmVerdict>)

  /** An instance as the detail page gathers it, with the push time of its node. */
  datatype Match = Match(instance: Instance, receivedAt: nat)

  datatype AppRow = AppRow(
    name: string,
    role: Role,
    network: Option<string>,
    status: string,
    instanceCount: nat,
    multiInstance: bool,
    appId: string,
    summary: Summary)

  datatype FleetList = FleetList(primary: seq<AppRow>, infra: seq<AppRow>)

  datatype Freshness = Live | Stale | Dead

  datatype CvmCard = CvmCard(
    cvm: Cvm,
    instanceIndex: nat,
    instanceTotal: nat,
    freshness: Freshness,
    summary: Summary,
    verdict: VerdictView,
    decoded: Option<DecodedReport>)

  predicate IsInfrastructure(role: Role) {
    role != Worker && role != Keystore
  }

  function FreshnessOf(now: nat, receivedAt: nat): Freshness {
    var age := if now < receivedAt then 0 else now - receivedAt;
    if age < 600 then Live else if age < 3600 then Stale else Dead
  }

  /** The first verdict of the slice that carries the vm id. */
  function VerdictFor(verdicts: seq<CvmVerdict>, vmId: string): Option<CvmVerdict> {
    if verdicts == [] then None
    else if verdicts[0].vmId == vmId then Some(verdicts[0])
    else VerdictFor(verdicts[1..], vmId)
  }

  function InstanceVerdict(x: Instance): Option<CvmVerdict> {
    VerdictFor(x.verdicts, x.cvm.vmId)
  }

  // ----- the fleet as one list -----

  function NodeInstances(node: StoredReport): seq<Instance> {
    seq(|node.report.cvms|, i requires 0 <= i < |node.report.cvms| =>
      Instance(node.report.cvms[i], node.verdicts))
  }

  /** Every CVM of every node, in order, with its own node's verdicts. */
  function Instances(nodes: seq<StoredReport>): seq<Instance> {
    FlatMap(NodeInstances, nodes)
  }

  function AppIds(xs: seq<Instance>): seq<string> {
    seq(|xs|, i requires 0 <= i < |xs| => xs[i].cvm.appId)
  }

  function InApp(appId: string): Instance -> bool {
    (x: Instance) => x.cvm.appId == appId
  }

  /** The fleet cut by app: one group per distinct app id, in the order the ids are first met,
      each the order-preserving filter of the whole list. */
  function GroupsOf(xs: seq<Instance>): (groups: seq<seq<Instance>>)
    ensures |groups| == |Distinct(AppIds(xs))|
  {
    var ids := Distinct(AppIds(xs));
    seq(|ids|, k requires 0 <= k < |ids| => Filter(xs, InApp(ids[k])))
  }

  /** One more instance of a known app joins that app's group. */
  lemma GroupJoined(xs: seq<Instance>, x: Instance, k: nat)
    requires k < |GroupsOf(xs)| && Distinct(AppIds(xs))[k] == x.cvm.appId
    ensures Distinct(AppIds(xs + [x])) == Distinct(AppIds(xs))
    ensures GroupsOf(xs + [x]) == GroupsOf(xs)[k := GroupsOf(xs)[k] + [x]]
  {
    var ids, groups := Distinct(AppIds(xs)), GroupsOf(xs);
    IdsOneMore(xs, x);
    DistinctHasNoDuplicates(AppIds(xs));
    forall m | 0 <= m < |ids|
      ensures GroupsOf(xs + [x])[m] == groups[k := groups[k] + [x]][m]
    {
      FilterOneMore(xs, x, ids[m]);
      assert ids[m] == x.cvm.appId <==> m == k;
    }
  }

  /** An instance of a new app opens a group at the end. */
  lemma GroupOpened(xs: seq<Instance>, x: Instance)
    requires x.cvm.appId !in Distinct(AppIds(xs))
    ensures Distinct(AppIds(xs + [x])) == Distinct(AppIds(xs)) + [x.cvm.appId]
    ensures GroupsOf(xs + [x]) == GroupsOf(xs) + [[x]]
  {
    var ids, groups := Distinct(AppIds(xs)), GroupsOf(xs);
    IdsOneMore(xs, x);
    DistinctHas(AppIds(xs), x.cvm.appId);
    NoneInApp(xs, x.cvm.appId);
    FilterOneMore(xs, x, x.cvm.appId);
    forall m | 0 <= m <= |ids|
      ensures GroupsOf(xs + [x])[m] == (groups + [[x]])[m]
    {
      if m < |ids| {
        FilterOneMore(xs, x, ids[m]);
        assert ids[m] in ids;
      }
    }
    assert GroupsOf(xs + [x]) == groups + [[x]];
  }

  lemma IdsOneMore(xs: seq<Instance>, x: Instance)
    ensures var ids := Distinct(AppIds(xs));
            Distinct(AppIds(xs + [x])) == if x.cvm.appId in ids then ids else ids + [x.cvm.appId]
  {
    assert AppIds(xs + [x]) == AppIds(xs) + [x.cvm.appId];
    DistinctAppendOne(AppIds(xs), x.cvm.appId);
    DistinctHas(AppIds(xs), x.cvm.appId);
  }

  lemma FilterOneMore(xs: seq<Instance>, x: Instance, id: string)
    ensures Filter(xs + [x], InApp(id)) ==
            Filter(xs, InApp(id)) + if x.cvm.appId == id then [x] else []
  {
    assert (xs + [x])[..|xs|] == xs;
  }

  lemma {:induction false} NoneInApp(xs: seq<Instance>, id: string)
    requires id !in AppIds(xs)
    ensures Filter(xs, InApp(id)) == []
  {
    if xs != [] {
      var n := |xs| - 1;
      assert AppIds(xs[..n]) == AppIds(xs)[..n];
      assert AppIds(xs)[n] == xs[n].cvm.appId;
      NoneInApp(xs[..n], id);
    }
  }

  method AddInstance(order: seq<string>, groups: seq<seq<Instance>>, x: Instance, ghost seen: seq<Instance>)
    returns (order': seq<string>, groups': seq<seq<Instance>>)
    requires order == Distinct(AppIds(seen)) && groups == GroupsOf(seen)
    ensures order' == Distinct(AppIds(seen + [x])) && groups' == GroupsOf(seen + [x])
  {
    match Position(order, x.cvm.appId) {
      case Some(idx) =>
        GroupJoined(seen, x, idx);
        order', groups' := order, groups[idx := groups[idx] + [x]];
      case None =>
        GroupOpened(seen, x);
        order', groups' := order + [x.cvm.appId], groups + [[x]];
    }
  }

  method AddNode(order: seq<string>, groups: seq<seq<Instance>>, node: StoredReport, ghost before: seq<Instance>)
    returns (order': seq<string>, groups': seq<seq<Instance>>)
    requires order == Distinct(AppIds(before)) && groups == GroupsOf(before)
    ensures order' == Distinct(AppIds(before + NodeInstances(node)))
    ensures groups' == GroupsOf(before + NodeInstances(node))
  {
    order', groups' := order, groups;
    ghost var seen := before;
    for c := 0 to |node.report.cvms|
      invariant seen == before + NodeInstances(node)[..c]
      invariant order' == Distinct(AppIds(seen)) && groups' == GroupsOf(seen)
    {
      var x := Instance(node.report.cvms[c], node.verdicts);
      order', groups' := AddInstance(order', groups', x, seen);
      seen := seen + [x];
    }
    assert seen == before + NodeInstances(node);
  }

  method GroupByAppGlobal(nodes: seq<StoredReport>) returns (groups: seq<seq<Instance>>)
    ensures groups == GroupsOf(Instances(nodes))
  {
    var order: seq<string> := [];
    groups := [];
    ghost var seen: seq<Instance> := [];
    for n := 0 to |nodes|
      invariant seen == Instances(nodes[..n])
      invariant order == Distinct(AppIds(seen)) && groups == GroupsOf(seen)
    {
      order, groups := AddNode(order, groups, nodes[n], seen);
      seen := seen + NodeInstances(nodes[n]);
      FlatMapOneMore(NodeInstances, nodes, n);
    }
    assert nodes[..|nodes|] == nodes;
  }

  // ----- the index -----

  function SummariesOf(xs: seq<Instance>): seq<Summary> {
    seq(|xs|, i requires 0 <= i < |xs| => SummaryOf(InstanceVerdict(xs[i])))
  }

  function StatusesOf(xs: seq<Instance>): seq<string> {
    seq(|xs|, i requires 0 <= i < |xs| => xs[i].cvm.status)
  }

  function BuildAppRow(xs: seq<Instance>): AppRow {
    if xs == [] then AppRow("", Unknown, None, "", 0, false, "", Pending)
    else
      var first := xs[0].cvm;
      AppRow(AppDisplayName(first.name), first.role, first.network, AggregateStatus(StatusesOf(xs)),
             |xs|, |xs| > 1, first.appId, Aggregated(SummariesOf(xs)))
  }

  function GroupRole(group: seq<Instance>): Role {
    if group == [] then Unknown else group[0].cvm.role
  }

  /** A group's row, if the group is on the given side of the primary/infrastructure split. */
  function RowOnSide(infra: bool): seq<Instance> -> seq<AppRow> {
    (g: seq<Instance>) => if IsInfrastructure(GroupRole(g)) == infra then [BuildAppRow(g)] else []
  }

  /** The rows of the groups on one side of the primary/infrastructure split, in order. */
  function RowsWhere(groups: seq<seq<Instance>>, infra: bool): seq<AppRow> {
    FlatMap(RowOnSide(infra), groups)
  }

  function FleetListOf(nodes: seq<StoredReport>): FleetList {
    var groups := GroupsOf(Instances(nodes));
    FleetList(RowsWhere(groups, false), RowsWhere(groups, true))
  }

  method BuildFleetList(nodes: seq<StoredReport>) returns (fleet: FleetList)
    ensures fleet == FleetListOf(nodes)
  {
    var primary, infra: seq<AppRow> := [], [];
    var groups := GroupByAppGlobal(nodes);
    for k := 0 to |groups|
      invariant primary == RowsWhere(groups[..k], false)
      invariant infra == RowsWhere(groups[..k], true)
    {
      FlatMapOneMore(RowOnSide(false), groups, k);
      FlatMapOneMore(RowOnSide(true), groups, k);
      var row := BuildAppRow(groups[k]);
      if IsInfrastructure(GroupRole(groups[k])) {
        infra := infra + [row];
      } else {
        primary := primary + [row];
      }
    }
    assert groups[..|groups|] == groups;
    fleet := FleetList(primary, infra);
  }

  // ----- the detail page -----

  function NodeMatches(node: StoredReport, appId: string): seq<Match> {
    var xs := Filter(NodeInstances(node), InApp(appId));
    seq(|xs|, i requires 0 <= i < |xs| => Match(xs[i], node.receivedAt))
  }

  function MatchesIn(appId: string): StoredReport -> seq<Match> {
    (node: StoredReport) => NodeMatches(node, appId)
  }

  function MatchesOf(nodes: seq<StoredReport>, appId: string): seq<Match> {
    FlatMap(MatchesIn(appId), nodes)
  }

  function BuildCvm(m: Match, index: nat, total: nat, now: nat): CvmCard {
    var verdict := InstanceVerdict(m.instance);
    CvmCard(m.instance.cvm, index, total, FreshnessOf(now, m.receivedAt), SummaryOf(verdict),
            BuildVerdict(verdict), if verdict.Some? then verdict.value.decoded else None)
  }

  /** The cards of an app, or nothing for an unknown or empty app id. */
  function RenderApp(appId: string, now: nat, nodes: seq<StoredReport>): Option<seq<CvmCard>> {
    if appId == "" then None
    else
      var matches := MatchesOf(nodes, appId);
      if matches == [] then None
      else
        Some(seq(|matches|, i requires 0 <= i < |matches| => BuildCvm(matches[i], i + 1, |matches|, now)))
  }

  // ----- the verdict join -----

  lemma {:induction false} FirstMatchWins(verdicts: seq<CvmVerdict>, vmId: string, first: nat)
    requires first < |verdicts| && verdicts[first].vmId == vmId
    requires forall j :: 0 <= j < first ==> verdicts[j].vmId != vmId
    ensures VerdictFor(verdicts, vmId) == Some(verdicts[first])
  {
    if first > 0 {
      FirstMatchWins(verdicts[1..], vmId, first - 1);
    }
  }

  /** The join by vm id hands the i-th CVM the verdict of the first CVM that carries its id. */
  lemma JoinFindsFirstHolder(report: NodeReport, env: nat -> World, i: nat, first: nat)
    requires first <= i < |report.cvms|
    requires report.cvms[first].vmId == report.cvms[i].vmId
    requires forall j :: 0 <= j < first ==> report.cvms[j].vmId != report.cvms[i].vmId
    ensures VerdictFor(VerdictsOf(report, env), report.cvms[i].vmId) ==
            Some(VerdictOf(report.cvms[first], env(first)))
  {
    FirstMatchWins(VerdictsOf(report, env), report.cvms[i].vmId, first);
  }

  /** The world of the i-th CVM starts at second i. */
  function TickingWorld(): nat -> World {
    (i: nat) => LenientWorld("", SgxEnclave).(startedAt := i)
  }

  lemma JoinAtFirst(report: NodeReport, env: nat -> World, i: nat, j: nat) returns (first: nat)
    requires j <= i < |report.cvms| && report.cvms[j].vmId == report.cvms[i].vmId
    ensures first <= j
    ensures VerdictFor(VerdictsOf(report, env), report.cvms[i].vmId) ==
            Some(VerdictOf(report.cvms[first], env(first)))
    decreases j
  {
    if exists k :: 0 <= k < j && report.cvms[k].vmId == report.cvms[i].vmId {
      var k :| 0 <= k < j && report.cvms[k].vmId == report.cvms[i].vmId;
      first := JoinAtFirst(report, env, i, k);
    } else {
      first := j;
      JoinFindsFirstHolder(report, env, i, first);
    }
  }

  /** Every CVM gets its own verdict, whatever the outside world answers, exactly when the vm ids of
      the report are distinct. */
  lemma JoinIsExactIff(report: NodeReport)
    ensures (forall env: nat -> World, i ::
               0 <= i < |report.cvms| ==>
                 VerdictFor(VerdictsOf(report, env), report.cvms[i].vmId) ==
                 Some(VerdictOf(report.cvms[i], env(i))))
            <==> DistinctVmIds(report)
  {
    if DistinctVmIds(report) {
      forall env: nat -> World, i | 0 <= i < |report.cvms|
        ensures VerdictFor(VerdictsOf(report, env), report.cvms[i].vmId) ==
                Some(VerdictOf(report.cvms[i], env(i)))
      {
        JoinFindsFirstHolder(report, env, i, i);
      }
    } else {
      var j, i :| 0 <= j < i < |report.cvms| && report.cvms[j].vmId == report.cvms[i].vmId;
      var env := TickingWorld();
      var first := JoinAtFirst(report, env, i, j);
      assert VerdictOf(report.cvms[first], env(first)).verifiedAt == first;
      assert VerdictOf(report.cvms[i], env(i)).verifiedAt == i;
    }
  }

  // ----- grouping refines filtering -----

  function Concat(groups: seq<seq<Instance>>): seq<Instance> {
    if groups == [] then [] else Concat(groups[..|groups| - 1]) + groups[|groups| - 1]
  }

  /** The groups: nonempty, one per distinct app id in first-seen order, each of one app only. */
  lemma GroupsPartitionByApp(xs: seq<Instance>, k: nat)
    requires k < |GroupsOf(xs)|
    ensures var ids := Distinct(AppIds(xs));
            && NoDuplicates(ids)
            && GroupsOf(xs)[k] != []
            && GroupsOf(xs)[k] == Filter(xs, InApp(ids[k]))
            && (forall x <- GroupsOf(xs)[k] :: x.cvm.appId == ids[k])
  {
    var ids := Distinct(AppIds(xs));
    DistinctHasNoDuplicates(AppIds(xs));
    assert ids[k] in ids;
    DistinctHas(AppIds(xs), ids[k]);
    var i :| 0 <= i < |xs| && AppIds(xs)[i] == ids[k];
    FilterHas(xs, InApp(ids[k]), xs[i]);
    forall x <- GroupsOf(xs)[k]
      ensures x.cvm.appId == ids[k]
    {
      FilterHas(xs, InApp(ids[k]), x);
    }
  }

  lemma {:induction false} ConcatCount(xs: seq<Instance>, n: nat, x: Instance)
    requires n <= |GroupsOf(xs)|
    ensures multiset(Concat(GroupsOf(xs)[..n]))[x] ==
            if x.cvm.appId in Distinct(AppIds(xs))[..n] then multiset(xs)[x] else 0
  {
    if n > 0 {
      var ids := Distinct(AppIds(xs));
      ConcatCount(xs, n - 1, x);
      assert GroupsOf(xs)[..n][..n - 1] == GroupsOf(xs)[..n - 1];
      FilterMultiset(xs, InApp(ids[n - 1]), x);
      DistinctHasNoDuplicates(AppIds(xs));
      assert ids[..n] == ids[..n - 1] + [ids[n - 1]];
    }
  }

  /** Put end to end, the groups are a permutation of the fleet: no instance is lost, none is
      counted twice, and each keeps its own node's verdicts. */
  lemma GroupsAreAPermutation(xs: seq<Instance>)
    ensures multiset(Concat(GroupsOf(xs))) == multiset(xs)
  {
    var groups := GroupsOf(xs);
    assert groups[..|groups|] == groups;
    forall x
      ensures multiset(Concat(groups))[x] == multiset(xs)[x]
    {
      ConcatCount(xs, |groups|, x);
      var ids := Distinct(AppIds(xs));
      assert ids[..|groups|] == ids;
      if x in xs {
        var i :| 0 <= i < |xs| && xs[i] == x;
        assert AppIds(xs)[i] == x.cvm.appId;
        DistinctHas(AppIds(xs), x.cvm.appId);
      }
    }
  }

  // ----- the index and the detail page agree -----

  function InstancesOfMatches(ms: seq<Match>): seq<Instance> {
    seq(|ms|, i requires 0 <= i < |ms| => ms[i].instance)
  }

  /** What the detail page gathers node by node is the index's group of that app. */
  lemma {:induction false} MatchesAreTheGroup(nodes: seq<StoredReport>, appId: string)
    ensures InstancesOfMatches(MatchesOf(nodes, appId)) == Filter(Instances(nodes), InApp(appId))
  {
    if nodes != [] {
      var init, last := nodes[..|nodes| - 1], nodes[|nodes| - 1];
      MatchesAreTheGroup(init, appId);
      FilterAppend(Instances(init), NodeInstances(last), InApp(appId));
      assert InstancesOfMatches(MatchesOf(nodes, appId)) ==
             InstancesOfMatches(MatchesOf(init, appId)) + InstancesOfMatches(NodeMatches(last, appId));
      assert InstancesOfMatches(NodeMatches(last, appId)) == Filter(NodeInstances(last), InApp(appId));
    }
  }

  lemma RowsHave(groups: seq<seq<Instance>>, infra: bool, row: AppRow)
    ensures row in RowsWhere(groups, infra) <==>
            exists k :: 0 <= k < |groups| && IsInfrastructure(GroupRole(groups[k])) == infra
                        && row == BuildAppRow(groups[k])
  {
    FlatMapHas(RowOnSide(infra), groups, row);
    if k :| 0 <= k < |groups| && IsInfrastructure(GroupRole(groups[k])) == infra && row == BuildAppRow(groups[k]) {
      assert row in RowOnSide(infra)(groups[k]);
    }
  }

  /** The index row of an app id, if it has one: the row of the group at the id's place. */
  lemma RowHasGroup(nodes: seq<StoredReport>, infra: bool, row: AppRow)
    requires row in if infra then FleetListOf(nodes).infra else FleetListOf(nodes).primary
    ensures var group := Filter(Instances(nodes), InApp(row.appId));
            group != [] && row == BuildAppRow(group) && IsInfrastructure(GroupRole(group)) == infra
  {
    var xs := Instances(nodes);
    RowsHave(GroupsOf(xs), infra, row);
    var k :| 0 <= k < |GroupsOf(xs)| && IsInfrastructure(GroupRole(GroupsOf(xs)[k])) == infra
             && row == BuildAppRow(GroupsOf(xs)[k]);
    GroupsPartitionByApp(xs, k);
    assert GroupsOf(xs)[k][0] in GroupsOf(xs)[k];
  }

  lemma GroupHasRow(nodes: seq<StoredReport>, appId: string)
    requires Filter(Instances(nodes), InApp(appId)) != []
    ensures var group := Filter(Instances(nodes), InApp(appId));
            && BuildAppRow(group).appId == appId
            && BuildAppRow(group) in if IsInfrastructure(GroupRole(group))
                                     then FleetListOf(nodes).infra else FleetListOf(nodes).primary
  {
    var xs := Instances(nodes);
    var group := Filter(xs, InApp(appId));
    FilterHas(xs, InApp(appId), group[0]);
    var i :| 0 <= i < |xs| && xs[i] == group[0];
    assert AppIds(xs)[i] == appId;
    DistinctHas(AppIds(xs), appId);
    var k :| 0 <= k < |Distinct(AppIds(xs))| && Distinct(AppIds(xs))[k] == appId;
    assert GroupsOf(xs)[k] == group;
    RowsHave(GroupsOf(xs), IsInfrastructure(GroupRole(group)), BuildAppRow(group));
  }

  ghost predicate HasRow(nodes: seq<StoredReport>, appId: string) {
    exists row :: row in FleetListOf(nodes).primary + FleetListOf(nodes).infra && row.appId == appId
  }

  lemma HasRowIffGroup(nodes: seq<StoredReport>, appId: string)
    ensures HasRow(nodes, appId) <==> Filter(Instances(nodes), InApp(appId)) != []
  {
    var fleet := FleetListOf(nodes);
    if HasRow(nodes, appId) {
      var row :| row in fleet.primary + fleet.infra && row.appId == appId;
      RowHasGroup(nodes, row in fleet.infra, row);
    }
    if Filter(Instances(nodes), InApp(appId)) != [] {
      GroupHasRow(nodes, appId);
    }
  }

  /** The detail page of an app exists exactly when the index lists the app, the empty app id
      excepted. */
  lemma DetailExistsIffListed(nodes: seq<StoredReport>, appId: string, now: nat)
    ensures RenderApp(appId, now, nodes).Some? <==> appId != "" && HasRow(nodes, appId)
  {
    MatchesAreTheGroup(nodes, appId);
    HasRowIffGroup(nodes, appId);
    assert |InstancesOfMatches(MatchesOf(nodes, appId))| == |MatchesOf(nodes, appId)|;
  }

  /** "We never link to" an empty app id is false of the index: the page lookup does not resolve a
      row's app id exactly when it is empty, and such a row is there as soon as some CVM reports none. */
  lemma RowUnresolvedIffNoAppId(nodes: seq<StoredReport>, row: AppRow, now: nat)
    requires row in FleetListOf(nodes).primary + FleetListOf(nodes).infra
    ensures RenderApp(row.appId, now, nodes).None? <==> row.appId == ""
    ensures HasRow(nodes, "") <==> exists x <- Instances(nodes) :: x.cvm.appId == ""
  {
    DetailExistsIffListed(nodes, row.appId, now);
    HasRowIffGroup(nodes, "");
    var group := Filter(Instances(nodes), InApp(""));
    if group != [] {
      FilterHas(Instances(nodes), InApp(""), group[0]);
    }
    if x :| x in Instances(nodes) && x.cvm.appId == "" {
      FilterHas(Instances(nodes), InApp(""), x);
    }
  }

  /** An app id has at most one row, on one side of the split. */
  lemma RowIsUnique(nodes: seq<StoredReport>, r1: AppRow, r2: AppRow)
    requires r1 in FleetListOf(nodes).primary + FleetListOf(nodes).infra
    requires r2 in FleetListOf(nodes).primary + FleetListOf(nodes).infra
    requires r1.appId == r2.appId
    ensures r1 == r2
    ensures !(r1 in FleetListOf(nodes).primary && r1 in FleetListOf(nodes).infra)
  {
    var fleet := FleetListOf(nodes);
    RowHasGroup(nodes, r1 in fleet.infra, r1);
    RowHasGroup(nodes, r2 in fleet.infra, r2);
    if r1 in fleet.primary {
      RowHasGroup(nodes, false, r1);
    }
  }

  lemma RowAppId(xs: seq<Instance>, k: nat)
    requires k < |GroupsOf(xs)|
    ensures BuildAppRow(GroupsOf(xs)[k]).appId == Distinct(AppIds(xs))[k]
  {
    GroupsPartitionByApp(xs, k);
    assert GroupsOf(xs)[k][0] in GroupsOf(xs)[k];
  }

  lemma RowIdAmong(xs: seq<Instance>, n: nat, infra: bool, row: AppRow)
    requires n <= |GroupsOf(xs)| && row in RowsWhere(GroupsOf(xs)[..n], infra)
    ensures row.appId in Distinct(AppIds(xs))[..n]
  {
    var groups, ids := GroupsOf(xs), Distinct(AppIds(xs));
    RowsHave(groups[..n], infra, row);
    var k :| 0 <= k < n && row == BuildAppRow(groups[..n][k]);
    RowAppId(xs, k);
    assert ids[..n][k] == ids[k];
  }

  lemma RowIsNew(xs: seq<Instance>, k: nat, infra: bool)
    requires k < |GroupsOf(xs)|
    ensures BuildAppRow(GroupsOf(xs)[k]) !in RowsWhere(GroupsOf(xs)[..k], infra)
  {
    var row, ids := BuildAppRow(GroupsOf(xs)[k]), Distinct(AppIds(xs));
    RowAppId(xs, k);
    DistinctHasNoDuplicates(AppIds(xs));
    assert ids[k] !in ids[..k];
    if row in RowsWhere(GroupsOf(xs)[..k], infra) {
      RowIdAmong(xs, k, infra, row);
    }
  }

  lemma RowsNoDuplicates(xs: seq<Instance>, infra: bool)
    ensures NoDuplicates(RowsWhere(GroupsOf(xs), infra))
  {
    var groups := GroupsOf(xs);
    forall k | 0 <= k < |groups| && RowOnSide(infra)(groups[k]) != []
      ensures RowOnSide(infra)(groups[k])[0] !in FlatMap(RowOnSide(infra), groups[..k])
    {
      RowIsNew(xs, k, infra);
    }
    FlatMapFresh(RowOnSide(infra), groups);
  }

  /** No row is listed twice. */
  lemma IndexHasNoDuplicateRows(nodes: seq<StoredReport>)
    ensures NoDuplicates(FleetListOf(nodes).primary) && NoDuplicates(FleetListOf(nodes).infra)
  {
    RowsNoDuplicates(Instances(nodes), false);
    RowsNoDuplicates(Instances(nodes), true);
  }

  function CardSummaries(cards: seq<CvmCard>): seq<Summary> {
    seq(|cards|, i requires 0 <= i < |cards| => cards[i].summary)
  }

  function CardStatuses(cards: seq<CvmCard>): seq<string> {
    seq(|cards|, i requires 0 <= i < |cards| => cards[i].cvm.status)
  }

  lemma CardsShowTheGroup(nodes: seq<StoredReport>, appId: string, now: nat)
    requires appId != "" && Filter(Instances(nodes), InApp(appId)) != []
    ensures RenderApp(appId, now, nodes).Some?
    ensures var cards, group := RenderApp(appId, now, nodes).value, Filter(Instances(nodes), InApp(appId));
            && |cards| == |group|
            && (forall i :: 0 <= i < |cards| ==>
                  cards[i].instanceIndex == i + 1 && cards[i].instanceTotal == |group|
                  && cards[i].cvm == group[i].cvm && cards[i].cvm.appId == appId)
            && CardSummaries(cards) == SummariesOf(group)
            && CardStatuses(cards) == StatusesOf(group)
  {
    var group := Filter(Instances(nodes), InApp(appId));
    var matches := MatchesOf(nodes, appId);
    MatchesAreTheGroup(nodes, appId);
    assert |InstancesOfMatches(matches)| == |matches|;
    var cards := RenderApp(appId, now, nodes).value;
    forall i | 0 <= i < |cards|
      ensures cards[i].cvm == group[i].cvm && cards[i].summary == SummaryOf(InstanceVerdict(group[i]))
      ensures cards[i].cvm.appId == appId
    {
      assert InstancesOfMatches(matches)[i] == group[i];
      FilterHas(Instances(nodes), InApp(appId), group[i]);
    }
  }

  /** A row and the cards behind its link tell the same facts: the instance count, 1-based positions
      out of that count, the chip as the aggregate of the card chips, the status text, the side of
      the split, and every card of that app. */
  lemma IndexAndDetailAgree(nodes: seq<StoredReport>, row: AppRow, now: nat)
    requires row in FleetListOf(nodes).primary + FleetListOf(nodes).infra
    requires row.appId != ""
    ensures RenderApp(row.appId, now, nodes).Some?
    ensures var cards := RenderApp(row.appId, now, nodes).value;
            && |cards| == row.instanceCount >= 1
            && row.multiInstance == (|cards| > 1)
            && (forall i :: 0 <= i < |cards| ==>
                  cards[i].instanceIndex == i + 1 && cards[i].instanceTotal == row.instanceCount
                  && cards[i].cvm.appId == row.appId)
            && row.summary == Aggregated(CardSummaries(cards))
            && row.status == AggregateStatus(CardStatuses(cards))
            && row.name == AppDisplayName(cards[0].cvm.name)
            && row.role == cards[0].cvm.role && row.network == cards[0].cvm.network
            && (row in FleetListOf(nodes).primary <==> cards[0].cvm.role == Worker || cards[0].cvm.role == Keystore)
  {
    var fleet := FleetListOf(nodes);
    var group := Filter(Instances(nodes), InApp(row.appId));
    RowHasGroup(nodes, row in fleet.infra, row);
    RowIsUnique(nodes, row, row);
    CardsShowTheGroup(nodes, row.appId, now);
    var cards := RenderApp(row.appId, now, nodes).value;
    assert cards[0].cvm == group[0].cvm;
  }

  // ----- which side of the split, in which order -----

  /** Place `f` in the fleet is where the app is first met. */
  ghost predicate FirstMet(nodes: seq<StoredReport>, appId: string, f: nat) {
    && f < |Instances(nodes)| && Instances(nodes)[f].cvm.appId == appId
    && forall g :: 0 <= g < f ==> Instances(nodes)[g].cvm.appId != appId
  }

  lemma {:induction false} FilterStartsAtFirst<T>(s: seq<T>, p: T -> bool, f: nat)
    requires f < |s| && p(s[f]) && forall g :: 0 <= g < f ==> !p(s[g])
    ensures Filter(s, p) != [] && Filter(s, p)[0] == s[f]
  {
    if f < |s| - 1 {
      FilterStartsAtFirst(s[..|s| - 1], p, f);
    } else {
      forall x | x in s[..f]
        ensures !p(x)
      {
      }
      if Filter(s[..f], p) != [] {
        FilterHas(s[..f], p, Filter(s[..f], p)[0]);
      }
    }
  }

  /** An app is a primary row exactly if its first instance in the fleet is a worker or a keystore,
      and an infrastructure row otherwise. */
  lemma PrimaryIffWorkerOrKeystore(nodes: seq<StoredReport>, row: AppRow) returns (f: nat)
    requires row in FleetListOf(nodes).primary + FleetListOf(nodes).infra
    ensures FirstMet(nodes, row.appId, f)
    ensures row.role == Instances(nodes)[f].cvm.role
    ensures row in FleetListOf(nodes).primary <==> row.role == Worker || row.role == Keystore
    ensures row in FleetListOf(nodes).infra <==> row.role == Kms || row.role == Gateway || row.role == Unknown
  {
    var xs := Instances(nodes);
    RowHasGroup(nodes, row in FleetListOf(nodes).infra, row);
    RowIsUnique(nodes, row, row);
    var group := Filter(xs, InApp(row.appId));
    FilterHas(xs, InApp(row.appId), group[0]);
    assert row.appId in AppIds(xs) by {
      var i :| 0 <= i < |xs| && xs[i] == group[0];
      assert AppIds(xs)[i] == row.appId;
    }
    f := Position(AppIds(xs), row.appId).value;
    forall g | 0 <= g < f
      ensures xs[g].cvm.appId != row.appId
    {
      assert AppIds(xs)[..f][g] == xs[g].cvm.appId;
    }
    FilterStartsAtFirst(xs, InApp(row.appId), f);
  }

  lemma {:induction false} RowsComeFromGroups(groups: seq<seq<Instance>>, infra: bool, k1: nat, k2: nat)
    returns (g1: nat, g2: nat)
    requires k1 < k2 < |RowsWhere(groups, infra)|
    ensures g1 < g2 < |groups|
    ensures RowsWhere(groups, infra)[k1] == BuildAppRow(groups[g1])
    ensures RowsWhere(groups, infra)[k2] == BuildAppRow(groups[g2])
  {
    var n := |groups| - 1;
    var before := RowsWhere(groups[..n], infra);
    if k2 < |before| {
      g1, g2 := RowsComeFromGroups(groups[..n], infra, k1, k2);
    } else {
      g2 := n;
      assert before[k1] in before;
      RowsHave(groups[..n], infra, before[k1]);
      g1 :| 0 <= g1 < n && before[k1] == BuildAppRow(groups[..n][g1]);
    }
  }

  /** On either side the rows stand in the order in which their apps are first met in the fleet. */
  lemma RowsInFirstSeenOrder(nodes: seq<StoredReport>, infra: bool, k1: nat, k2: nat, f1: nat, f2: nat)
    requires var rows := if infra then FleetListOf(nodes).infra else FleetListOf(nodes).primary;
             k1 < k2 < |rows| && FirstMet(nodes, rows[k1].appId, f1) && FirstMet(nodes, rows[k2].appId, f2)
    ensures f1 < f2
  {
    var xs := Instances(nodes);
    var g1, g2 := RowsComeFromGroups(GroupsOf(xs), infra, k1, k2);
    RowAppId(xs, g1);
    RowAppId(xs, g2);
    assert forall g :: 0 <= g < |xs| ==> AppIds(xs)[g] == xs[g].cvm.appId;
    FirstMetInOrder(AppIds(xs), g1, g2, f1, f2);
  }

  lemma FirstMetInOrder(ids: seq<string>, g1: nat, g2: nat, f1: nat, f2: nat)
    requires g1 < g2 < |Distinct(ids)| && f1 < |ids| && f2 < |ids|
    requires ids[f1] == Distinct(ids)[g1] && forall g :: 0 <= g < f1 ==> ids[g] != ids[f1]
    requires ids[f2] == Distinct(ids)[g2]
    ensures f1 < f2
  {
    DistinctKeepsFirstSeenOrder(ids, g1, g2);
    var k :| 0 <= k <= |ids| && Distinct(ids)[g1] in ids[..k] && Distinct(ids)[g2] !in ids[..k];
    assert forall g :: 0 <= g < k ==> ids[..k][g] == ids[g];
    assert f1 < k;
  }

  // ----- a green row -----

  lemma InstanceIsListed(nodes: seq<StoredReport>, n: nat, i: nat)
    requires n < |nodes| && i < |nodes[n].report.cvms|
    ensures Instance(nodes[n].report.cvms[i], nodes[n].verdicts) in Instances(nodes)
  {
    var x := Instance(nodes[n].report.cvms[i], nodes[n].verdicts);
    assert NodeInstances(nodes[n])[i] == x;
    FlatMapHas(NodeInstances, nodes, x);
  }

  /** A green row: every instance of the app, on every node, has a green verdict of its own node. */
  lemma GreenRowMeansEveryInstanceGreen(nodes: seq<StoredReport>, row: AppRow, n: nat, i: nat)
    requires row in FleetListOf(nodes).primary + FleetListOf(nodes).infra
    requires row.summary == Verified
    requires n < |nodes| && i < |nodes[n].report.cvms| && nodes[n].report.cvms[i].appId == row.appId
    ensures SummaryOf(VerdictFor(nodes[n].verdicts, nodes[n].report.cvms[i].vmId)) == Verified
  {
    var x := Instance(nodes[n].report.cvms[i], nodes[n].verdicts);
    var group := Filter(Instances(nodes), InApp(row.appId));
    RowHasGroup(nodes, row in FleetListOf(nodes).infra, row);
    InstanceIsListed(nodes, n, i);
    FilterHas(Instances(nodes), InApp(row.appId), x);
    var k :| 0 <= k < |group| && group[k] == x;
    assert SummariesOf(group)[k] in SummariesOf(group);
  }
}
