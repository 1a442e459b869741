/** The stable per-network keystore link (server/src/main.rs): which app it redirects to. */
module Keystore {
  import opened Prelude
  import opened Wire
  import opened Fleet
  import opened Store
  import opened Snapshot

  datatype Candidate = Candidate(receivedAt: nat, appId: string)

  predicate IsKeystoreOn(cvm: Cvm, network: string) {
    cvm.role == Role.Keystore && cvm.network == Some(network)
  }

  function OnNetwork(network: string): Cvm -> bool {
    (cvm: Cvm) => IsKeystoreOn(cvm, network)
  }

  function NodeCandidates(r: StoredReport, network: string): seq<Candidate> {
    var cvms := Filter(r.report.cvms, OnNetwork(network));
    seq(|cvms|, i requires 0 <= i < |cvms| => Candidate(r.receivedAt, cvms[i].appId))
  }

  function CandidatesOn(network: string): StoredReport -> seq<Candidate> {
    (r: StoredReport) => NodeCandidates(r, network)
  }

  function Candidates(reports: seq<StoredReport>, network: string): seq<Candidate> {
    FlatMap(CandidatesOn(network), reports)
  }

  /** The candidate with the greatest key; among equals the last one. */
  function MaxByReceivedAt(cs: seq<Candidate>): Option<Candidate> {
    if cs == [] then None
    else
      var last := cs[|cs| - 1];
      match MaxByReceivedAt(cs[..|cs| - 1])
      case None => Some(last)
      case Some(best) => if best.receivedAt <= last.receivedAt then Some(last) else Some(best)
  }

  function FindKeystoreAppId(reports: seq<StoredReport>, network: string): Option<string> {
    match MaxByReceivedAt(Candidates(reports, network))
    case None => None
    case Some(best) => Some(best.appId)
  }

  /** The app the link redirects to, or nothing: then a friendly 404 is served. */
  function KeystoreRedirect(reports: seq<StoredReport>, network: string): Option<string> {
    match FindKeystoreAppId(reports, network)
    case None => None
    case Some(appId) => if appId == "" then None else Some(appId)
  }

  // ----- the choice -----

  lemma {:induction false} MaxIsMaximal(cs: seq<Candidate>)
    ensures MaxByReceivedAt(cs).None? <==> cs == []
    ensures cs != [] ==>
              && MaxByReceivedAt(cs).value in cs
              && forall c <- cs :: c.receivedAt <= MaxByReceivedAt(cs).value.receivedAt
  {
    if cs != [] {
      MaxIsMaximal(cs[..|cs| - 1]);
      assert cs == cs[..|cs| - 1] + [cs[|cs| - 1]];
    }
  }

  /** A keystore of the network in some stored report. */
  ghost predicate Reporting(reports: seq<StoredReport>, network: string, n: int, i: int) {
    && 0 <= n < |reports| && 0 <= i < |reports[n].report.cvms|
    && reports[n].report.cvms[i].role == Role.Keystore && reports[n].report.cvms[i].network == Some(network)
  }

  /** No keystore of the network is newer than this one. */
  ghost predicate IsNewestKeystore(reports: seq<StoredReport>, network: string, n: int, i: int) {
    && Reporting(reports, network, n, i)
    && forall n', i' :: Reporting(reports, network, n', i') ==> reports[n'].receivedAt <= reports[n].receivedAt
  }

  lemma NodeCandidateIff(r: StoredReport, network: string, c: Candidate)
    ensures c in NodeCandidates(r, network) <==>
            exists i :: 0 <= i < |r.report.cvms| && IsKeystoreOn(r.report.cvms[i], network)
                        && c == Candidate(r.receivedAt, r.report.cvms[i].appId)
  {
    var all, cvms := r.report.cvms, Filter(r.report.cvms, OnNetwork(network));
    if c in NodeCandidates(r, network) {
      var k :| 0 <= k < |cvms| && NodeCandidates(r, network)[k] == c;
      FilterHas(all, OnNetwork(network), cvms[k]);
      var i :| 0 <= i < |all| && all[i] == cvms[k];
    }
    if i :| 0 <= i < |all| && IsKeystoreOn(all[i], network) && c == Candidate(r.receivedAt, all[i].appId) {
      FilterHas(all, OnNetwork(network), all[i]);
      var k :| 0 <= k < |cvms| && cvms[k] == all[i];
      assert NodeCandidates(r, network)[k] == c;
    }
  }

  lemma CandidateIsReporting(reports: seq<StoredReport>, network: string, c: Candidate)
    ensures c in Candidates(reports, network) <==>
            exists n, i :: Reporting(reports, network, n, i)
                           && c == Candidate(reports[n].receivedAt, reports[n].report.cvms[i].appId)
  {
    FlatMapHas(CandidatesOn(network), reports, c);
    if n :| 0 <= n < |reports| && c in CandidatesOn(network)(reports[n]) {
      NodeCandidateIff(reports[n], network, c);
      var i :| 0 <= i < |reports[n].report.cvms| && IsKeystoreOn(reports[n].report.cvms[i], network)
               && c == Candidate(reports[n].receivedAt, reports[n].report.cvms[i].appId);
      assert Reporting(reports, network, n, i);
    }
    if n, i :| Reporting(reports, network, n, i)
               && c == Candidate(reports[n].receivedAt, reports[n].report.cvms[i].appId) {
      NodeCandidateIff(reports[n], network, c);
      assert c in CandidatesOn(network)(reports[n]);
    }
  }

  /** Nothing is found exactly when no keystore of the network reports; otherwise the app is that of
      a reporting keystore no other one is newer than. */
  lemma ChoiceIsNewest(reports: seq<StoredReport>, network: string)
    ensures FindKeystoreAppId(reports, network).None? <==> forall n, i :: !Reporting(reports, network, n, i)
    ensures FindKeystoreAppId(reports, network).Some? ==>
              exists n, i :: IsNewestKeystore(reports, network, n, i)
                             && reports[n].report.cvms[i].appId == FindKeystoreAppId(reports, network).value
  {
    var cs := Candidates(reports, network);
    MaxIsMaximal(cs);
    forall n, i | Reporting(reports, network, n, i)
      ensures Candidate(reports[n].receivedAt, reports[n].report.cvms[i].appId) in cs
    {
      CandidateIsReporting(reports, network, Candidate(reports[n].receivedAt, reports[n].report.cvms[i].appId));
    }
    if cs != [] {
      CandidateIsReporting(reports, network, MaxByReceivedAt(cs).value);
    }
  }

  /** The redirect goes to the nonempty app of a newest keystore; there is none if no keystore of the
      network reports, and there is one if all newest keystores name their app. */
  lemma RedirectIsNewest(reports: seq<StoredReport>, network: string)
    ensures var link := KeystoreRedirect(reports, network);
            && (link.Some? ==>
                  && link.value != ""
                  && exists n, i :: IsNewestKeystore(reports, network, n, i)
                                    && reports[n].report.cvms[i].appId == link.value)
            && ((forall n, i :: !Reporting(reports, network, n, i)) ==> link.None?)
            && ((exists n, i :: Reporting(reports, network, n, i))
                && (forall n, i :: IsNewestKeystore(reports, network, n, i) ==> reports[n].report.cvms[i].appId != "")
                ==> link.Some?)
  {
    ChoiceIsNewest(reports, network);
  }

  // ----- the app it names has a page -----

  /** A redirect issued from the map, in whatever order it is walked, names an app that the page lookup
      resolves on that same map, to a page that shows a keystore of the network. */
  lemma RedirectResolves(m: Reports, walked: seq<StoredReport>, nodes: seq<StoredReport>,
                         network: string, now: nat)
    requires Enumerates(m, walked) && Enumerates(m, nodes)
    requires KeystoreRedirect(walked, network).Some?
    ensures var appId := KeystoreRedirect(walked, network).value;
            && appId != ""
            && RenderApp(appId, now, nodes).Some?
            && exists card <- RenderApp(appId, now, nodes).value ::
                 card.cvm.role == Role.Keystore && card.cvm.network == Some(network)
  {
    var appId := KeystoreRedirect(walked, network).value;
    ChoiceIsNewest(walked, network);
    var n, i :| Reporting(walked, network, n, i) && walked[n].report.cvms[i].appId == appId;
    var node := EnumerationIsFromMap(m, walked, n);
    var n' := EnumerationHasEntry(m, nodes, node);
    InstanceIsListed(nodes, n', i);
    var x := Instance(nodes[n'].report.cvms[i], nodes[n'].verdicts);
    FilterHas(Instances(nodes), InApp(appId), x);
    var group := Filter(Instances(nodes), InApp(appId));
    var k :| 0 <= k < |group| && group[k] == x;
    CardsShowTheGroup(nodes, appId, now);
    assert RenderApp(appId, now, nodes).value[k].cvm == x.cvm;
    assert RenderApp(appId, now, nodes).value[k] in RenderApp(appId, now, nodes).value;
  }

  // ----- dependence on the walking order -----

  /** The app of a report's last keystore on the network. */
  function LastApp(r: StoredReport, network: string): Option<string> {
    var cs := NodeCandidates(r, network);
    if cs == [] then None else Some(cs[|cs| - 1].appId)
  }

  lemma {:induction false} MaxOfOneNode(cs: seq<Candidate>, r: StoredReport, network: string, k: nat)
    requires k <= |NodeCandidates(r, network)|
    ensures var best := MaxByReceivedAt(cs);
            MaxByReceivedAt(cs + NodeCandidates(r, network)[..k]) ==
            if k == 0 || (best.Some? && r.receivedAt < best.value.receivedAt) then best
            else Some(NodeCandidates(r, network)[k - 1])
  {
    var own := NodeCandidates(r, network);
    if k == 0 {
      assert cs + own[..0] == cs;
    } else {
      MaxOfOneNode(cs, r, network, k - 1);
      var all := cs + own[..k];
      assert all[..|all| - 1] == cs + own[..k - 1];
      assert all[|all| - 1] == own[k - 1];
    }
  }

  /** Walking one more report: its last keystore wins unless a newer one was met before. */
  lemma WalkOneMore(reports: seq<StoredReport>, r: StoredReport, network: string)
    ensures var best := MaxByReceivedAt(Candidates(reports, network));
            MaxByReceivedAt(Candidates(reports + [r], network)) ==
            if LastApp(r, network).None? || (best.Some? && r.receivedAt < best.value.receivedAt) then best
            else Some(Candidate(r.receivedAt, LastApp(r, network).value))
  {
    var own := NodeCandidates(r, network);
    assert (reports + [r])[..|reports|] == reports;
    assert own[..|own|] == own;
    MaxOfOneNode(Candidates(reports, network), r, network, |own|);
  }

  /** `r` has a keystore on the network, and no report with one is newer. */
  ghost predicate IsNewest(reports: seq<StoredReport>, network: string, r: StoredReport) {
    && r in reports && LastApp(r, network).Some?
    && forall o :: o in reports && LastApp(o, network).Some? ==> o.receivedAt <= r.receivedAt
  }

  lemma {:induction false} ChoiceIsSomeNewest(reports: seq<StoredReport>, network: string)
    ensures var best := MaxByReceivedAt(Candidates(reports, network));
            && (best.None? ==> forall o :: o in reports ==> LastApp(o, network).None?)
            && (best.Some? ==>
                  exists r :: IsNewest(reports, network, r)
                              && best.value == Candidate(r.receivedAt, LastApp(r, network).value))
  {
    if reports != [] {
      var init, last := reports[..|reports| - 1], reports[|reports| - 1];
      assert reports == init + [last];
      ChoiceIsSomeNewest(init, network);
      WalkOneMore(init, last, network);
      var before := MaxByReceivedAt(Candidates(init, network));
      if before.Some? {
        var r :| IsNewest(init, network, r) && before.value == Candidate(r.receivedAt, LastApp(r, network).value);
        if LastApp(last, network).Some? && before.value.receivedAt <= last.receivedAt {
          assert IsNewest(reports, network, last);
        } else {
          assert IsNewest(reports, network, r);
        }
      } else if LastApp(last, network).Some? {
        assert IsNewest(reports, network, last);
      }
    }
  }

  /** Moved to the end of the walk, a newest report decides. */
  lemma NewestLastDecides(reports: seq<StoredReport>, network: string, k: nat)
    requires k < |reports| && IsNewest(reports, network, reports[k])
    ensures var walked := reports[..k] + reports[k + 1..] + [reports[k]];
            && multiset(walked) == multiset(reports)
            && FindKeystoreAppId(walked, network) == LastApp(reports[k], network)
  {
    var rest := reports[..k] + reports[k + 1..];
    assert reports == reports[..k] + [reports[k]] + reports[k + 1..];
    assert forall o :: o in rest ==> o in reports;
    ChoiceIsSomeNewest(rest, network);
    WalkOneMore(rest, reports[k], network);
  }

  ghost predicate NewestAgree(reports: seq<StoredReport>, network: string) {
    forall r1, r2 :: IsNewest(reports, network, r1) && IsNewest(reports, network, r2) ==>
                       LastApp(r1, network) == LastApp(r2, network)
  }

  lemma SameChoice(reports: seq<StoredReport>, walked: seq<StoredReport>, network: string)
    requires multiset(walked) == multiset(reports) && NewestAgree(reports, network)
    ensures FindKeystoreAppId(walked, network) == FindKeystoreAppId(reports, network)
  {
    forall r
      ensures r in walked <==> r in reports
    {
      assert r in multiset(walked) <==> r in multiset(reports);
    }
    ChoiceIsSomeNewest(reports, network);
    ChoiceIsSomeNewest(walked, network);
    forall r | IsNewest(walked, network, r)
      ensures IsNewest(reports, network, r)
    {
    }
  }

  /** Two newest reports that end in different apps: each wins when it is walked last. */
  lemma DisagreementShows(reports: seq<StoredReport>, network: string, r1: StoredReport, r2: StoredReport)
    requires IsNewest(reports, network, r1) && IsNewest(reports, network, r2)
    requires LastApp(r1, network) != LastApp(r2, network)
    ensures exists walked :: multiset(walked) == multiset(reports)
                             && FindKeystoreAppId(walked, network) != FindKeystoreAppId(reports, network)
  {
    var k1 :| 0 <= k1 < |reports| && reports[k1] == r1;
    var k2 :| 0 <= k2 < |reports| && reports[k2] == r2;
    NewestLastDecides(reports, network, k1);
    NewestLastDecides(reports, network, k2);
  }

  lemma ChoiceIsOrderIndependentIff(reports: seq<StoredReport>, network: string)
    ensures (forall walked :: multiset(walked) == multiset(reports) ==>
               FindKeystoreAppId(walked, network) == FindKeystoreAppId(reports, network))
            <==> NewestAgree(reports, network)
  {
    if NewestAgree(reports, network) {
      forall walked | multiset(walked) == multiset(reports)
        ensures FindKeystoreAppId(walked, network) == FindKeystoreAppId(reports, network)
      {
        SameChoice(reports, walked, network);
      }
    } else {
      var r1, r2 :| IsNewest(reports, network, r1) && IsNewest(reports, network, r2)
                    && LastApp(r1, network) != LastApp(r2, network);
      DisagreementShows(reports, network, r1, r2);
    }
  }

  // ----- the same in terms of the reports -----

  /** The report's last keystore of the network is of this app. */
  ghost predicate EndsIn(r: StoredReport, network: string, appId: string) {
    exists i :: 0 <= i < |r.report.cvms| && IsLastKeystore(r, network, i) && r.report.cvms[i].appId == appId
  }

  ghost predicate IsLastKeystore(r: StoredReport, network: string, i: nat) {
    && i < |r.report.cvms| && r.report.cvms[i].role == Role.Keystore && r.report.cvms[i].network == Some(network)
    && forall j :: i < j < |r.report.cvms| ==>
                     !(r.report.cvms[j].role == Role.Keystore && r.report.cvms[j].network == Some(network))
  }

  lemma {:induction false} FilterEndsAtLast<T>(s: seq<T>, p: T -> bool)
    ensures Filter(s, p) == [] ==> forall i :: 0 <= i < |s| ==> !p(s[i])
    ensures Filter(s, p) != [] ==>
              exists i :: 0 <= i < |s| && p(s[i]) && s[i] == Filter(s, p)[|Filter(s, p)| - 1]
                          && forall j :: i < j < |s| ==> !p(s[j])
  {
    if s != [] && !p(s[|s| - 1]) {
      FilterEndsAtLast(s[..|s| - 1], p);
    }
  }

  lemma LastAppIff(r: StoredReport, network: string, appId: string)
    ensures LastApp(r, network) == Some(appId) <==> EndsIn(r, network, appId)
  {
    FilterEndsAtLast(r.report.cvms, OnNetwork(network));
  }

  ghost predicate HasKeystore(r: StoredReport, network: string) {
    exists appId :: EndsIn(r, network, appId)
  }

  /** A report with a keystore of the network, and no newer one. */
  ghost predicate IsNewestReport(reports: seq<StoredReport>, network: string, r: StoredReport) {
    && r in reports && HasKeystore(r, network)
    && forall o :: o in reports && HasKeystore(o, network) ==> o.receivedAt <= r.receivedAt
  }

  /** The newest reports with a keystore of the network end in one and the same app. */
  ghost predicate NewestEndAlike(reports: seq<StoredReport>, network: string) {
    forall r1, r2, app1, app2 ::
      && IsNewestReport(reports, network, r1) && EndsIn(r1, network, app1)
      && IsNewestReport(reports, network, r2) && EndsIn(r2, network, app2)
      ==> app1 == app2
  }

  lemma HasKeystoreIff(r: StoredReport, network: string)
    ensures HasKeystore(r, network) <==> LastApp(r, network).Some?
  {
    forall appId
      ensures LastApp(r, network) == Some(appId) <==> EndsIn(r, network, appId)
    {
      LastAppIff(r, network, appId);
    }
    if LastApp(r, network).Some? {
      assert EndsIn(r, network, LastApp(r, network).value);
    }
  }

  lemma NewestReportIff(reports: seq<StoredReport>, network: string, r: StoredReport)
    ensures IsNewestReport(reports, network, r) <==> IsNewest(reports, network, r)
  {
    forall o
      ensures HasKeystore(o, network) <==> LastApp(o, network).Some?
    {
      HasKeystoreIff(o, network);
    }
  }

  lemma NewestEndAlikeIff(reports: seq<StoredReport>, network: string)
    ensures NewestEndAlike(reports, network) <==> NewestAgree(reports, network)
  {
    forall r
      ensures IsNewestReport(reports, network, r) <==> IsNewest(reports, network, r)
    {
      NewestReportIff(reports, network, r);
    }
    forall r, appId
      ensures LastApp(r, network) == Some(appId) <==> EndsIn(r, network, appId)
    {
      LastAppIff(r, network, appId);
    }
    if NewestEndAlike(reports, network) {
      forall r1, r2 | IsNewest(reports, network, r1) && IsNewest(reports, network, r2)
        ensures LastApp(r1, network) == LastApp(r2, network)
      {
        assert EndsIn(r1, network, LastApp(r1, network).value) && EndsIn(r2, network, LastApp(r2, network).value);
      }
    }
  }

  lemma RedirectTellsTheChoice(reports: seq<StoredReport>, walked: seq<StoredReport>, network: string)
    requires multiset(walked) == multiset(reports)
    ensures KeystoreRedirect(walked, network) == KeystoreRedirect(reports, network) <==>
            FindKeystoreAppId(walked, network) == FindKeystoreAppId(reports, network)
  {
    forall r
      ensures r in walked <==> r in reports
    {
      assert r in multiset(walked) <==> r in multiset(reports);
    }
    ChoiceIsSomeNewest(reports, network);
    ChoiceIsSomeNewest(walked, network);
  }

  /** The redirect does not depend on the order in which the map is walked exactly when the newest
      reports that run a keystore of the network end in one and the same app. */
  lemma OrderIndependentIff(reports: seq<StoredReport>, network: string)
    ensures (forall walked :: multiset(walked) == multiset(reports) ==>
               KeystoreRedirect(walked, network) == KeystoreRedirect(reports, network))
            <==> NewestEndAlike(reports, network)
  {
    NewestEndAlikeIff(reports, network);
    ChoiceIsOrderIndependentIff(reports, network);
    forall walked | multiset(walked) == multiset(reports)
      ensures KeystoreRedirect(walked, network) == KeystoreRedirect(reports, network) <==>
              FindKeystoreAppId(walked, network) == FindKeystoreAppId(reports, network)
    {
      RedirectTellsTheChoice(reports, walked, network);
    }
  }

  /** Then it goes to that app, in whatever order the map is walked, and there is none exactly if that
      app has no id. */
  lemma RedirectInEveryOrder(reports: seq<StoredReport>, walked: seq<StoredReport>, network: string,
                             r: StoredReport, appId: string)
    requires multiset(walked) == multiset(reports) && NewestEndAlike(reports, network)
    requires IsNewestReport(reports, network, r) && EndsIn(r, network, appId)
    ensures KeystoreRedirect(walked, network) == if appId == "" then None else Some(appId)
  {
    NewestEndAlikeIff(reports, network);
    SameChoice(reports, walked, network);
    NewestReportIff(reports, network, r);
    LastAppIff(r, network, appId);
    ChoiceIsSomeNewest(reports, network);
  }
}
