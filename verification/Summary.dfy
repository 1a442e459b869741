/** How verdicts become chips and cards (server/src/page.rs): the tri-state summary of one
    instance, the aggregate of an app, and the per-facet card. */
module Summary {
  import opened Prelude
  import opened Hex
  import opened Quote
  import opened Wire
  import opened Verify

  datatype Summary = Verified | Failed | Pending

  datatype OnChain = Approved | NotApproved | NotApplicable

  datatype TcbClass = Good | Warn | Bad

  /** The per-facet card of one instance. */
  datatype VerdictView = VerdictView(
    pending: bool,
    sigValid: bool,
    tcbStatus: Option<string>,
    tcbClass: TcbClass,
    measurementsMatch: Option<bool>,
    onChain: OnChain,
    onChainContract: Option<string>,
    advisoryIds: seq<string>,
    verifyError: Option<VerifyError>,
    failing: bool)

  const UP_TO_DATE := "UpToDate"

  function SummaryOf(verdict: Option<CvmVerdict>): Summary {
    match verdict
    case None => Pending
    case Some(v) =>
      var onChainOk := v.onChainApproved != Some(false);
      var tcbOk := v.tcbStatus == Some(UP_TO_DATE);
      var measurementsOk := v.quoteMeasurementsMatch != Some(false);
      if v.sigValid && tcbOk && onChainOk && measurementsOk && v.error.None? then Verified else Failed
  }

  function TcbClassOf(status: Option<string>): TcbClass {
    match status
    case None => Bad
    case Some(s) => if s == UP_TO_DATE then Good else Warn
  }

  function BuildVerdict(verdict: Option<CvmVerdict>): VerdictView {
    match verdict
    case None => VerdictView(true, false, None, Bad, None, NotApplicable, None, [], None, false)
    case Some(v) =>
      var onChain :=
        match v.onChainApproved
        case Some(true) => Approved
        case Some(false) => NotApproved
        case None => NotApplicable;
      var failing :=
        !v.sigValid || onChain == NotApproved || v.quoteMeasurementsMatch == Some(false) || v.error.Some?;
      VerdictView(false, v.sigValid, v.tcbStatus, TcbClassOf(v.tcbStatus), v.quoteMeasurementsMatch,
                  onChain, v.onChainContract, v.advisoryIds, v.error, failing)
  }

  // ----- what a green chip proves -----

  /** The quote in the CVM's own certificate passed, with TCB status UpToDate; claimed measurements are
      its five registers, byte for byte; for a governed CVM the contract of its role and network
      approved exactly these claims. */
  ghost predicate Evidence(cvm: Cvm, w: World, quote: Bytes, rep: VerifiedReport) {
    && Attested(cvm, w, quote, rep)
    && rep.status == "UpToDate"
    && (cvm.measurements.Some? ==>
          rep.report.AsTd10().Some? && RegistersAre(rep.report.AsTd10().value, cvm.measurements.value))
    && (IsGoverned(cvm) ==> ContractAnswers(cvm, w, Ok(true)))
  }

  /** There is evidence for the CVM. */
  ghost predicate Genuine(cvm: Cvm, w: World) {
    exists quote, rep :: Evidence(cvm, w, quote, rep)
  }

  /** A chip is green exactly on this evidence, whatever the outside world answers. */
  lemma GreenIffGenuine(cvm: Cvm, w: World)
    ensures SummaryOf(Some(VerdictOf(cvm, w))) == Verified <==> Genuine(cvm, w)
  {
    var v := VerdictOf(cvm, w);
    if v.sigValid {
      var (quote, rep) := Authenticate(cvm, w).value;
      AnswersIs(cvm, w, Ok(true));
      GovernedNetworkHasRpc(cvm);
      forall q, r
        ensures Attested(cvm, w, q, r) <==> q == quote && r == rep
      {
        AttestedIffAuthenticated(cvm, w, q, r);
      }
      assert Genuine(cvm, w) <==> Evidence(cvm, w, quote, rep);
    } else {
      FailClosed(cvm, w);
    }
  }

  /** For the CVMs a contract governs, green means compared and approved, never merely unknown. */
  lemma GovernedGreenIsComparedAndApproved(cvm: Cvm, w: World)
    requires IsGoverned(cvm)
    requires SummaryOf(Some(VerdictOf(cvm, w))) == Verified
    ensures VerdictOf(cvm, w).quoteMeasurementsMatch == Some(true)
    ensures VerdictOf(cvm, w).onChainApproved == Some(true)
  {
    GreenIffGenuine(cvm, w);
  }

  /** An outside world that accepts every quote, with the given TCB status and report, and
      approves every measurement. */
  function LenientWorld(status: string, report: QuoteReport): World {
    World(_ => Ok(TDX_QUOTE_MAGIC + seq(MIN_QUOTE_LEN, _ => 0)), Ok(()), _ => Ok([]),
          (_, _, _) => Ok(VerifiedReport(status, [], report)), _ => None, (_, _, _) => Ok(true), 0, 0)
  }

  lemma LenientWorldAttests(cvm: Cvm, status: string, report: QuoteReport)
    requires cvm.appCertPem.Some?
    ensures Authenticate(cvm, LenientWorld(status, report)) ==
            Ok((TDX_QUOTE_MAGIC + seq(MIN_QUOTE_LEN, _ => 0), VerifiedReport(status, [], report)))
  {
    var quote: Bytes := TDX_QUOTE_MAGIC + seq(MIN_QUOTE_LEN, _ => 0);
    FramingIsSlicedOff([], quote);
    assert [] + quote == quote;
  }

  /** The promise "green only when the measurements match" holds of a CVM, for every outside world,
      exactly when it has no certificate, or claims measurements, or has a governing contract. Any
      other CVM turns green with its measurements never compared. */
  lemma GreenMeansComparedIff(cvm: Cvm)
    ensures (forall w: World :: SummaryOf(Some(VerdictOf(cvm, w))) == Verified
                                ==> VerdictOf(cvm, w).quoteMeasurementsMatch == Some(true))
            <==> cvm.appCertPem.None? || cvm.measurements.Some? || GoverningContract(cvm).Some?
  {
    if cvm.appCertPem.None? || cvm.measurements.Some? || GoverningContract(cvm).Some? {
      forall w: World | SummaryOf(Some(VerdictOf(cvm, w))) == Verified
        ensures VerdictOf(cvm, w).quoteMeasurementsMatch == Some(true)
      {
        GreenIffGenuine(cvm, w);
      }
    } else {
      var w := LenientWorld(UP_TO_DATE, SgxEnclave);
      LenientWorldAttests(cvm, UP_TO_DATE, SgxEnclave);
      assert SummaryOf(Some(VerdictOf(cvm, w))) == Verified;
      assert VerdictOf(cvm, w).quoteMeasurementsMatch == None;
    }
  }

  // ----- chip against card -----

  /** The row chip is red exactly when the detail card is. */
  predicate ChipAgreesWithCard(verdict: Option<CvmVerdict>) {
    SummaryOf(verdict) == Failed <==> BuildVerdict(verdict).failing
  }

  /** The two disagree exactly on a verdict whose only flaw is a TCB status other than
      "UpToDate": the chip is red, the card is not failing and shows a warning badge. */
  lemma ChipDisagreesIffOnlyTcbStale(v: CvmVerdict)
    ensures !ChipAgreesWithCard(Some(v)) <==>
            v.sigValid && v.tcbStatus != Some("UpToDate") && v.onChainApproved != Some(false)
            && v.quoteMeasurementsMatch != Some(false) && v.error.None?
    ensures !ChipAgreesWithCard(Some(v)) ==>
              SummaryOf(Some(v)) == Failed && BuildVerdict(Some(v)).tcbClass != Good
    ensures ChipAgreesWithCard(None)
  {
  }

  predicate AllDecode(m: Measurements) {
    && Decode(m.mrtd).Some? && Decode(m.rtmr0).Some? && Decode(m.rtmr1).Some?
    && Decode(m.rtmr2).Some? && Decode(m.rtmr3).Some?
  }

  function TdClaiming(m: Measurements): TdReport
    requires AllDecode(m)
  {
    TdReport(Decode(m.mrtd).value, Decode(m.rtmr0).value, Decode(m.rtmr1).value,
             Decode(m.rtmr2).value, Decode(m.rtmr3).value, [], [], [], [], [], [])
  }

  lemma StaleUnmeasuredDisagrees(cvm: Cvm)
    requires cvm.appCertPem.Some? && cvm.measurements.None? && GoverningContract(cvm).None?
    ensures !ChipAgreesWithCard(Some(VerdictOf(cvm, LenientWorld("OutOfDate", SgxEnclave))))
  {
    assert "OutOfDate"[0] != UP_TO_DATE[0];
    LenientWorldAttests(cvm, "OutOfDate", SgxEnclave);
  }

  lemma StaleMeasuredDisagrees(cvm: Cvm)
    requires cvm.appCertPem.Some? && cvm.measurements.Some? && AllDecode(cvm.measurements.value)
    ensures var report := TD10(TdClaiming(cvm.measurements.value));
            !ChipAgreesWithCard(Some(VerdictOf(cvm, LenientWorld("OutOfDate", report))))
  {
    assert "OutOfDate"[0] != UP_TO_DATE[0];
    LenientWorldAttests(cvm, "OutOfDate", TD10(TdClaiming(cvm.measurements.value)));
    GovernedNetworkHasRpc(cvm);
  }

  /** The promise that chip and card "can never disagree" holds for a CVM, in every outside world,
      exactly when it can fail for another reason anyway: no certificate, a governing contract
      without measurements to ask about, or a claimed register that is not hex text. Every other
      CVM is shown inconsistently on an outdated TCB. */
  lemma ChipAlwaysAgreesIff(cvm: Cvm)
    ensures (forall w: World :: ChipAgreesWithCard(Some(VerdictOf(cvm, w)))) <==>
            || cvm.appCertPem.None?
            || (cvm.measurements.None? && GoverningContract(cvm).Some?)
            || (cvm.measurements.Some? && !AllDecode(cvm.measurements.value))
  {
    if cvm.appCertPem.Some? {
      if cvm.measurements.None? && GoverningContract(cvm).None? {
        StaleUnmeasuredDisagrees(cvm);
      } else if cvm.measurements.Some? && AllDecode(cvm.measurements.value) {
        StaleMeasuredDisagrees(cvm);
      }
    }
  }

  /** For a pipeline verdict, agreement in terms of what the pipeline saw: the two part exactly on an
      attested quote whose TCB status is the only thing wrong. */
  lemma ChipAgreesWithCardIff(cvm: Cvm, w: World)
    ensures ChipAgreesWithCard(Some(VerdictOf(cvm, w))) <==>
            (forall quote, rep | Attested(cvm, w, quote, rep) ::
               || rep.status == "UpToDate"
               || (cvm.measurements.Some?
                   && (rep.report.SgxEnclave? || !RegistersAre(rep.report.AsTd10().value, cvm.measurements.value)))
               || (IsGoverned(cvm) && !ContractAnswers(cvm, w, Ok(true))))
  {
    var v := VerdictOf(cvm, w);
    ChipDisagreesIffOnlyTcbStale(v);
    FailClosed(cvm, w);
    if v.sigValid {
      var (quote, rep) := Authenticate(cvm, w).value;
      forall q, r
        ensures Attested(cvm, w, q, r) <==> q == quote && r == rep
      {
        AttestedIffAuthenticated(cvm, w, q, r);
      }
      OnlyTcbStaleIff(cvm, w, quote, rep);
    }
  }

  lemma OnlyTcbStaleIff(cvm: Cvm, w: World, quote: Bytes, rep: VerifiedReport)
    requires Attested(cvm, w, quote, rep)
    ensures ChipAgreesWithCard(Some(VerdictOf(cvm, w))) <==>
            || rep.status == "UpToDate"
            || (cvm.measurements.Some?
                && (rep.report.SgxEnclave? || !RegistersAre(rep.report.AsTd10().value, cvm.measurements.value)))
            || (IsGoverned(cvm) && !ContractAnswers(cvm, w, Ok(true)))
  {
    ChipDisagreesIffOnlyTcbStale(VerdictOf(cvm, w));
    VerdictRepeatsTheReport(cvm, w, quote, rep);
    LateErrorIsFirstFailure(cvm, w, quote, rep);
    AsksItsOwnContract(cvm, w);
    FailClosed(cvm, w);
  }

  /** The card shows exactly these facets: verdicts are shown alike if and only if they agree on all of
      them, and only a missing verdict is shown as pending. */
  lemma CardDeterminesFacets(a: CvmVerdict, b: CvmVerdict)
    ensures BuildVerdict(Some(a)) == BuildVerdict(Some(b)) <==>
              && a.sigValid == b.sigValid && a.tcbStatus == b.tcbStatus && a.advisoryIds == b.advisoryIds
              && a.quoteMeasurementsMatch == b.quoteMeasurementsMatch
              && a.onChainApproved == b.onChainApproved && a.onChainContract == b.onChainContract
              && a.error == b.error && SummaryOf(Some(a)) == SummaryOf(Some(b))
    ensures !BuildVerdict(Some(a)).pending && BuildVerdict(None).pending
    ensures BuildVerdict(Some(a)).onChain == Approved <==> a.onChainApproved == Some(true)
    ensures BuildVerdict(Some(a)).onChain == NotApproved <==> a.onChainApproved == Some(false)
    ensures SummaryOf(Some(a)) == Verified ==>
              !BuildVerdict(Some(a)).failing && BuildVerdict(Some(a)).tcbClass == Good
  {
  }

  // ----- the aggregate of an app -----

  function Join(a: Summary, b: Summary): Summary {
    if a == Failed || b == Failed then Failed
    else if a == Pending || b == Pending then Pending
    else Verified
  }

  /** Failed dominates, then Pending; an empty group reads as Pending. */
  function Aggregated(summaries: seq<Summary>): (r: Summary)
    ensures r == Failed <==> Failed in summaries
    ensures r == Verified <==> summaries != [] && forall s <- summaries :: s == Verified
  {
    if Failed in summaries then Failed
    else if summaries == [] || Pending in summaries then Pending
    else
      assert forall s <- summaries :: s != Failed && s != Pending;
      Verified
  }

  method Aggregate(summaries: seq<Summary>) returns (r: Summary)
    ensures r == Aggregated(summaries)
  {
    var anyFailed, anyPending, any := false, false, false;
    for i := 0 to |summaries|
      invariant anyFailed <==> Failed in summaries[..i]
      invariant anyPending <==> Pending in summaries[..i]
      invariant any <==> i > 0
    {
      var s := summaries[i];
      any := true;
      match s {
        case Failed => anyFailed := true;
        case Pending => anyPending := true;
        case Verified =>
      }
      assert summaries[..i + 1] == summaries[..i] + [s];
    }
    assert summaries[..|summaries|] == summaries;
    r := if anyFailed then Failed else if anyPending || !any then Pending else Verified;
  }

  /** Folding two groups together is joining their aggregates; the law fails only when one of the
      groups is empty and the other all verified. */
  lemma AggregateIsJoin(a: seq<Summary>, b: seq<Summary>)
    ensures Aggregated(a + b) == Join(Aggregated(a), Aggregated(b)) <==>
            (a != [] && b != []) || Aggregated(a + b) != Verified
  {
    if a == [] {
      assert a + b == b;
    } else if b == [] {
      assert a + b == a;
    } else {
      assert a[0] in a + b && b[0] in a + b;
    }
    assert forall s :: s in a + b <==> s in a || s in b;
  }

  lemma SameElements<T>(a: seq<T>, b: seq<T>)
    requires multiset(a) == multiset(b)
    ensures forall x :: x in a <==> x in b
    ensures |a| == |b|
  {
    assert |multiset(a)| == |a| && |multiset(b)| == |b|;
    forall x
      ensures x in a <==> x in b
    {
      assert x in a <==> x in multiset(a);
      assert x in b <==> x in multiset(b);
    }
  }

  lemma AggregateIgnoresOrder(a: seq<Summary>, b: seq<Summary>)
    requires multiset(a) == multiset(b)
    ensures Aggregated(a) == Aggregated(b)
  {
    SameElements(a, b);
  }

  // ----- the status column -----

  function Decimal(n: nat): string {
    if n < 10 then ["0123456789"[n]] else Decimal(n / 10) + ["0123456789"[n % 10]]
  }

  predicate IsRunning(status: string) {
    EqIgnoreAsciiCase(status, "running")
  }

  function AggregateStatus(statuses: seq<string>): string {
    var first := if statuses == [] then "" else statuses[0];
    if forall s <- statuses :: s == first then first
    else
      var running := |Filter(statuses, IsRunning)|;
      if running > 0 then Decimal(running) + " running / " + Decimal(|statuses|) else "mixed"
  }

  lemma {:induction false} FilterMultiset<T>(s: seq<T>, p: T -> bool, x: T)
    ensures multiset(Filter(s, p))[x] == if p(x) then multiset(s)[x] else 0
  {
    if s != [] {
      FilterMultiset(s[..|s| - 1], p, x);
      assert s == s[..|s| - 1] + [s[|s| - 1]];
    }
  }

  /** Reordering the instances of an app does not change its status text. */
  lemma StatusIgnoresOrder(a: seq<string>, b: seq<string>)
    requires multiset(a) == multiset(b)
    ensures AggregateStatus(a) == AggregateStatus(b)
  {
    SameElements(a, b);
    forall x
      ensures multiset(Filter(a, IsRunning))[x] == multiset(Filter(b, IsRunning))[x]
    {
      FilterMultiset(a, IsRunning, x);
      FilterMultiset(b, IsRunning, x);
    }
    SameElements(Filter(a, IsRunning), Filter(b, IsRunning));
    if a != [] {
      assert a[0] in b && b[0] in a;
    }
  }

  /** The number a decimal text stands for. */
  function NumeralValue(text: string): nat
    requires forall i :: 0 <= i < |text| ==> '0' <= text[i] <= '9'
  {
    if text == "" then 0
    else
      var n := |text| - 1;
      10 * NumeralValue(text[..n]) + (text[n] as int - '0' as int)
  }

  /** `text` is `n` in decimal digits, without leading zeros. */
  ghost predicate IsNumeral(text: string, n: nat) {
    && text != "" && (forall i :: 0 <= i < |text| ==> '0' <= text[i] <= '9') && NumeralValue(text) == n
    && (text[0] == '0' ==> n == 0 && |text| == 1)
  }

  lemma {:induction false} DecimalIsNumeral(n: nat)
    ensures IsNumeral(Decimal(n), n)
  {
    var digit := "0123456789"[n % 10];
    assert digit as int == '0' as int + n % 10;
    if n < 10 {
      assert Decimal(n) == [digit];
      assert [digit][..0] == "";
    } else {
      DecimalIsNumeral(n / 10);
      var text := Decimal(n);
      assert text == Decimal(n / 10) + [digit] && text[..|text| - 1] == Decimal(n / 10);
    }
  }

  /** The instances that run, in any case of the letters. */
  ghost function RunningAt(statuses: seq<string>): set<int> {
    set i | 0 <= i < |statuses| && EqIgnoreAsciiCase(statuses[i], "running")
  }

  lemma {:induction false} RunningCount(statuses: seq<string>)
    ensures |Filter(statuses, IsRunning)| == |RunningAt(statuses)|
  {
    if statuses != [] {
      var n := |statuses| - 1;
      RunningCount(statuses[..n]);
      assert RunningAt(statuses) ==
             RunningAt(statuses[..n]) + if EqIgnoreAsciiCase(statuses[n], "running") then {n} else {};
    }
  }

  /** The status text of an app: the one status all its instances have; else how many of how many are
      running; else "mixed". */
  lemma StatusIs(statuses: seq<string>)
    ensures var text, running := AggregateStatus(statuses), |RunningAt(statuses)|;
            && (forall s <- statuses :: AllAre(statuses, s) ==> text == s)
            && ((exists s <- statuses :: !AllAre(statuses, s)) ==>
                  if running == 0 then text == "mixed"
                  else exists r, n :: IsNumeral(r, running) && IsNumeral(n, |statuses|)
                                      && text == r + " running / " + n)
  {
    RunningCount(statuses);
    DecimalIsNumeral(|RunningAt(statuses)|);
    DecimalIsNumeral(|statuses|);
    assert statuses != [] ==> statuses[0] in statuses;
  }

  ghost predicate AllAre(statuses: seq<string>, s: string) {
    forall t <- statuses :: t == s
  }

  // ----- the display name -----

  predicate IsDigits(s: string) {
    s != "" && forall c <- s :: '0' <= c <= '9'
  }

  /** Split at the last `sep`. */
  function RSplitOnce(s: string, sep: char): (r: Option<(string, string)>)
    ensures r.Some? ==> s == r.value.0 + [sep] + r.value.1 && sep !in r.value.1
    ensures r.None? ==> sep !in s
  {
    if s == "" then None
    else
      var n := |s| - 1;
      if s[n] == sep then Some((s[..n], ""))
      else
        match RSplitOnce(s[..n], sep)
        case None => None
        case Some((head, tail)) => Some((head, tail + [s[n]]))
  }

  function AppDisplayName(name: string): string {
    match RSplitOnce(name, '-')
    case None => name
    case Some((head, tail)) => if head != "" && IsDigits(tail) then head else name
  }

  /** A name is shortened exactly when it is some nonempty head, a dash and digits, and what is
      left is that head. */
  lemma DisplayNameTrimsInstanceNumber(name: string, head: string)
    ensures AppDisplayName(name) == head && name != head <==>
            head != "" && exists digits :: digits != "" && (forall c <- digits :: c in "0123456789")
                                           && name == head + "-" + digits
  {
    var r := RSplitOnce(name, '-');
    if head != "" && exists digits :: IsDigits(digits) && name == head + "-" + digits {
      var digits :| IsDigits(digits) && name == head + "-" + digits;
      assert '-' !in digits;
      LastSplitIsUnique(head, digits, r.value.0, r.value.1);
    }
  }

  lemma LastSplitIsUnique(h1: string, t1: string, h2: string, t2: string)
    requires h1 + "-" + t1 == h2 + "-" + t2
    requires '-' !in t1 && '-' !in t2
    ensures h1 == h2 && t1 == t2
  {
    LongerHeadSplitsElsewhere(h1, t1, h2, t2);
    LongerHeadSplitsElsewhere(h2, t2, h1, t1);
    var s := h1 + "-" + t1;
    assert s[..|h1|] == h1 && s[|h1| + 1..] == t1;
    assert s == h2 + "-" + t2 && s[..|h2|] == h2 && s[|h2| + 1..] == t2;
  }

  lemma LongerHeadSplitsElsewhere(h1: string, t1: string, h2: string, t2: string)
    requires '-' !in t1
    ensures |h1| < |h2| ==> h1 + "-" + t1 != h2 + "-" + t2
  {
    var s1, s2 := h1 + "-" + t1, h2 + "-" + t2;
    if |h1| < |h2| < |s1| {
      assert s2[|h2|] == '-';
      assert s1[|h2|] == t1[|h2| - |h1| - 1];
    }
  }
}
