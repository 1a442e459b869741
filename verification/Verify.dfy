/** The verify pipeline (server/src/verify.rs): from a pushed CVM to its verdict, failing closed. */
module Verify {
  import opened Prelude
  import opened Wire
  import opened Hex
  import opened Quote

  // ----- what the pipeline calls and does not contain -----

  datatype TdReport = TdReport(
    mrTd: Bytes, rtMr0: Bytes, rtMr1: Bytes, rtMr2: Bytes, rtMr3: Bytes,
    reportData: Bytes, mrSeam: Bytes, mrSignerSeam: Bytes,
    teeTcbSvn: Bytes, tdAttributes: Bytes, xfam: Bytes)

  datatype QuoteReport = SgxEnclave | TD10(td10: TdReport) | TD15(base: TdReport) {
    function AsTd10(): Option<TdReport> {
      match this
      case SgxEnclave => None
      case TD10(td) => Some(td)
      case TD15(td) => Some(td)
    }
  }

  datatype VerifiedReport = VerifiedReport(status: string, advisoryIds: seq<string>, report: QuoteReport)

  type Collateral = Bytes

  /** Everything outside the pipeline while one CVM is verified: certificate parsing, Intel's PCS,
      dcap-qvl, the NEAR RPC and the clock. Each answer is arbitrary, success or failure. */
  datatype World = World(
    certExtension: string -> Result<Bytes, string>,
    pcsClient: Result<(), string>,
    fetchCollateral: Bytes -> Result<Collateral, string>,
    dcapVerify: (Bytes, Collateral, nat) -> Result<VerifiedReport, string>,
    quoteFmspc: Bytes -> Option<Bytes>,
    isMeasurementsApproved: (string, string, Measurements) -> Result<bool, string>,
    startedAt: nat,
    verifyAt: nat)

  // ----- the verdict -----

  datatype VerifyError =
    | NoCert
    | CertUnreadable(reason: string)
    | QuoteExtraction(cause: ExtractError)
    | PcsClientBuild(reason: string)
    | CollateralFetch(reason: string)
    | QuoteRejected(reason: string)
    | NotTdReport
    | NoMeasurements
    | OnChainCheck(reason: string)

  datatype DecodedReport = DecodedReport(
    mrtd: string, rtmr0: string, rtmr1: string, rtmr2: string, rtmr3: string,
    reportData: string, mrSeam: string, mrSignerSeam: string,
    teeTcbSvn: string, tdAttributes: string, xfam: string,
    fmspc: Option<string>, quoteHex: string)

  datatype CvmVerdict = CvmVerdict(
    vmId: string,
    sigValid: bool,
    tcbStatus: Option<string>,
    advisoryIds: seq<string>,
    fmspc: Option<string>,
    decoded: Option<DecodedReport>,
    quoteMeasurementsMatch: Option<bool>,
    onChainApproved: Option<bool>,
    onChainContract: Option<string>,
    error: Option<VerifyError>,
    verifiedAt: nat)

  /** A fresh, all-negative verdict. */
  function NewVerdict(vmId: string, now: nat): CvmVerdict {
    CvmVerdict(vmId, false, None, [], None, None, None, None, None, None, now)
  }

  function OrElse<T>(first: Option<T>, second: Option<T>): Option<T> {
    if first.Some? then first else second
  }

  // ----- the pure parts -----

  function RpcUrl(network: string): Option<string> {
    if network == "mainnet" then Some("https://rpc.mainnet.fastnear.com")
    else if network == "testnet" then Some("https://rpc.testnet.fastnear.com")
    else None
  }

  function NearTla(network: string): Option<string> {
    if network == "mainnet" then Some("near")
    else if network == "testnet" then Some("testnet")
    else None
  }

  function ApprovalContract(role: Role, network: string): Option<string> {
    match NearTla(network)
    case None => None
    case Some(tla) =>
      match role
      case Worker => Some("worker.outlayer." + tla)
      case Keystore => Some("dao.outlayer." + tla)
      case Kms | Gateway | Unknown => None
  }

  function ExtractFromCert(pem: string, w: World): Result<Bytes, VerifyError> {
    match w.certExtension(pem)
    case Err(e) => Err(CertUnreadable(e))
    case Ok(blob) =>
      match ExtractQuote(blob)
      case Err(e) => Err(QuoteExtraction(e))
      case Ok(quote) => Ok(quote)
  }

  function FmspcText(quote: Bytes, w: World): Option<string> {
    match w.quoteFmspc(quote)
    case None => None
    case Some(bytes) => Some(UpperText(bytes))
  }

  function DecodeReport(rep: VerifiedReport, quote: Bytes, fmspc: Option<string>): Option<DecodedReport> {
    match rep.report.AsTd10()
    case None => None
    case Some(td) =>
      Some(DecodedReport(
             LowerText(td.mrTd), LowerText(td.rtMr0), LowerText(td.rtMr1), LowerText(td.rtMr2),
             LowerText(td.rtMr3), LowerText(td.reportData), LowerText(td.mrSeam),
             LowerText(td.mrSignerSeam), LowerText(td.teeTcbSvn), LowerText(td.tdAttributes),
             LowerText(td.xfam), fmspc, LowerText(quote)))
  }

  function QuoteMeasurements(rep: VerifiedReport): Option<Measurements> {
    match rep.report.AsTd10()
    case None => None
    case Some(td) =>
      Some(Measurements(LowerText(td.mrTd), LowerText(td.rtMr0), LowerText(td.rtMr1),
                        LowerText(td.rtMr2), LowerText(td.rtMr3)))
  }

  predicate MeasurementsEq(a: Measurements, b: Measurements) {
    && EqIgnoreAsciiCase(a.mrtd, b.mrtd)
    && EqIgnoreAsciiCase(a.rtmr0, b.rtmr0)
    && EqIgnoreAsciiCase(a.rtmr1, b.rtmr1)
    && EqIgnoreAsciiCase(a.rtmr2, b.rtmr2)
    && EqIgnoreAsciiCase(a.rtmr3, b.rtmr3)
  }

  function CheckOnChain(contract: string, network: string, m: Measurements, w: World): Result<bool, string> {
    match RpcUrl(network)
    case None => Err("no RPC URL for network " + network)
    case Some(url) => w.isMeasurementsApproved(url, contract, m)
  }

  // ----- what a verdict means -----

  /** The quote in the CVM's certificate, if there is a readable certificate. */
  ghost predicate CarriesQuote(cvm: Cvm, w: World, quote: Bytes) {
    && cvm.appCertPem.Some? && w.certExtension(cvm.appCertPem.value).Ok?
    && IsEmbeddedQuote(w.certExtension(cvm.appCertPem.value).value, quote)
  }

  /** The quote in the CVM's own certificate passed Intel's chain, and `rep` is what dcap-qvl read
      out of that very quote with the collateral fetched for it. */
  ghost predicate Attested(cvm: Cvm, w: World, quote: Bytes, rep: VerifiedReport) {
    && CarriesQuote(cvm, w, quote)
    && w.pcsClient.Ok?
    && w.fetchCollateral(quote).Ok?
    && w.dcapVerify(quote, w.fetchCollateral(quote).value, w.verifyAt) == Ok(rep)
  }

  /** Each claimed register decodes, in either case, to the bytes of the verified register. */
  predicate RegistersAre(td: TdReport, claimed: Measurements) {
    && Decode(claimed.mrtd) == Some(td.mrTd)
    && Decode(claimed.rtmr0) == Some(td.rtMr0)
    && Decode(claimed.rtmr1) == Some(td.rtMr1)
    && Decode(claimed.rtmr2) == Some(td.rtMr2)
    && Decode(claimed.rtmr3) == Some(td.rtMr3)
  }

  /** Some approval contract covers the CVM: a worker or keystore on mainnet or testnet. */
  predicate IsGoverned(cvm: Cvm) {
    && (cvm.role == Worker || cvm.role == Keystore)
    && (cvm.network == Some("mainnet") || cvm.network == Some("testnet"))
  }

  /** Where approvals of such a CVM are kept: the RPC endpoint of its own network, and on it the
      register contract for a worker, the DAO for a keystore. */
  ghost predicate IsApprovalSite(cvm: Cvm, url: string, account: string) {
    || (cvm.network == Some("mainnet") && url == "https://rpc.mainnet.fastnear.com"
        && ((cvm.role == Worker && account == "worker.outlayer.near")
            || (cvm.role == Keystore && account == "dao.outlayer.near")))
    || (cvm.network == Some("testnet") && url == "https://rpc.testnet.fastnear.com"
        && ((cvm.role == Worker && account == "worker.outlayer.testnet")
            || (cvm.role == Keystore && account == "dao.outlayer.testnet")))
  }

  /** Asked there about the claimed measurements, the contract gives this answer. */
  ghost predicate ContractAnswers(cvm: Cvm, w: World, answer: Result<bool, string>) {
    && cvm.measurements.Some?
    && exists url, account ::
         IsApprovalSite(cvm, url, account) && w.isMeasurementsApproved(url, account, cvm.measurements.value) == answer
  }

  /** The contract that governs this CVM, if one does. */
  function GoverningContract(cvm: Cvm): Option<string> {
    if cvm.network.Some? then ApprovalContract(cvm.role, cvm.network.value) else None
  }

  /** Fetching and checking the quote, or the first reason why not. */
  function Authenticate(cvm: Cvm, w: World): Result<(Bytes, VerifiedReport), VerifyError> {
    if cvm.appCertPem.None? then Err(NoCert)
    else
      match ExtractFromCert(cvm.appCertPem.value, w)
      case Err(e) => Err(e)
      case Ok(quote) =>
        if w.pcsClient.Err? then Err(PcsClientBuild(w.pcsClient.error))
        else
          match w.fetchCollateral(quote)
          case Err(e) => Err(CollateralFetch(e))
          case Ok(collateral) =>
            match w.dcapVerify(quote, collateral, w.verifyAt)
            case Err(e) => Err(QuoteRejected(e))
            case Ok(rep) => Ok((quote, rep))
  }

  function MatchOf(cvm: Cvm, rep: VerifiedReport): Option<bool> {
    if cvm.measurements.None? then None
    else
      var td := rep.report.AsTd10();
      Some(td.Some? && RegistersAre(td.value, cvm.measurements.value))
  }

  /** The contract's answer on the claimed measurements; no question, no answer. */
  function ChainAnswer(cvm: Cvm, w: World): Option<Result<bool, string>> {
    if GoverningContract(cvm).None? || cvm.measurements.None? then None
    else Some(CheckOnChain(GoverningContract(cvm).value, cvm.network.value, cvm.measurements.value, w))
  }

  /** After the quote is authentic, a verdict carries an error exactly for these causes, the
      earlier one first. */
  function LateError(cvm: Cvm, w: World, rep: VerifiedReport): Option<VerifyError> {
    if cvm.measurements.Some? && rep.report.SgxEnclave? then Some(NotTdReport)
    else if GoverningContract(cvm).None? then None
    else if cvm.measurements.None? then Some(NoMeasurements)
    else
      match ChainAnswer(cvm, w).value
      case Ok(_) => None
      case Err(e) => Some(OnChainCheck(e))
  }

  /** The verdict of a CVM, field by field. */
  function VerdictOf(cvm: Cvm, w: World): CvmVerdict {
    match Authenticate(cvm, w)
    case Err(e) => NewVerdict(cvm.vmId, w.startedAt).(error := Some(e))
    case Ok((quote, rep)) =>
      CvmVerdict(
        cvm.vmId, true, Some(rep.status), rep.advisoryIds, FmspcText(quote, w),
        DecodeReport(rep, quote, FmspcText(quote, w)),
        MatchOf(cvm, rep),
        match ChainAnswer(cvm, w) case Some(Ok(approved)) => Some(approved) case _ => None,
        GoverningContract(cvm),
        LateError(cvm, w, rep),
        w.startedAt)
  }

  // ----- the pipeline -----

  method VerifyCvm(cvm: Cvm, w: World) returns (v: CvmVerdict)
    ensures v == VerdictOf(cvm, w)
  {
    v := NewVerdict(cvm.vmId, w.startedAt);

    // 1. The RA-TLS certificate.
    if cvm.appCertPem.None? {
      v := v.(error := Some(NoCert));
      return;
    }

    // 2. The raw quote from the leaf certificate.
    var extracted := ExtractFromCert(cvm.appCertPem.value, w);
    if extracted.Err? {
      v := v.(error := Some(extracted.error));
      return;
    }
    var quote := extracted.value;

    // 3. Collateral from Intel's PCS, then dcap-qvl.
    if w.pcsClient.Err? {
      v := v.(error := Some(PcsClientBuild(w.pcsClient.error)));
      return;
    }
    var fetched := w.fetchCollateral(quote);
    if fetched.Err? {
      v := v.(error := Some(CollateralFetch(fetched.error)));
      return;
    }
    var checked := w.dcapVerify(quote, fetched.value, w.verifyAt);
    if checked.Err? {
      v := v.(error := Some(QuoteRejected(checked.error)));
      return;
    }
    var verified := checked.value;
    v := v.(sigValid := true);
    v := v.(tcbStatus := Some(verified.status));
    v := v.(advisoryIds := verified.advisoryIds);
    var fmspc := FmspcText(quote, w);
    v := v.(fmspc := fmspc);
    v := v.(decoded := DecodeReport(verified, quote, fmspc));

    // 4. The verified registers against the claimed ones.
    if cvm.measurements.Some? {
      var fromQuote := QuoteMeasurements(verified);
      if fromQuote.Some? {
        v := v.(quoteMeasurementsMatch := Some(MeasurementsEq(fromQuote.value, cvm.measurements.value)));
        MatchIsRegisterBytes(verified, cvm.measurements.value);
      } else {
        v := v.(quoteMeasurementsMatch := Some(false));
        v := v.(error := OrElse(v.error, Some(NotTdReport)));
      }
    }

    // 5. The on-chain cross-check.
    if cvm.network.Some? {
      var contract := ApprovalContract(cvm.role, cvm.network.value);
      if contract.Some? {
        v := v.(onChainContract := contract);
        if cvm.measurements.Some? {
          var answer := CheckOnChain(contract.value, cvm.network.value, cvm.measurements.value, w);
          if answer.Ok? {
            v := v.(onChainApproved := Some(answer.value));
          } else {
            v := v.(error := OrElse(v.error, Some(OnChainCheck(answer.error))));
          }
        } else {
          v := v.(error := OrElse(v.error, Some(NoMeasurements)));
        }
      }
    }
  }

  /** The verdicts of a report, in the order of its CVMs; `env(i)` is the outside world while
      the i-th CVM is verified. */
  function VerdictsOf(report: NodeReport, env: nat -> World): (out: seq<CvmVerdict>)
    ensures |out| == |report.cvms|
    ensures forall i :: 0 <= i < |out| ==> out[i] == VerdictOf(report.cvms[i], env(i))
  {
    seq(|report.cvms|, i requires 0 <= i < |report.cvms| => VerdictOf(report.cvms[i], env(i)))
  }

  method VerifyReport(report: NodeReport, env: nat -> World) returns (out: seq<CvmVerdict>)
    ensures out == VerdictsOf(report, env)
  {
    out := [];
    for i := 0 to |report.cvms|
      invariant |out| == i
      invariant forall j :: 0 <= j < i ==> out[j] == VerdictOf(report.cvms[j], env(j))
    {
      var v := VerifyCvm(report.cvms[i], env(i));
      out := out + [v];
    }
  }

  // ----- register binding -----

  /** Comparing the quote's registers, as lower-case text, with the claimed strings is comparing
      the bytes: true exactly when each claim decodes, in either case, to its register. */
  lemma MatchIsRegisterBytes(rep: VerifiedReport, claimed: Measurements)
    requires rep.report.AsTd10().Some?
    ensures MeasurementsEq(QuoteMeasurements(rep).value, claimed)
            <==> RegistersAre(rep.report.AsTd10().value, claimed)
  {
    var td := rep.report.AsTd10().value;
    MatchesLowerTextIffDecodes(td.mrTd, claimed.mrtd);
    MatchesLowerTextIffDecodes(td.rtMr0, claimed.rtmr0);
    MatchesLowerTextIffDecodes(td.rtMr1, claimed.rtmr1);
    MatchesLowerTextIffDecodes(td.rtMr2, claimed.rtmr2);
    MatchesLowerTextIffDecodes(td.rtMr3, claimed.rtmr3);
  }

  lemma MeasurementsEqIsEquivalence(a: Measurements, b: Measurements, c: Measurements)
    ensures MeasurementsEq(a, a)
    ensures MeasurementsEq(a, b) == MeasurementsEq(b, a)
    ensures MeasurementsEq(a, b) && MeasurementsEq(b, c) ==> MeasurementsEq(a, c)
  {
  }

  /** What a verdict says of the verified report: its TCB status and advisories, whether the claimed
      registers are its own, and the FMSPC of the quote as upper-case text, if it could be read. */
  lemma VerdictRepeatsTheReport(cvm: Cvm, w: World, quote: Bytes, rep: VerifiedReport)
    requires Attested(cvm, w, quote, rep)
    ensures var v := VerdictOf(cvm, w);
            && v.tcbStatus == Some(rep.status) && v.advisoryIds == rep.advisoryIds && v.verifiedAt == w.startedAt
            && (forall b :: v.quoteMeasurementsMatch == Some(b) <==>
                              cvm.measurements.Some?
                              && b == (!rep.report.SgxEnclave?
                                       && RegistersAre(rep.report.AsTd10().value, cvm.measurements.value)))
            && (v.fmspc.Some? <==> w.quoteFmspc(quote).Some?)
            && (v.fmspc.Some? ==>
                  && Decode(v.fmspc.value) == w.quoteFmspc(quote)
                  && forall c <- v.fmspc.value :: c in "0123456789ABCDEF")
  {
    AttestedIffAuthenticated(cvm, w, quote, rep);
    if w.quoteFmspc(quote).Some? {
      UpperTextDecodes(w.quoteFmspc(quote).value);
      UpperTextIsUpper(w.quoteFmspc(quote).value);
    }
  }

  /** `text` is the lower-case hex text of `bytes`. */
  ghost predicate IsHexOf(text: string, bytes: Bytes) {
    Decode(text) == Some(bytes) && forall c <- text :: c in "0123456789abcdef"
  }

  /** Every field shown of the decoded report is the hex text of that field of the verified quote. */
  ghost predicate ShowsQuote(d: DecodedReport, td: TdReport, quote: Bytes) {
    && IsHexOf(d.mrtd, td.mrTd) && IsHexOf(d.rtmr0, td.rtMr0) && IsHexOf(d.rtmr1, td.rtMr1)
    && IsHexOf(d.rtmr2, td.rtMr2) && IsHexOf(d.rtmr3, td.rtMr3)
    && IsHexOf(d.reportData, td.reportData) && IsHexOf(d.mrSeam, td.mrSeam)
    && IsHexOf(d.mrSignerSeam, td.mrSignerSeam) && IsHexOf(d.teeTcbSvn, td.teeTcbSvn)
    && IsHexOf(d.tdAttributes, td.tdAttributes) && IsHexOf(d.xfam, td.xfam)
    && IsHexOf(d.quoteHex, quote)
  }

  lemma LowerTextIsHex(bytes: Bytes)
    ensures IsHexOf(LowerText(bytes), bytes)
  {
    LowerTextDecodes(bytes);
    LowerTextIsLower(bytes);
  }

  /** The registers shown on the page, decoded back, are the registers of the verified quote, and
      the shown quote is the verified quote. */
  lemma DecodedReportIsTheQuote(cvm: Cvm, w: World, quote: Bytes, rep: VerifiedReport)
    requires Attested(cvm, w, quote, rep)
    ensures VerdictOf(cvm, w).decoded.Some? <==> !rep.report.SgxEnclave?
    ensures VerdictOf(cvm, w).decoded.Some? ==>
              && ShowsQuote(VerdictOf(cvm, w).decoded.value, rep.report.AsTd10().value, quote)
              && VerdictOf(cvm, w).decoded.value.fmspc == VerdictOf(cvm, w).fmspc
  {
    AttestedIffAuthenticated(cvm, w, quote, rep);
    forall bytes
      ensures IsHexOf(LowerText(bytes), bytes)
    {
      LowerTextIsHex(bytes);
    }
  }

  // ----- fail closed -----

  lemma CarriesQuoteIs(cvm: Cvm, w: World, quote: Bytes)
    ensures CarriesQuote(cvm, w, quote) <==>
            cvm.appCertPem.Some? && ExtractFromCert(cvm.appCertPem.value, w) == Ok(quote)
  {
    if cvm.appCertPem.Some? && w.certExtension(cvm.appCertPem.value).Ok? {
      ExtractsLongestSuffix(w.certExtension(cvm.appCertPem.value).value, quote);
    }
  }

  lemma AttestedIffAuthenticated(cvm: Cvm, w: World, quote: Bytes, rep: VerifiedReport)
    ensures Attested(cvm, w, quote, rep) <==> Authenticate(cvm, w) == Ok((quote, rep))
  {
    CarriesQuoteIs(cvm, w, quote);
  }

  /** The verdict shapes no input and no outside world can get around. */
  lemma FailClosed(cvm: Cvm, w: World)
    ensures var v := VerdictOf(cvm, w);
            && v.vmId == cvm.vmId
            // A signature is reported valid exactly when the quote was attested.
            && (v.sigValid <==> exists quote, rep :: Attested(cvm, w, quote, rep))
            && (v.sigValid <==> v.tcbStatus.Some?)
            // No valid signature: an error, and nothing positive.
            && (!v.sigValid ==>
                  && v.error.Some? && v.tcbStatus.None? && v.advisoryIds == [] && v.fmspc.None? && v.decoded.None?
                  && v.quoteMeasurementsMatch.None? && v.onChainApproved.None? && v.onChainContract.None?)
            && v.verifiedAt == w.startedAt
            // A contract that was named but did not answer is an error.
            && (v.onChainContract.Some? && v.onChainApproved.None? ==> v.error.Some?)
            // An answer needs everything before it.
            && (v.onChainApproved.Some? ==>
                  v.sigValid && cvm.measurements.Some? && v.quoteMeasurementsMatch.Some? && v.onChainContract.Some?)
            && (v.quoteMeasurementsMatch.Some? <==> v.sigValid && cvm.measurements.Some?)
            && (v.quoteMeasurementsMatch == Some(true) ==> v.decoded.Some?)
            && (v.fmspc.Some? ==> v.sigValid)
  {
    var v := VerdictOf(cvm, w);
    if v.sigValid {
      var (quote, rep) := Authenticate(cvm, w).value;
      AttestedIffAuthenticated(cvm, w, quote, rep);
    } else {
      forall quote, rep
        ensures !Attested(cvm, w, quote, rep)
      {
        AttestedIffAuthenticated(cvm, w, quote, rep);
      }
    }
  }

  /** The URL lookup inside the on-chain check never fails: a contract is only derived for
      networks that have an RPC endpoint. */
  lemma GovernedNetworkHasRpc(cvm: Cvm)
    ensures GoverningContract(cvm).Some? <==>
            (cvm.role == Worker || cvm.role == Keystore)
            && (cvm.network == Some("mainnet") || cvm.network == Some("testnet"))
    ensures GoverningContract(cvm).Some? ==> RpcUrl(cvm.network.value).Some?
  {
  }

  /** A network without an RPC endpoint gives an error, never an approval; the others are asked at their own. */
  lemma UnknownNetworkIsNeverApproved(contract: string, network: string, m: Measurements, w: World)
    ensures var answer := CheckOnChain(contract, network, m, w);
            && (network == "mainnet" ==>
                  answer == w.isMeasurementsApproved("https://rpc.mainnet.fastnear.com", contract, m))
            && (network == "testnet" ==>
                  answer == w.isMeasurementsApproved("https://rpc.testnet.fastnear.com", contract, m))
            && (network != "mainnet" && network != "testnet" ==> answer.Err?)
  {
  }

  lemma ApprovalSiteIs(cvm: Cvm, url: string, account: string)
    ensures IsApprovalSite(cvm, url, account) <==>
            IsGoverned(cvm) && GoverningContract(cvm) == Some(account) && RpcUrl(cvm.network.value) == Some(url)
  {
    assert "worker.outlayer." + "near" == "worker.outlayer.near";
    assert "dao.outlayer." + "near" == "dao.outlayer.near";
    assert "worker.outlayer." + "testnet" == "worker.outlayer.testnet";
    assert "dao.outlayer." + "testnet" == "dao.outlayer.testnet";
  }

  lemma AnswersIs(cvm: Cvm, w: World, answer: Result<bool, string>)
    ensures ContractAnswers(cvm, w, answer) <==> ChainAnswer(cvm, w) == Some(answer)
  {
    GovernedNetworkHasRpc(cvm);
    if GoverningContract(cvm).Some? {
      ApprovalSiteIs(cvm, RpcUrl(cvm.network.value).value, GoverningContract(cvm).value);
    }
    forall url, account | IsApprovalSite(cvm, url, account)
      ensures GoverningContract(cvm) == Some(account) && RpcUrl(cvm.network.value) == Some(url)
    {
      ApprovalSiteIs(cvm, url, account);
    }
  }

  /** Which contract is asked, and where: once the signature is valid, the one at the CVM's own
      approval site, and the verdict repeats its answer. */
  lemma AsksItsOwnContract(cvm: Cvm, w: World)
    ensures var v := VerdictOf(cvm, w);
            && (v.onChainContract.Some? <==> v.sigValid && IsGoverned(cvm))
            && (v.onChainContract.Some? ==> exists url :: IsApprovalSite(cvm, url, v.onChainContract.value))
            && (forall b :: v.onChainApproved == Some(b) <==> v.sigValid && ContractAnswers(cvm, w, Ok(b)))
  {
    GovernedNetworkHasRpc(cvm);
    if GoverningContract(cvm).Some? {
      ApprovalSiteIs(cvm, RpcUrl(cvm.network.value).value, GoverningContract(cvm).value);
    }
    AnswersIs(cvm, w, Ok(true));
    AnswersIs(cvm, w, Ok(false));
  }

  // ----- which error is reported -----

  ghost predicate RejectedWith(w: World, quote: Bytes, e: string) {
    && w.fetchCollateral(quote).Ok?
    && w.dcapVerify(quote, w.fetchCollateral(quote).value, w.verifyAt) == Err(e)
  }

  /** Up to the signature check, the error names the first step that failed. */
  lemma EarlyErrorIsFirstFailure(cvm: Cvm, w: World)
    ensures var error := VerdictOf(cvm, w).error;
            && (error == Some(NoCert) <==> cvm.appCertPem.None?)
            && (forall e :: error == Some(CertUnreadable(e)) <==>
                              cvm.appCertPem.Some? && w.certExtension(cvm.appCertPem.value) == Err(e))
            && (error.Some? && error.value.QuoteExtraction? <==>
                  cvm.appCertPem.Some? && w.certExtension(cvm.appCertPem.value).Ok?
                  && forall quote :: !CarriesQuote(cvm, w, quote))
            && (forall e :: error == Some(PcsClientBuild(e)) <==>
                              w.pcsClient == Err(e) && exists quote :: CarriesQuote(cvm, w, quote))
            && (forall e :: error == Some(CollateralFetch(e)) <==>
                              w.pcsClient.Ok?
                              && exists quote :: CarriesQuote(cvm, w, quote) && w.fetchCollateral(quote) == Err(e))
            && (forall e :: error == Some(QuoteRejected(e)) <==>
                              w.pcsClient.Ok?
                              && exists quote :: CarriesQuote(cvm, w, quote) && RejectedWith(w, quote, e))
  {
    forall quote
      ensures CarriesQuote(cvm, w, quote) <==>
              cvm.appCertPem.Some? && ExtractFromCert(cvm.appCertPem.value, w) == Ok(quote)
    {
      CarriesQuoteIs(cvm, w, quote);
    }
  }

  /** After it, the error is the first of: not a TDX report to compare with, nothing to ask the
      contract about, no answer from the contract; and there is none exactly if none of these holds. */
  lemma LateErrorIsFirstFailure(cvm: Cvm, w: World, quote: Bytes, rep: VerifiedReport)
    requires Attested(cvm, w, quote, rep)
    ensures var error := VerdictOf(cvm, w).error;
            var comparable := cvm.measurements.Some? ==> !rep.report.SgxEnclave?;
            && (error == Some(NotTdReport) <==> !comparable)
            && (error == Some(NoMeasurements) <==> IsGoverned(cvm) && cvm.measurements.None?)
            && (forall e :: error == Some(OnChainCheck(e)) <==> comparable && ContractAnswers(cvm, w, Err(e)))
            && (error.None? <==> comparable && (IsGoverned(cvm) ==> exists b :: ContractAnswers(cvm, w, Ok(b))))
  {
    AttestedIffAuthenticated(cvm, w, quote, rep);
    GovernedNetworkHasRpc(cvm);
    forall answer
      ensures ContractAnswers(cvm, w, answer) <==> ChainAnswer(cvm, w) == Some(answer)
    {
      AnswersIs(cvm, w, answer);
    }
  }

  /** Different governed (role, network) pairs never share a contract. */
  lemma ContractsAreDistinct(r1: Role, n1: string, r2: Role, n2: string)
    requires ApprovalContract(r1, n1).Some? && ApprovalContract(r1, n1) == ApprovalContract(r2, n2)
    ensures r1 == r2 && n1 == n2
  {
    var c1, c2 := ApprovalContract(r1, n1).value, ApprovalContract(r2, n2).value;
    assert c1[0] == c2[0];
    assert c1[|c1| - 1] == c2[|c2| - 1];
  }
}
