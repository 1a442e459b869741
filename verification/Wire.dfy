/** The wire types an agent pushes (shared/src/lib.rs), with the fields the server's logic reads. */
module Wire {
  import opened Prelude

  datatype Role = Kms | Gateway | Keystore | Worker | Unknown

  datatype Measurements = Measurements(
    mrtd: string, rtmr0: string, rtmr1: string, rtmr2: string, rtmr3: string)

  /** One CVM of a node report. */
  datatype Cvm = Cvm(
    vmId: string,
    name: string,
    role: Role,
    network: Option<string>,
    status: string,
    appId: string,
    measurements: Option<Measurements>,
    appCompose: Option<string>,
    appCertPem: Option<string>)

  datatype NodeReport = NodeReport(nodeId: string, collectedAt: nat, cvms: seq<Cvm>)

  /** No two CVMs of one report carry the same vmm uuid. */
  ghost predicate DistinctVmIds(report: NodeReport) {
    forall i, j :: 0 <= i < j < |report.cvms| ==> report.cvms[i].vmId != report.cvms[j].vmId
  }
}
