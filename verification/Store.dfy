/** The report store (server/src/main.rs): the in-memory map, the state file behind it, and the two
    critical sections that change the map. */
module Store {
  import opened Prelude
  import opened Hex
  import opened Wire
  import opened Verify
  import opened Fleet
  import opened Auth

  type Reports = map<string, StoredReport>

  /** A push replaces its node's entry, with no verdicts yet. */
  function Ingested(m: Reports, report: NodeReport, now: nat): Reports {
    m[report.nodeId := StoredReport(now, report, [])]
  }

  /** Verdicts are written back only onto an entry that still carries the stamp they were
      computed for; otherwise they are dropped. */
  function Merged(m: Reports, nodeId: string, receivedAt: nat, verdicts: seq<CvmVerdict>): Option<Reports> {
    if nodeId in m && m[nodeId].receivedAt == receivedAt
    then Some(m[nodeId := m[nodeId].(verdicts := verdicts)])
    else None
  }

  // ----- the file system as the store uses it -----

  /** A file's bytes, as far as loading them can tell. `Writing(saver)` is a file that `saver` has
      truncated and not yet filled; `Torn` is any other content that is not one complete map. */
  datatype Content = Writing(saver: nat) | Torn | Holds(reports: Reports)

  /** The two paths the store touches, each naming an inode; renaming moves an inode to the state path. */
  datatype Disk = Disk(inodes: seq<Content>, tmp: Option<nat>, state: Option<nat>) {
    predicate Valid() {
      && (tmp.Some? ==> tmp.value < |inodes|)
      && (state.Some? ==> state.value < |inodes|)
      && (tmp.Some? && state.Some? ==> tmp.value != state.value)
    }

    /** Opening the tmp path for writing truncates its inode, or creates one. */
    function OpenTmp(saver: nat): Disk
      requires Valid()
    {
      match tmp
      case Some(i) => this.(inodes := inodes[i := Writing(saver)])
      case None => this.(inodes := inodes + [Writing(saver)], tmp := Some(|inodes|))
    }

    function TmpAfterOpen(): nat {
      match tmp
      case Some(i) => i
      case None => |inodes|
    }

    function Write(inode: nat, content: Content): Disk
      requires inode < |inodes|
    {
      this.(inodes := inodes[inode := content])
    }

    /** Renaming a missing tmp path fails and changes nothing. */
    function Rename(): Disk {
      if tmp.Some? then this.(state := tmp, tmp := None) else this
    }

    function StateContent(): Option<Content> {
      if state.Some? && state.value < |inodes| then Some(inodes[state.value]) else None
    }

    /** A missing or unreadable state file loads as the empty map. */
    function Load(): Reports {
      match StateContent()
      case Some(Holds(m)) => m
      case _ => map[]
    }
  }

  datatype Status = Ok200 | BadRequest400 | Unauthorized401 | Unavailable503

  /** How the three file operations of one save turn out. */
  datatype Io = Io(openOk: bool, writeOk: bool, renameOk: bool)

  /** The disk after a save that nothing interrupts. */
  function SavedTo(disk: Disk, snapshot: Reports, io: Io): Disk
    requires disk.Valid()
  {
    var inode := disk.TmpAfterOpen();
    var truncated := disk.OpenTmp(0);
    if !io.openOk then disk
    else if !io.writeOk then truncated.Write(inode, Torn)
    else if !io.renameOk then truncated.Write(inode, Holds(snapshot))
    else truncated.Write(inode, Holds(snapshot)).Rename()
  }

  /** The server process with its disk, one request or task at a time; the interleavings are in
      module Protocol. */
  class Server {
    const ingestToken: Option<Bytes>
    const persist: bool
    var reports: Reports
    var disk: Disk

    /** Start-up; an unset or empty token disables ingest. */
    constructor (tokenSetting: Option<Bytes>, persist: bool, disk: Disk)
      requires disk.Valid()
      ensures this.ingestToken.None? <==> tokenSetting.None? || tokenSetting == Some([])
      ensures this.ingestToken.Some? ==> this.ingestToken == tokenSetting
      ensures this.persist == persist && this.disk == disk
      ensures reports == if persist then disk.Load() else map[]
    {
      this.ingestToken := if tokenSetting == Some([]) then None else tokenSetting;
      this.persist, this.disk := persist, disk;
      this.reports := if persist then disk.Load() else map[];
    }

    /** A save that nothing interrupts is all or nothing. */
    method SaveState(snapshot: Reports, io: Io)
      requires disk.Valid()
      modifies this`disk
      ensures disk.Valid() && disk == SavedTo(old(disk), snapshot, io)
      ensures disk.Load() == if io == Io(true, true, true) then snapshot else old(disk.Load())
      ensures io == Io(true, true, true) ==> disk.StateContent() == Some(Holds(snapshot)) && disk.tmp.None?
      ensures io != Io(true, true, true) ==> disk.StateContent() == old(disk.StateContent())
    {
      if !io.openOk {
        return;
      }
      var inode := disk.TmpAfterOpen();
      disk := disk.OpenTmp(0);
      if !io.writeOk {
        disk := disk.Write(inode, Torn);
        return;
      }
      disk := disk.Write(inode, Holds(snapshot));
      if io.renameOk {
        disk := disk.Rename();
      }
    }

    /** An agent's push. `body` is the parsed report, if it parses. The map changes only for an
        authorized push that parses, and then only at the pushed node, which starts unverified. */
    method Ingest(header: Option<Bytes>, body: Option<NodeReport>, now: nat, io: Io)
      returns (status: Status, spawn: Option<(NodeReport, nat)>)
      requires disk.Valid()
      modifies this
      ensures disk.Valid()
      ensures status == Unavailable503 <==> ingestToken.None?
      ensures status == Unauthorized401 <==> ingestToken.Some? && !Authorizes(header, ingestToken.value)
      ensures status == Ok200 <==>
              ingestToken.Some? && Authorizes(header, ingestToken.value) && body.Some?
      ensures status != Ok200 ==> reports == old(reports) && disk == old(disk) && spawn.None?
      ensures status == Ok200 ==>
                && reports == Ingested(old(reports), body.value, now)
                && spawn == Some((body.value, now))
                && disk == (if persist then SavedTo(old(disk), reports, io) else old(disk))
                && disk.Load() == if persist && io == Io(true, true, true) then reports else old(disk.Load())
    {
      if ingestToken.None? {
        return Unavailable503, None;
      }
      var ok := BearerOk(header, ingestToken.value);
      if !ok {
        return Unauthorized401, None;
      }
      if body.None? {
        return BadRequest400, None;
      }
      reports := Ingested(reports, body.value, now);
      if persist {
        SaveState(reports, io);
      }
      return Ok200, Some((body.value, now));
    }

    /** The background task of one push. */
    method VerifyInBackground(report: NodeReport, receivedAt: nat, env: nat -> World, io: Io)
      requires disk.Valid()
      modifies this
      ensures disk.Valid()
      ensures var merged := Merged(old(reports), report.nodeId, receivedAt, VerdictsOf(report, env));
              && reports == (if merged.Some? then merged.value else old(reports))
              && disk == (if merged.Some? && persist then SavedTo(old(disk), reports, io) else old(disk))
              && disk.Load() == if merged.Some? && persist && io == Io(true, true, true)
                                then reports else old(disk.Load())
    {
      var verdicts := VerifyReport(report, env);
      var merged := Merged(reports, report.nodeId, receivedAt, verdicts);
      if merged.Some? {
        reports := merged.value;
        if persist {
          SaveState(reports, io);
        }
      }
    }
  }
}
