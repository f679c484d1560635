/** The node agent: the in-memory state of one replica (its poll interval
    and the last probe record it wrote), the two records on the shared
    volume, one tick of the checker loop, and the HTTP handlers that read
    or change that state. File I/O is modelled by a cell per file and by
    the outcome of each write, which the caller chooses. */
module NodeAgent {
  import opened Wrappers
  import opened Ordering
  import opened Discovery
  import opened Election
  import opened PyJson

  /** `CHECK_INTERVAL` when the environment does not set it. */
  const DefaultCheckInterval: int := 30

  /** The one key of the config record and of the config request body. */
  const IntervalKey: string := "check_interval"

  /** A file on the shared volume as a reader finds it: absent, present
      but not loadable (half-written, not JSON, not the expected shape, or
      unreadable), or holding a decoded record. */
  datatype FileCell<T> = Missing | Garbled | Stored(content: T)

  /** The decoded config record; `checkInterval` is None when the JSON
      object lacks the key. */
  datatype ConfigDoc = ConfigDoc(checkInterval: Option<int>)

  /** The probe record; `writtenAt` stands for the clock reading that
      gives both `written_at` and `timestamp`. */
  datatype ProbeRecord = ProbeRecord(writtenBy: string, writtenAt: int, sequence: int)

  /** How an `open(path, "w")` + `json.dump` attempt ends: written, `open`
      failed (file untouched), or the dump failed after `open` had
      truncated the file. */
  datatype WriteOutcome = Persisted | OpenFailed | DumpFailed

  /** What `write_test_file` returns: the record, or `{"error": ...}`. */
  datatype ProbeWrite = Probe(record: ProbeRecord) | ProbeError

  /** The JSON of `/api/node_info`. */
  datatype NodeSnapshot = NodeSnapshot(
    hostname: string, ip: string, testFile: Option<ProbeRecord>, isWriter: bool, checkInterval: int)

  /** The reply of `POST /api/config`: 200 with the interval, 400
      "Invalid interval", or a 500 from a TypeError raised outside the
      handler's `try`. */
  datatype ConfigReply = Accepted(interval: int) | Rejected | InternalError

  /** The file after one write attempt of `content`. */
  function AfterWrite<T>(cell: FileCell<T>, content: T, outcome: WriteOutcome): FileCell<T> {
    match outcome
    case Persisted => Stored(content)
    case OpenFailed => cell
    case DumpFailed => Garbled
  }

  /** The interval `read_config` leaves in memory: the stored value when
      the file loads and has the key, otherwise the current one. */
  function IntervalFrom(cell: FileCell<ConfigDoc>, current: int): int {
    if cell.Stored? && cell.content.checkInterval.Some? then cell.content.checkInterval.value
    else current
  }

  /** What `read_test_file` returns: the record, or None when the file is
      missing or cannot be loaded. */
  function LoadProbe(cell: FileCell<ProbeRecord>): Option<ProbeRecord> {
    if cell.Stored? then Some(cell.content) else None
  }

  /** `test_file_info.get("sequence", 0) + 1`. */
  function NextSequence(info: Option<ProbeRecord>): int {
    (if info.Some? then info.value.sequence else 0) + 1
  }

  /** A persisted config write is what the next `read_config` of any
      node sharing the volume adopts. */
  lemma ConfigRoundTrip(cell: FileCell<ConfigDoc>, v: int, current: int)
    ensures IntervalFrom(AfterWrite(cell, ConfigDoc(Some(v)), Persisted), current) == v
  {
  }

  /** A failed config write never leaves a record that changes a reader's
      interval other than an older stored one: after a truncating failure
      every reader keeps its own value. */
  lemma FailedConfigWriteIsInvisible(cell: FileCell<ConfigDoc>, v: int, current: int)
    ensures IntervalFrom(AfterWrite(cell, ConfigDoc(Some(v)), DumpFailed), current) == current
    ensures IntervalFrom(AfterWrite(cell, ConfigDoc(Some(v)), OpenFailed), current) == IntervalFrom(cell, current)
  {
  }

  /** The validation of `api_set_config`: `request.get_json() or {}`
      (None stands for a body `get_json` gives no value for), then the key
      test, `int()` and the `>= 1` check. */
  function ConfigReplyFor(body: Option<Json>): (reply: ConfigReply)
    ensures reply.Accepted? <==>
      && body.Some? && body.value.JObject? && IntervalKey in body.value.members
      && PyInt(body.value.members[IntervalKey]).Some?
      && PyInt(body.value.members[IntervalKey]).value >= 1
    ensures reply.Accepted? ==>
      reply.interval >= 1 && Some(reply.interval) == PyInt(body.value.members[IntervalKey])
    ensures reply.InternalError? <==>
      body.Some? && Truthy(body.value) && (body.value.JBool? || body.value.JInt? || body.value.JFloat?)
  {
    var data := if body.Some? && Truthy(body.value) then body.value else JObject(map[]);
    match data
    case JObject(m) =>
      if IntervalKey in m then
        var converted := PyInt(m[IntervalKey]);
        if converted.Some? && converted.value >= 1 then Accepted(converted.value) else Rejected
      else Rejected
    case JArray(_) => Rejected   // `in` tests membership; the subscript then raises inside the `try`
    case JString(_) => Rejected  // likewise, a substring test then a failing subscript
    case _ => InternalError      // `in` on a number or a bool raises before the `try`
  }

  /** `{"check_interval": 0}` and a missing body are refused with 400,
      `{"check_interval": true}` is taken as 1, and a bare number as the
      body is a 500. */
  lemma ConfigReplyExamples()
    ensures ConfigReplyFor(Some(JObject(map[IntervalKey := JInt(0)]))) == Rejected
    ensures ConfigReplyFor(Some(JObject(map[IntervalKey := JBool(true)]))) == Accepted(1)
    ensures ConfigReplyFor(None) == Rejected
    ensures ConfigReplyFor(Some(JInt(7))) == InternalError
  {
  }

  /** A positive interval sent as text is converted: `{"check_interval":
      str(v)}` is accepted as `v`. */
  lemma ConfigReplyFromText(v: int)
    requires v >= 1
    ensures ConfigReplyFor(Some(JObject(map[IntervalKey := JString(PyStr(v))]))) == Accepted(v)
  {
    IntOfStr(v);
  }

  /** An interval text led by an ASCII separator (U+001C) is refused
      with 400: `int()` does not strip it. */
  lemma SeparatorLedIntervalRejected()
    ensures ConfigReplyFor(Some(JObject(map[IntervalKey := JString([0x1C as char, '5'])]))) == Rejected
  {
    var text := [0x1C as char, '5'];
    SeparatorIsNotStripped(text);
    assert PyInt(JString(text)) == None;
    var body := JObject(map[IntervalKey := JString(text)]);
    assert IntervalKey in body.members && body.members[IntervalKey] == JString(text);
    assert Truthy(body);
  }

  /** The shared volume: the config record and the probe record. */
  class SharedVolume {
    var configFile: FileCell<ConfigDoc>
    var testFile: FileCell<ProbeRecord>

    constructor (configFile: FileCell<ConfigDoc>, testFile: FileCell<ProbeRecord>)
      ensures this.configFile == configFile && this.testFile == testFile
    {
      this.configFile := configFile;
      this.testFile := testFile;
    }
  }

  /** One replica: its identity, role flag and volume, fixed at start-up,
      and the globals `check_interval` and `test_file_info`. */
  class Node {
    const hostname: string
    const myIp: string
    const dashboardMode: bool
    const volume: SharedVolume
    var checkInterval: int
    var testFileInfo: Option<ProbeRecord>

    /** Start-up: `test_file_info = {}` and the interval `int()` reads
        from `CHECK_INTERVAL`, 30 when it is unset. A value `int()`
        refuses stops the process at import, so it is excluded. */
    constructor (hostname: string, myIp: string, dashboardMode: bool, volume: SharedVolume, checkIntervalEnv: Option<string>)
      requires checkIntervalEnv.Some? ==> ParseIntText(checkIntervalEnv.value).Some?
      ensures this.hostname == hostname && this.myIp == myIp
      ensures this.dashboardMode == dashboardMode && this.volume == volume
      ensures checkIntervalEnv.None? ==> checkInterval == DefaultCheckInterval
      ensures checkIntervalEnv.Some? ==> Some(checkInterval) == ParseIntText(checkIntervalEnv.value)
      ensures testFileInfo == None
    {
      this.hostname := hostname;
      this.myIp := myIp;
      this.dashboardMode := dashboardMode;
      this.volume := volume;
      checkInterval := if checkIntervalEnv.Some? then ParseIntText(checkIntervalEnv.value).value else DefaultCheckInterval;
      testFileInfo := None;
    }

    /** `read_config`: adopts the stored interval, keeps the current one
        on any failure or a missing key, and returns the result. */
    method ReadConfig() returns (interval: int)
      modifies this`checkInterval
      ensures checkInterval == IntervalFrom(volume.configFile, old(checkInterval))
      ensures interval == checkInterval
    {
      match volume.configFile {
        case Stored(ConfigDoc(Some(v))) => checkInterval := v;
        case _ =>
      }
      interval := checkInterval;
    }

    /** `write_config`: updates memory first, then tries to persist; a
        failed write is swallowed and the new value stays in memory. */
    method WriteConfig(cfg: Option<int>, outcome: WriteOutcome)
      modifies this`checkInterval, volume`configFile
      ensures checkInterval == if cfg.Some? then cfg.value else old(checkInterval)
      ensures volume.configFile == AfterWrite(old(volume.configFile), ConfigDoc(Some(checkInterval)), outcome)
    {
      if cfg.Some? {
        checkInterval := cfg.value;
      }
      match outcome {
        case Persisted => volume.configFile := Stored(ConfigDoc(Some(checkInterval)));
        case OpenFailed =>
        case DumpFailed => volume.configFile := Garbled;
      }
    }

    /** `write_test_file`: numbers the record from the in-memory last
        record (not from the file), and remembers it only once it is
        written; on failure memory is unchanged and an error is returned. */
    method WriteTestFile(now: int, outcome: WriteOutcome) returns (result: ProbeWrite)
      modifies this`testFileInfo, volume`testFile
      ensures var data := ProbeRecord(hostname, now, NextSequence(old(testFileInfo)));
        && volume.testFile == AfterWrite(old(volume.testFile), data, outcome)
        && (outcome.Persisted? ==> testFileInfo == Some(data) && result == Probe(data))
        && (!outcome.Persisted? ==> testFileInfo == old(testFileInfo) && result == ProbeError)
    {
      var previous := if testFileInfo.Some? then testFileInfo.value.sequence else 0;
      var data := ProbeRecord(hostname, now, previous + 1);
      match outcome {
        case Persisted =>
          volume.testFile := Stored(data);
          testFileInfo := Some(data);
          result := Probe(data);
        case OpenFailed =>
          result := ProbeError;
        case DumpFailed =>
          volume.testFile := Garbled;
          result := ProbeError;
      }
    }

    /** `read_test_file`: the stored record, or None when the file is
        missing or unreadable; a volume never written gives None. */
    method ReadTestFile() returns (r: Option<ProbeRecord>)
      ensures r == LoadProbe(volume.testFile)
      ensures volume.testFile.Missing? ==> r.None?
      ensures r.Some? <==> volume.testFile.Stored?
    {
      match volume.testFile {
        case Stored(record) => r := Some(record);
        case _ => r := None;
      }
    }

    /** One pass of `check_loop`: refresh the interval, discover the other
        peers, elect, write a probe when elected, and sleep for the
        refreshed interval (returned). */
    method CheckTick(r: Resolution, now: int, outcome: WriteOutcome) returns (isWriter: bool, sleepFor: int)
      modifies this, volume
      ensures checkInterval == IntervalFrom(old(volume.configFile), old(checkInterval))
      ensures sleepFor == checkInterval
      ensures isWriter <==> forall a :: a in Answered(r) && a != myIp ==> AtMost(myIp, a)
      ensures Answered(r) == [] ==> isWriter
      ensures volume.configFile == old(volume.configFile)
      ensures isWriter ==>
        var data := ProbeRecord(hostname, now, NextSequence(old(testFileInfo)));
        && volume.testFile == AfterWrite(old(volume.testFile), data, outcome)
        && testFileInfo == (if outcome.Persisted? then Some(data) else old(testFileInfo))
      ensures !isWriter ==> volume.testFile == old(volume.testFile) && testFileInfo == old(testFileInfo)
    {
      var _ := ReadConfig();
      var peers := DiscoverOtherPeers(r, myIp);
      isWriter := TickIsWriter(myIp, peers);
      if isWriter {
        var _ := WriteTestFile(now, outcome);
      }
      sleepFor := checkInterval;
    }

    /** `/api/node_info`: a fresh election (never the writer in dashboard
        mode), the probe file as this node reads it, and the interval in
        memory. */
    method ApiNodeInfo(r: Resolution) returns (snap: NodeSnapshot)
      ensures snap.hostname == hostname && snap.ip == myIp && snap.checkInterval == checkInterval
      ensures snap.testFile == LoadProbe(volume.testFile)
      ensures snap.isWriter <==> !dashboardMode && forall a :: a in Answered(r) && a != myIp ==> AtMost(myIp, a)
      ensures dashboardMode ==> !snap.isWriter
    {
      var peers := DiscoverOtherPeers(r, myIp);
      var isWriter := SnapshotIsWriter(myIp, peers, dashboardMode);
      var testFile := ReadTestFile();
      snap := NodeSnapshot(hostname, myIp, testFile, isWriter, checkInterval);
    }

    /** `GET /api/config`: answers `read_config()`, which also refreshes
        the interval in memory. */
    method ApiGetConfig() returns (interval: int)
      modifies this`checkInterval
      ensures checkInterval == IntervalFrom(volume.configFile, old(checkInterval))
      ensures interval == checkInterval
    {
      interval := ReadConfig();
    }

    /** `POST /api/config`: writes exactly the converted interval when the
        body passes validation; otherwise nothing changes. */
    method ApiSetConfig(body: Option<Json>, outcome: WriteOutcome) returns (reply: ConfigReply)
      modifies this`checkInterval, volume`configFile
      ensures reply == ConfigReplyFor(body)
      ensures reply.Accepted? ==>
        && checkInterval == reply.interval
        && volume.configFile == AfterWrite(old(volume.configFile), ConfigDoc(Some(reply.interval)), outcome)
      ensures !reply.Accepted? ==>
        checkInterval == old(checkInterval) && volume.configFile == old(volume.configFile)
    {
      reply := ConfigReplyFor(body);
      if reply.Accepted? {
        WriteConfig(Some(reply.interval), outcome);
      }
    }
  }

  /** `n` successful probe writes by a node that has not written before
      carry the sequence numbers 1, 2, ..., n. */
  method ConsecutiveProbes(node: Node, clock: seq<int>) returns (sequences: seq<int>)
    requires node.testFileInfo == None
    modifies node, node.volume
    ensures |sequences| == |clock|
    ensures forall i :: 0 <= i < |clock| ==> sequences[i] == i + 1
    ensures |clock| > 0 ==>
      node.volume.testFile == Stored(ProbeRecord(node.hostname, clock[|clock| - 1], |clock|))
  {
    sequences := [];
    var i := 0;
    while i < |clock|
      invariant 0 <= i <= |clock|
      invariant |sequences| == i
      invariant forall k :: 0 <= k < i ==> sequences[k] == k + 1
      invariant i == 0 ==> node.testFileInfo == None
      invariant i > 0 ==>
        && node.testFileInfo == Some(ProbeRecord(node.hostname, clock[i - 1], i))
        && node.volume.testFile == Stored(ProbeRecord(node.hostname, clock[i - 1], i))
    {
      var written := node.WriteTestFile(clock[i], Persisted);
      sequences := sequences + [written.record.sequence];
      i := i + 1;
    }
  }

  /** The counter lives in each writer's memory, not on the volume: when
      a node that never wrote takes over, the shared record restarts at 1,
      and the former writer later resumes from its own count. */
  method WriterHandoff(a: Node, b: Node, t1: int, t2: int, t3: int)
    returns (first: int, second: int, third: int)
    requires a != b && a.volume == b.volume
    requires b.testFileInfo == None
    modifies a, b, a.volume
    ensures first == NextSequence(old(a.testFileInfo))
    ensures second == 1
    ensures third == first + 1
    ensures a.volume.testFile == Stored(ProbeRecord(a.hostname, t3, third))
  {
    var w1 := a.WriteTestFile(t1, Persisted);
    first := w1.record.sequence;
    var w2 := b.WriteTestFile(t2, Persisted);
    second := w2.record.sequence;
    var w3 := a.WriteTestFile(t3, Persisted);
    third := w3.record.sequence;
  }

  /** An accepted interval set on one node reaches every node sharing the
      volume at its next `read_config`. */
  method ConfigPropagates(admin: Node, other: Node, v: int, outcome: WriteOutcome) returns (seen: int)
    requires admin != other && admin.volume == other.volume
    requires v >= 1
    modifies admin, other, admin.volume
    ensures admin.checkInterval == v
    ensures outcome.Persisted? ==> seen == v
    ensures outcome.DumpFailed? ==> seen == old(other.checkInterval)
  {
    var reply := admin.ApiSetConfig(Some(JObject(map[IntervalKey := JInt(v)])), outcome);
    assert reply == Accepted(v);
    seen := other.ReadConfig();
  }
}
