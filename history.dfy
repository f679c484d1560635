/** The sync-delay history of the development dashboard page
    (`fetchData`): the writer sequences seen so far, at most
    `MaxSequences` of them, and for each node the delay after which it
    caught up with each of those sequences. */
module ChartHistory {
  import opened Wrappers
  import opened Ordering
  import opened NodeAgent
  import opened Collector
  import opened SyncView

  /** `MAX_SEQUENCES`. */
  const MaxSequences: nat := 30

  /** The page globals `knownSequences`, `syncDelayHistory` and
      `lastRecordedSeq`, as one value. */
  datatype Chart = Chart(known: seq<int>, delays: map<string, map<int, int>>, lastRecorded: map<string, int>)

  /** The history is well formed: each sequence once, at most
      `MaxSequences` of them, and delays only for known sequences. */
  ghost predicate ChartValid(c: Chart) {
    && Distinct(c.known)
    && |c.known| <= MaxSequences
    && forall k, s :: k in c.delays && s in c.delays[k] ==> s in c.known
  }

  /** The delay recorded for node `k` at sequence `s`, if any. */
  function DelayAt(c: Chart, k: string, s: int): Option<int> {
    if k in c.delays && s in c.delays[k] then Some(c.delays[k][s]) else None
  }

  /** `delete syncDelayHistory[nodeName][removed]` for every node. */
  function Evict(delays: map<string, map<int, int>>, removed: int): map<string, map<int, int>> {
    map k | k in delays :: delays[k] - {removed}
  }

  /** Registers writer sequence `w`: appended when new, and when the list
      then exceeds `MaxSequences` its oldest sequence is shifted out and
      deleted from every node's delays. */
  function Admit(c: Chart, w: int): Chart {
    if w in c.known then c
    else
      var pushed := c.known + [w];
      if |pushed| > MaxSequences then Chart(pushed[1..], Evict(c.delays, pushed[0]), c.lastRecorded)
      else c.(known := pushed)
  }

  /** The `forEach` body for one node: writer and error entries are
      skipped; other nodes get a (possibly empty) delay map, and a delay
      is recorded when the node has reached `w` and none was recorded
      for `w` last time. */
  function RecordNode(c: Chart, e: Entry, w: int, unsync: map<string, Millis>, now: Millis): Chart {
    if ReportsWriter(e) || IsError(e) then c
    else
      var k := Key(e);
      var d := if k in c.delays then c.delays else c.delays[k := map[]];
      if SequenceOf(e) == Some(w) && !(k in c.lastRecorded && c.lastRecorded[k] == w) then
        Chart(c.known, d[k := d[k][w := Elapsed(unsync, k, now)]], c.lastRecorded[k := w])
      else Chart(c.known, d, c.lastRecorded)
  }

  /** The `forEach` over all nodes. */
  function RecordAll(c: Chart, nodes: seq<Entry>, w: int, unsync: map<string, Millis>, now: Millis): Chart
    decreases |nodes|
  {
    if |nodes| == 0 then c
    else RecordNode(RecordAll(c, nodes[..|nodes| - 1], w, unsync, now), nodes[|nodes| - 1], w, unsync, now)
  }

  /** The history after one `fetchData` over the sorted `nodes`: nothing
      happens without a writer sequence. */
  function AfterFetch(c: Chart, nodes: seq<Entry>, unsync: map<string, Millis>, now: Millis): Chart {
    match WriterSequence(nodes)
    case None => c
    case Some(w) => RecordAll(Admit(c, w), nodes, w, unsync, now)
  }

  /** Admitting keeps the history well formed and makes `w` known. */
  lemma AdmitKeepsValid(c: Chart, w: int)
    requires ChartValid(c)
    ensures ChartValid(Admit(c, w))
    ensures w in Admit(c, w).known
    ensures Admit(c, w).lastRecorded == c.lastRecorded
  {
    if w !in c.known {
      var pushed := c.known + [w];
      if |pushed| > MaxSequences {
        var a := Admit(c, w);
        assert pushed[1..][|pushed| - 2] == w;
        forall k, s | k in a.delays && s in a.delays[k] ensures s in a.known {
          assert s in c.delays[k] && s != pushed[0];
          assert s in pushed;
        }
      }
    }
  }

  /** When `w` is new and the list is full, the oldest sequence is gone
      from the list and from every node's delays, and nothing else is
      lost. */
  lemma EvictionForgetsOldest(c: Chart, w: int, k: string)
    requires ChartValid(c) && w !in c.known && |c.known| == MaxSequences
    ensures Admit(c, w).known == c.known[1..] + [w]
    ensures c.known[0] !in Admit(c, w).known
    ensures k in Admit(c, w).delays <==> k in c.delays
    ensures k in c.delays ==> Admit(c, w).delays[k] == c.delays[k] - {c.known[0]}
  {
    assert (c.known + [w])[1..] == c.known[1..] + [w];
    assert c.known[0] !in c.known[1..];
  }

  /** Recording keeps the history well formed once `w` is known, and the
      list of known sequences is not touched. */
  lemma {:induction false} RecordAllKeepsValid(c: Chart, nodes: seq<Entry>, w: int, unsync: map<string, Millis>, now: Millis)
    requires ChartValid(c) && w in c.known
    ensures ChartValid(RecordAll(c, nodes, w, unsync, now))
    ensures RecordAll(c, nodes, w, unsync, now).known == c.known
  {
    if |nodes| > 0 {
      RecordAllKeepsValid(c, nodes[..|nodes| - 1], w, unsync, now);
    }
  }

  /** Every `fetchData` keeps `knownSequences` duplicate-free and at most
      `MAX_SEQUENCES` long, and keeps delays only for known sequences. */
  lemma AfterFetchKeepsValid(c: Chart, nodes: seq<Entry>, unsync: map<string, Millis>, now: Millis)
    requires ChartValid(c)
    ensures ChartValid(AfterFetch(c, nodes, unsync, now))
  {
    var ws := WriterSequence(nodes);
    if ws.Some? {
      AdmitKeepsValid(c, ws.value);
      RecordAllKeepsValid(Admit(c, ws.value), nodes, ws.value, unsync, now);
    }
  }

  /** Nodes that appear only as the writer or as unreachable get no delay
      and no record-once mark. */
  lemma {:induction false} SkipsWriterAndErrors(c: Chart, nodes: seq<Entry>, w: int, unsync: map<string, Millis>, now: Millis, k: string)
    requires forall i :: 0 <= i < |nodes| && Key(nodes[i]) == k ==> ReportsWriter(nodes[i]) || IsError(nodes[i])
    ensures var r := RecordAll(c, nodes, w, unsync, now);
      && (k in r.delays <==> k in c.delays) && (k in c.delays ==> r.delays[k] == c.delays[k])
      && (k in r.lastRecorded <==> k in c.lastRecorded) && (k in c.lastRecorded ==> r.lastRecorded[k] == c.lastRecorded[k])
  {
    if |nodes| > 0 {
      SkipsWriterAndErrors(c, nodes[..|nodes| - 1], w, unsync, now, k);
    }
  }

  /** Once a delay for `k` at `w` was recorded (`lastRecordedSeq[k] ==
      w`), further nodes and fetches with writer sequence `w` leave it as
      it is: a delay is recorded at most once per run of a sequence. */
  lemma {:induction false} RecordedOnce(c: Chart, nodes: seq<Entry>, w: int, unsync: map<string, Millis>, now: Millis, k: string)
    requires k in c.lastRecorded && c.lastRecorded[k] == w
    ensures var r := RecordAll(c, nodes, w, unsync, now);
      DelayAt(r, k, w) == DelayAt(c, k, w) && k in r.lastRecorded && r.lastRecorded[k] == w
  {
    if |nodes| > 0 {
      RecordedOnce(c, nodes[..|nodes| - 1], w, unsync, now, k);
    }
  }

  /** A node that has reached the writer sequence `w`, is its key's only
      entry and has no mark for `w` gets the delay its timer shows. */
  lemma RecordsOnSync(c: Chart, nodes: seq<Entry>, w: int, unsync: map<string, Millis>, now: Millis, i: nat)
    requires i < |nodes| && !ReportsWriter(nodes[i]) && !IsError(nodes[i]) && SequenceOf(nodes[i]) == Some(w)
    requires forall j :: 0 <= j < |nodes| && Key(nodes[j]) == Key(nodes[i]) ==> j == i
    requires !(Key(nodes[i]) in c.lastRecorded && c.lastRecorded[Key(nodes[i])] == w)
    ensures var r := RecordAll(c, nodes, w, unsync, now);
      && DelayAt(r, Key(nodes[i]), w) == Some(Elapsed(unsync, Key(nodes[i]), now))
      && Key(nodes[i]) in r.lastRecorded && r.lastRecorded[Key(nodes[i])] == w
  {
    var k := Key(nodes[i]);
    RecordsOnSyncInduct(c, nodes, w, unsync, now, i, k);
  }

  lemma {:induction false} RecordsOnSyncInduct(c: Chart, nodes: seq<Entry>, w: int, unsync: map<string, Millis>, now: Millis, i: nat, k: string)
    requires i < |nodes| && Key(nodes[i]) == k
    requires !ReportsWriter(nodes[i]) && !IsError(nodes[i]) && SequenceOf(nodes[i]) == Some(w)
    requires forall j :: 0 <= j < |nodes| && Key(nodes[j]) == k ==> j == i
    requires !(k in c.lastRecorded && c.lastRecorded[k] == w)
    ensures var r := RecordAll(c, nodes, w, unsync, now);
      DelayAt(r, k, w) == Some(Elapsed(unsync, k, now)) && k in r.lastRecorded && r.lastRecorded[k] == w
  {
    var front := nodes[..|nodes| - 1];
    if i == |nodes| - 1 {
      SkipsWriterAndErrors(c, front, w, unsync, now, k);
    } else {
      RecordsOnSyncInduct(c, front, w, unsync, now, i, k);
    }
  }

  /** One `fetchData`: the sorted list it received, the timers and the
      clock at that moment. */
  datatype Round = Round(nodes: seq<Entry>, unsync: map<string, Millis>, now: Millis)

  /** The history after the fetches `rounds`, in order. */
  function AfterFetches(c: Chart, rounds: seq<Round>): Chart
    decreases |rounds|
  {
    if |rounds| == 0 then c
    else
      var last := rounds[|rounds| - 1];
      AfterFetch(AfterFetches(c, rounds[..|rounds| - 1]), last.nodes, last.unsync, last.now)
  }

  /** Admitting the current writer sequence again touches neither the
      marks nor the delays recorded for it. */
  lemma AdmitKeepsDelayAt(c: Chart, w: int, k: string)
    ensures DelayAt(Admit(c, w), k, w) == DelayAt(c, k, w)
    ensures Admit(c, w).lastRecorded == c.lastRecorded
  {
    if w !in c.known && |c.known + [w]| > MaxSequences {
      assert (c.known + [w])[0] == c.known[0] && c.known[0] != w;
    }
  }

  /** While the writer sequence stays `w`, a delay recorded for node `k`
      at `w` is left as it is by every further fetch. */
  lemma {:induction false} RecordedOnceAcrossFetches(c: Chart, rounds: seq<Round>, w: int, k: string)
    requires k in c.lastRecorded && c.lastRecorded[k] == w
    requires forall i :: 0 <= i < |rounds| ==> WriterSequence(rounds[i].nodes) == Some(w)
    ensures var r := AfterFetches(c, rounds);
      DelayAt(r, k, w) == DelayAt(c, k, w) && k in r.lastRecorded && r.lastRecorded[k] == w
    decreases |rounds|
  {
    if |rounds| > 0 {
      var front := rounds[..|rounds| - 1];
      var last := rounds[|rounds| - 1];
      RecordedOnceAcrossFetches(c, front, w, k);
      var before := AfterFetches(c, front);
      AdmitKeepsDelayAt(before, w, k);
      RecordedOnce(Admit(before, w), last.nodes, w, last.unsync, last.now, k);
    }
  }

  /** The record-once guard remembers only the last sequence recorded
      for a node: when a writer sequence comes back (after a hand-over
      restarts the counter), a node reaching it has its delay for that
      sequence recorded again, whatever was recorded before. */
  lemma RecurringSequenceRecordedAgain(c: Chart, nodes: seq<Entry>, unsync: map<string, Millis>, now: Millis, i: nat)
    requires WriterSequence(nodes).Some?
    requires i < |nodes| && !ReportsWriter(nodes[i]) && !IsError(nodes[i]) && SequenceOf(nodes[i]) == WriterSequence(nodes)
    requires forall j :: 0 <= j < |nodes| && Key(nodes[j]) == Key(nodes[i]) ==> j == i
    requires Key(nodes[i]) in c.lastRecorded && Some(c.lastRecorded[Key(nodes[i])]) != WriterSequence(nodes)
    ensures DelayAt(AfterFetch(c, nodes, unsync, now), Key(nodes[i]), WriterSequence(nodes).value)
      == Some(Elapsed(unsync, Key(nodes[i]), now))
  {
    var w := WriterSequence(nodes).value;
    AdmitKeepsDelayAt(c, w, Key(nodes[i]));
    RecordsOnSync(Admit(c, w), nodes, w, unsync, now, i);
  }

  /** Node "b" recorded 50 ms for sequence 1, then followed sequence 2.
      When sequence 1 comes back and "b" reaches it 400 ms after its
      timer started, the delay for sequence 1 becomes 400. */
  lemma RecurringSequenceExample()
    ensures var c := Chart([1, 2], map["b" := map[1 := 50]], map["b" := 2]);
      var a := Reported(NodeSnapshot("a", "10.0.0.1", Some(ProbeRecord("a", 0, 1)), true, 30));
      var b := Reported(NodeSnapshot("b", "10.0.0.2", Some(ProbeRecord("a", 0, 1)), false, 30));
      && DelayAt(c, "b", 1) == Some(50)
      && DelayAt(AfterFetch(c, [a, b], map["b" := 600], 1000), "b", 1) == Some(400)
  {
    var c := Chart([1, 2], map["b" := map[1 := 50]], map["b" := 2]);
    var a := Reported(NodeSnapshot("a", "10.0.0.1", Some(ProbeRecord("a", 0, 1)), true, 30));
    var b := Reported(NodeSnapshot("b", "10.0.0.2", Some(ProbeRecord("a", 0, 1)), false, 30));
    var nodes := [a, b];
    assert FirstWriter(nodes) == Some(0);
    assert WriterSequence(nodes) == Some(1);
    assert Key(a) == "a" && Key(b) == "b";
    RecurringSequenceRecordedAgain(c, nodes, map["b" := 600], 1000, 1);
  }
}
