/** The dashboard page's script state and its two periodic callbacks:
    `fetchData` (every 500 ms: take the collector's list, sorted by node
    key) and `render` (every 50 ms: classify every node and keep its
    out-of-sync timer). The production page keeps only the latest list
    and the timers; the development page also keeps the delay history. */
module Page {
  import opened Wrappers
  import opened Ordering
  import opened Collector
  import opened SyncView
  import opened ChartHistory

  class DashboardPage {
    var latestNodes: Option<seq<Entry>>
    var unsyncStart: map<string, Millis>
    var knownSequences: seq<int>
    var syncDelayHistory: map<string, map<int, int>>
    var lastRecordedSeq: map<string, int>

    /** The history globals as one value. */
    function History(): Chart
      reads this
    {
      Chart(knownSequences, syncDelayHistory, lastRecordedSeq)
    }

    ghost predicate Valid()
      reads this
    {
      ChartValid(History())
    }

    /** Page load: `latestNodes = null` and every map and list empty. */
    constructor ()
      ensures Valid()
      ensures latestNodes == None && unsyncStart == map[]
      ensures History() == Chart([], map[], map[])
    {
      latestNodes := None;
      unsyncStart := map[];
      knownSequences := [];
      syncDelayHistory := map[];
      lastRecordedSeq := map[];
    }

    /** `render`: nothing but "Waiting for nodes..." without a list; else
        one card per node, in list order, each after its timer update. */
    method Render(now: Millis) returns (views: Option<seq<NodeView>>)
      modifies this`unsyncStart
      ensures latestNodes.None? || |latestNodes.value| == 0 ==>
        views.None? && unsyncStart == old(unsyncStart)
      ensures latestNodes.Some? && |latestNodes.value| > 0 ==>
        var nodes := latestNodes.value;
        var w := WriterSequence(nodes);
        && unsyncStart == TimersAfter(old(unsyncStart), nodes, w, now)
        && views.Some? && |views.value| == |nodes|
        && forall i :: 0 <= i < |nodes| ==>
             views.value[i] == ViewOf(nodes[i], w, TimersAfter(old(unsyncStart), nodes[..i + 1], w, now), now)
    {
      if latestNodes.None? || |latestNodes.value| == 0 {
        return None;
      }
      var nodes := latestNodes.value;
      var writerSeq := WriterSequence(nodes);
      var cards: seq<NodeView> := [];
      for i := 0 to |nodes|
        invariant unsyncStart == TimersAfter(old(unsyncStart), nodes[..i], writerSeq, now)
        invariant |cards| == i
        invariant forall j :: 0 <= j < i ==>
          cards[j] == ViewOf(nodes[j], writerSeq, TimersAfter(old(unsyncStart), nodes[..j + 1], writerSeq, now), now)
      {
        assert nodes[..i + 1][..i] == nodes[..i];
        var card := RenderNode(nodes[i], writerSeq, now);
        cards := cards + [card];
      }
      assert nodes[..|nodes|] == nodes;
      views := Some(cards);
    }

    /** The `forEach` body of `render` for node `n`: the timer update,
        then the card built from the updated timer. */
    method RenderNode(n: Entry, writerSeq: Option<int>, now: Millis) returns (card: NodeView)
      modifies this`unsyncStart
      ensures unsyncStart == StepTimer(old(unsyncStart), n, writerSeq, now)
      ensures card == ViewOf(n, writerSeq, unsyncStart, now)
    {
      var key := Key(n);
      var synced := writerSeq.Some? && SequenceOf(n) == writerSeq;
      if synced || ReportsWriter(n) {
        unsyncStart := unsyncStart - {key};
      } else if key !in unsyncStart {
        unsyncStart := unsyncStart[key := now];
      }
      var elapsedMs := if key in unsyncStart then now - unsyncStart[key] else 0;
      var badge := if ReportsWriter(n) then WriterBadge else if synced then SyncedBadge else LagBadge(elapsedMs);
      card := NodeView(key, IsError(n), badge);
    }

    /** `fetchData` of the production page: a failed request changes
        nothing, an empty list clears `latestNodes`, any other list is
        stored sorted by node key. */
    method FetchData(status: Option<seq<Entry>>)
      modifies this`latestNodes
      ensures status.None? ==> latestNodes == old(latestNodes)
      ensures status == Some([]) ==> latestNodes == None
      ensures status.Some? && |status.value| > 0 ==> latestNodes == Some(SortBy(status.value, Key))
    {
      match status {
        case None =>
        case Some(allNodes) =>
          if |allNodes| == 0 {
            latestNodes := None;
          } else {
            latestNodes := Some(SortBy(allNodes, Key));
          }
      }
    }

    /** The `for ... in syncDelayHistory` loop: deletes sequence
        `removed` from every node's delays. It is the eviction step of
        `AdmitSequence`, run right after the shift, while `Valid()` is
        momentarily broken. */
    method ForgetSequence(removed: int)
      modifies this`syncDelayHistory
      ensures syncDelayHistory == Evict(old(syncDelayHistory), removed)
    {
      var pending := syncDelayHistory.Keys;
      while pending != {}
        invariant pending <= syncDelayHistory.Keys
        invariant syncDelayHistory.Keys == old(syncDelayHistory).Keys
        invariant forall k :: k in syncDelayHistory ==>
          syncDelayHistory[k] == if k in pending then old(syncDelayHistory)[k] else old(syncDelayHistory)[k] - {removed}
        decreases pending
      {
        var k :| k in pending;
        syncDelayHistory := syncDelayHistory[k := syncDelayHistory[k] - {removed}];
        pending := pending - {k};
      }
    }

    /** Adds writer sequence `w` to `knownSequences` when new, shifting
        out and forgetting the oldest one past `MAX_SEQUENCES`. */
    method AdmitSequence(w: int)
      requires Valid()
      modifies this`knownSequences, this`syncDelayHistory
      ensures History() == Admit(old(History()), w)
      ensures Valid() && w in knownSequences
    {
      AdmitKeepsValid(History(), w);
      if w !in knownSequences {
        knownSequences := knownSequences + [w];
        if |knownSequences| > MaxSequences {
          var removed := knownSequences[0];
          knownSequences := knownSequences[1..];
          ForgetSequence(removed);
        }
      }
    }

    /** The `forEach` body of `fetchData` for node `n` and writer
        sequence `w`: one step of `RecordDelays`, whose contract states
        that the history stays well formed. */
    method RecordDelay(n: Entry, w: int, now: Millis)
      modifies this`syncDelayHistory, this`lastRecordedSeq
      ensures History() == RecordNode(old(History()), n, w, unsyncStart, now)
    {
      if ReportsWriter(n) || IsError(n) {
        return;
      }
      var key := Key(n);
      if key !in syncDelayHistory {
        syncDelayHistory := syncDelayHistory[key := map[]];
      }
      if SequenceOf(n) == Some(w) && !(key in lastRecordedSeq && lastRecordedSeq[key] == w) {
        var delay := if key in unsyncStart then now - unsyncStart[key] else 0;
        syncDelayHistory := syncDelayHistory[key := syncDelayHistory[key][w := delay]];
        lastRecordedSeq := lastRecordedSeq[key := w];
      }
    }

    /** The `forEach` of `fetchData` over the sorted `nodes`. */
    method RecordDelays(nodes: seq<Entry>, w: int, now: Millis)
      requires Valid() && w in knownSequences
      modifies this`syncDelayHistory, this`lastRecordedSeq
      ensures History() == RecordAll(old(History()), nodes, w, unsyncStart, now)
      ensures Valid()
    {
      RecordAllKeepsValid(History(), nodes, w, unsyncStart, now);
      for i := 0 to |nodes|
        invariant History() == RecordAll(old(History()), nodes[..i], w, unsyncStart, now)
      {
        assert nodes[..i + 1][..i] == nodes[..i];
        RecordDelay(nodes[i], w, now);
      }
      assert nodes[..|nodes|] == nodes;
    }

    /** `fetchData` of the development page: as `FetchData`, and when the
        sorted list has a writer sequence, admit it to `knownSequences`
        and record the delays of the nodes that reached it. The history
        stays well formed. */
    method FetchDataWithHistory(status: Option<seq<Entry>>, now: Millis)
      requires Valid()
      modifies this`latestNodes, this`knownSequences, this`syncDelayHistory, this`lastRecordedSeq
      ensures Valid()
      ensures status.None? ==> latestNodes == old(latestNodes) && History() == old(History())
      ensures status == Some([]) ==> latestNodes == None && History() == old(History())
      ensures status.Some? && |status.value| > 0 ==>
        && latestNodes == Some(SortBy(status.value, Key))
        && History() == AfterFetch(old(History()), SortBy(status.value, Key), unsyncStart, now)
    {
      if status.None? {
        return;
      }
      if |status.value| == 0 {
        latestNodes := None;
        return;
      }
      var nodes := SortBy(status.value, Key);
      var writerSeq := WriterSequence(nodes);
      if writerSeq.Some? {
        AdmitSequence(writerSeq.value);
        RecordDelays(nodes, writerSeq.value, now);
      }
      AfterFetchKeepsValid(old(History()), nodes, unsyncStart, now);
      latestNodes := Some(nodes);
    }
  }
}
