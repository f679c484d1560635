/** The sync classification of the dashboard page (`render`): which node
    is the writer, which nodes are synced, and the per-node timer that
    measures how long a node has been out of sync. The page's clock
    (`Date.now()`) is an input. */
module SyncView {
  import opened Wrappers
  import opened NodeAgent
  import opened Collector

  /** A `Date.now()` reading: milliseconds since 1970, so never 0 and a
      stored start time is always truthy in JavaScript. */
  type Millis = t: int | t > 0 witness 1

  /** `n.hostname || n.ip`: an empty hostname falls back to the address. */
  function Key(e: Entry): string {
    match e
    case Reported(s) => if s.hostname != "" then s.hostname else s.ip
    case Unreachable(ip) => ip
  }

  /** `n.is_writer` (absent, so false, on an error entry). */
  predicate ReportsWriter(e: Entry) {
    e.Reported? && e.snapshot.isWriter
  }

  /** `!!n.error`. */
  predicate IsError(e: Entry) {
    e.Unreachable?
  }

  /** `n.test_file ? n.test_file.sequence : null`. */
  function SequenceOf(e: Entry): Option<int> {
    if e.Reported? && e.snapshot.testFile.Some? then Some(e.snapshot.testFile.value.sequence) else None
  }

  /** The index `nodes.find(n => n.is_writer)` stops at. */
  function FirstWriter(nodes: seq<Entry>): (k: Option<nat>)
    ensures k.Some? ==> k.value < |nodes| && ReportsWriter(nodes[k.value])
    ensures k.Some? ==> forall j :: 0 <= j < k.value ==> !ReportsWriter(nodes[j])
    ensures k.None? <==> forall j :: 0 <= j < |nodes| ==> !ReportsWriter(nodes[j])
  {
    if |nodes| == 0 then None
    else if ReportsWriter(nodes[0]) then Some(0)
    else
      match FirstWriter(nodes[1..])
      case None => None
      case Some(k) => Some(k + 1)
  }

  /** `writerSeq`: the sequence of the first node that reports itself the
      writer, or null when there is none or it has no probe record. */
  function WriterSequence(nodes: seq<Entry>): (w: Option<int>)
    ensures w.Some? ==> exists k :: 0 <= k < |nodes| && ReportsWriter(nodes[k]) && SequenceOf(nodes[k]) == w
    ensures (forall j :: 0 <= j < |nodes| ==> !ReportsWriter(nodes[j])) ==> w.None?
    ensures forall k :: (0 <= k < |nodes| && ReportsWriter(nodes[k]) && (forall j :: 0 <= j < k ==> !ReportsWriter(nodes[j])))
                        ==> w == SequenceOf(nodes[k])
  {
    match FirstWriter(nodes)
    case None => None
    case Some(k) => SequenceOf(nodes[k])
  }

  /** `writerSeq !== null && nodeSeq === writerSeq`. */
  predicate Synced(writerSeq: Option<int>, nodeSeq: Option<int>) {
    writerSeq.Some? && nodeSeq == writerSeq
  }

  /** A node's timer is dropped when it is synced or is the writer. */
  predicate ClearsTimer(e: Entry, w: Option<int>) {
    Synced(w, SequenceOf(e)) || ReportsWriter(e)
  }

  /** The `unsyncStart` update for one node: delete the key when the node
      clears its timer, otherwise set it to `now` unless already set. */
  function StepTimer(timers: map<string, Millis>, e: Entry, w: Option<int>, now: Millis): map<string, Millis> {
    var k := Key(e);
    if ClearsTimer(e, w) then timers - {k}
    else if k in timers then timers
    else timers[k := now]
  }

  /** `unsyncStart` after the `forEach` of one `render` over `nodes`. */
  function TimersAfter(timers: map<string, Millis>, nodes: seq<Entry>, w: Option<int>, now: Millis): map<string, Millis>
    decreases |nodes|
  {
    if |nodes| == 0 then timers
    else StepTimer(TimersAfter(timers, nodes[..|nodes| - 1], w, now), nodes[|nodes| - 1], w, now)
  }

  /** `unsyncStart[key] ? (now - unsyncStart[key]) : 0`. */
  function Elapsed(timers: map<string, Millis>, key: string, now: Millis): int {
    if key in timers then now - timers[key] else 0
  }

  /** The badge of a node's card. */
  datatype Badge = WriterBadge | SyncedBadge | LagBadge(ms: int)

  /** What `render` shows for one node: its key, whether it is drawn as
      unreachable, and its badge. */
  datatype NodeView = NodeView(key: string, unreachable: bool, badge: Badge)

  /** The card of node `e`, given the timers right after its own update. */
  function ViewOf(e: Entry, w: Option<int>, timers: map<string, Millis>, now: Millis): NodeView {
    var badge :=
      if ReportsWriter(e) then WriterBadge
      else if Synced(w, SequenceOf(e)) then SyncedBadge
      else LagBadge(Elapsed(timers, Key(e), now));
    NodeView(Key(e), IsError(e), badge)
  }

  /** No start time lies after `now`. */
  ghost predicate NotAfter(timers: map<string, Millis>, now: Millis) {
    forall k :: k in timers ==> timers[k] <= now
  }

  /** A node whose sequence equals the writer's is synced; one behind is
      not; with no writer sequence nothing is synced. */
  lemma SyncedExamples()
    ensures Synced(Some(5), Some(5))
    ensures !Synced(Some(5), Some(4))
    ensures forall s :: !Synced(None, s)
  {
  }

  /** Keys no node of the render carries keep their timers. */
  lemma {:induction false} TimerUntouched(timers: map<string, Millis>, nodes: seq<Entry>, w: Option<int>, now: Millis, k: string)
    requires forall i :: 0 <= i < |nodes| ==> Key(nodes[i]) != k
    ensures var r := TimersAfter(timers, nodes, w, now);
      (k in r <==> k in timers) && (k in timers ==> r[k] == timers[k])
  {
    if |nodes| > 0 {
      TimerUntouched(timers, nodes[..|nodes| - 1], w, now, k);
    }
  }

  /** While every node with key `k` stays unsynced and is not the writer,
      its start time does not move. */
  lemma {:induction false} StartNeverMoves(timers: map<string, Millis>, nodes: seq<Entry>, w: Option<int>, now: Millis, k: string)
    requires k in timers
    requires forall i :: 0 <= i < |nodes| && Key(nodes[i]) == k ==> !ClearsTimer(nodes[i], w)
    ensures var r := TimersAfter(timers, nodes, w, now);
      k in r && r[k] == timers[k]
  {
    if |nodes| > 0 {
      StartNeverMoves(timers, nodes[..|nodes| - 1], w, now, k);
    }
  }

  /** A node seen unsynced with no timer gets one started at `now`. */
  lemma {:induction false} TimerStartsNow(timers: map<string, Millis>, nodes: seq<Entry>, w: Option<int>, now: Millis, k: string)
    requires k !in timers
    requires exists i :: 0 <= i < |nodes| && Key(nodes[i]) == k
    requires forall i :: 0 <= i < |nodes| && Key(nodes[i]) == k ==> !ClearsTimer(nodes[i], w)
    ensures var r := TimersAfter(timers, nodes, w, now);
      k in r && r[k] == now
  {
    var last := |nodes| - 1;
    var front := nodes[..last];
    if Key(nodes[last]) != k {
      TimerStartsNow(timers, front, w, now, k);
    } else if exists i :: 0 <= i < |front| && Key(front[i]) == k {
      TimerStartsNow(timers, front, w, now, k);
    } else {
      TimerUntouched(timers, front, w, now, k);
    }
  }

  /** A node that is synced or the writer ends the render without a
      timer, wherever its card is, unless a later entry carries the same
      key. */
  lemma {:induction false} ClearedWhenSyncedOrWriter(
    timers: map<string, Millis>, nodes: seq<Entry>, w: Option<int>, now: Millis, k: string, i: nat)
    requires i < |nodes| && Key(nodes[i]) == k && ClearsTimer(nodes[i], w)
    requires forall j :: i < j < |nodes| ==> Key(nodes[j]) != k
    ensures k !in TimersAfter(timers, nodes, w, now)
    decreases |nodes|
  {
    var last := |nodes| - 1;
    if i < last {
      ClearedWhenSyncedOrWriter(timers, nodes[..last], w, now, k, i);
    }
  }

  /** A render keeps every start time at or before the clock. */
  lemma {:induction false} TimersNotAfter(timers: map<string, Millis>, nodes: seq<Entry>, w: Option<int>, now: Millis)
    requires NotAfter(timers, now)
    ensures NotAfter(TimersAfter(timers, nodes, w, now), now)
  {
    if |nodes| > 0 {
      TimersNotAfter(timers, nodes[..|nodes| - 1], w, now);
    }
  }

  /** An unreachable entry is never synced nor the writer, so it is given
      a lag timer like any unsynced node. */
  lemma UnreachableIsTimed(timers: map<string, Millis>, nodes: seq<Entry>, w: Option<int>, now: Millis, i: nat)
    requires i < |nodes| && nodes[i].Unreachable?
    requires forall j :: 0 <= j < |nodes| && Key(nodes[j]) == Key(nodes[i]) ==> j == i
    ensures Key(nodes[i]) in TimersAfter(timers, nodes, w, now)
    ensures ViewOf(nodes[i], w, TimersAfter(timers, nodes, w, now), now).badge.LagBadge?
  {
    var k := Key(nodes[i]);
    if k in timers {
      StartNeverMoves(timers, nodes, w, now, k);
    } else {
      TimerStartsNow(timers, nodes, w, now, k);
    }
  }

  /** Across two renders with a clock that does not go back, a node that
      stays unsynced shows a lag that is never negative and never
      shrinks. */
  lemma LagGrows(
    timers: map<string, Millis>, first: seq<Entry>, w1: Option<int>, now1: Millis,
    second: seq<Entry>, w2: Option<int>, now2: Millis, k: string)
    requires NotAfter(timers, now1) && now1 <= now2
    requires exists i :: 0 <= i < |first| && Key(first[i]) == k
    requires forall i :: 0 <= i < |first| && Key(first[i]) == k ==> !ClearsTimer(first[i], w1)
    requires forall i :: 0 <= i < |second| && Key(second[i]) == k ==> !ClearsTimer(second[i], w2)
    ensures var r1 := TimersAfter(timers, first, w1, now1);
      var r2 := TimersAfter(r1, second, w2, now2);
      0 <= Elapsed(r1, k, now1) <= Elapsed(r2, k, now2)
  {
    var r1 := TimersAfter(timers, first, w1, now1);
    if k in timers {
      StartNeverMoves(timers, first, w1, now1, k);
    } else {
      TimerStartsNow(timers, first, w1, now1, k);
    }
    TimersNotAfter(timers, first, w1, now1);
    StartNeverMoves(r1, second, w2, now2, k);
  }
}
