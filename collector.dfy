/** The dashboard's collector: one pass of `dashboard_loop` fetches the
    snapshot of every discovered node and publishes the merged list, and
    `/api/status` serves the last published list. Each fetch is an input:
    the snapshot the node answered, or a failure (timeout, refused
    connection, a body that is not JSON). */
module Collector {
  import opened Wrappers
  import opened Ordering
  import opened Discovery
  import opened NodeAgent

  /** One element of `all_nodes`: a node's snapshot, or
      `{"ip": ip, "error": "unreachable"}`. */
  datatype Entry = Reported(snapshot: NodeSnapshot) | Unreachable(ip: string)

  /** The outcome of `requests.get(".../api/node_info").json()`. */
  datatype Fetch = Fetched(snapshot: NodeSnapshot) | FetchFailed

  /** The entry recorded for the node at `ip`. */
  function EntryFor(ip: string, f: Fetch): Entry {
    match f
    case Fetched(snapshot) => Reported(snapshot)
    case FetchFailed => Unreachable(ip)
  }

  /** The `for` loop of `dashboard_loop`: one entry per address, in
      address order, an error entry exactly where the fetch failed. */
  method CollectNodes(ips: seq<string>, fetch: string -> Fetch) returns (nodes: seq<Entry>)
    ensures |nodes| == |ips|
    ensures forall i :: 0 <= i < |ips| ==> nodes[i] == EntryFor(ips[i], fetch(ips[i]))
    ensures forall i :: 0 <= i < |ips| ==> (nodes[i].Unreachable? <==> fetch(ips[i]).FetchFailed?)
  {
    nodes := [];
    for i := 0 to |ips|
      invariant |nodes| == i
      invariant forall k :: 0 <= k < i ==> nodes[k] == EntryFor(ips[k], fetch(ips[k]))
    {
      var f := fetch(ips[i]);
      match f {
        case Fetched(snapshot) => nodes := nodes + [Reported(snapshot)];
        case FetchFailed => nodes := nodes + [Unreachable(ips[i])];
      }
    }
  }

  /** The dashboard process's `last_check` global. */
  class Dashboard {
    var lastCheck: Option<seq<Entry>>

    /** `last_check = None` until the first pass completes. */
    constructor ()
      ensures lastCheck == None
    {
      lastCheck := None;
    }

    /** One pass of `dashboard_loop`: discover every node (this one
        included), collect their entries into a fresh list, and only then
        replace `last_check` with it, so readers never see a partial list. */
    method DashboardRound(r: Resolution, fetch: string -> Fetch) returns (discovered: seq<string>)
      modifies this
      ensures Distinct(discovered)
      ensures forall a :: a in discovered <==> a in Answered(r)
      ensures lastCheck.Some? && |lastCheck.value| == |discovered|
      ensures forall i :: 0 <= i < |discovered| ==> lastCheck.value[i] == EntryFor(discovered[i], fetch(discovered[i]))
    {
      discovered := DiscoverPeers(r);
      var nodes := CollectNodes(discovered, fetch);
      lastCheck := Some(nodes);
    }

    /** `/api/status`: the last published list, or the empty list before
        the first pass. */
    method ApiStatus() returns (allNodes: seq<Entry>)
      ensures lastCheck.None? ==> allNodes == []
      ensures lastCheck.Some? ==> allNodes == lastCheck.value
    {
      allNodes := if lastCheck.Some? then lastCheck.value else [];
    }
  }
}
