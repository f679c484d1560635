/** Peer discovery: resolving the swarm's task name to addresses and
    dropping the node's own address. The name service is an input: the
    addresses it answers with, or the resolution error
    (`socket.gaierror`). */
module Discovery {
  import opened Ordering

  /** What `getaddrinfo("tasks.<service>", 8080, AF_INET)` gave back: the
      address of every record, in answer order, or a resolution error. */
  datatype Resolution = Resolved(addresses: seq<string>) | Unresolvable

  /** The addresses a resolution names; none when it failed. */
  function Answered(r: Resolution): seq<string> {
    if r.Resolved? then r.addresses else []
  }

  /** `list(set(items))`: each item once, in an order Python leaves
      unspecified (here: whichever element the loop picks first). */
  method ListOfSet(items: set<string>) returns (l: seq<string>)
    ensures Distinct(l)
    ensures forall a :: a in l <==> a in items
    ensures |l| == |items|
  {
    l := [];
    var rest := items;
    while rest != {}
      invariant Distinct(l)
      invariant forall a :: a in l <==> a in items && a !in rest
      invariant rest <= items
      invariant |l| + |rest| == |items|
      decreases rest
    {
      var a :| a in rest;
      l := l + [a];
      rest := rest - {a};
    }
  }

  /** `discover_peers`: collects the answered addresses and removes
      duplicates; a resolution error yields the empty list. */
  method DiscoverPeers(r: Resolution) returns (peers: seq<string>)
    ensures Distinct(peers)
    ensures forall a :: a in peers <==> a in Answered(r)
    ensures r.Unresolvable? ==> peers == []
  {
    var collected: seq<string> := [];
    match r {
      case Unresolvable =>
      case Resolved(infos) =>
        var i := 0;
        while i < |infos|
          invariant 0 <= i <= |infos|
          invariant collected == infos[..i]
        {
          collected := collected + [infos[i]];
          i := i + 1;
        }
    }
    peers := ListOfSet(set a | a in collected);
  }

  /** The comprehension `[ip for ip in peers if ip != me]`. */
  function OtherPeers(peers: seq<string>, me: string): (others: seq<string>)
    ensures forall a :: a in others <==> a in peers && a != me
    ensures Distinct(peers) ==> Distinct(others)
    ensures me !in peers ==> others == peers
    ensures Distinct(peers) && me in peers ==> |others| == |peers| - 1
  {
    if |peers| == 0 then []
    else
      var rest := OtherPeers(peers[1..], me);
      assert forall a :: a in peers <==> a == peers[0] || a in peers[1..];
      assert Distinct(peers) ==> peers[0] !in peers[1..];
      if peers[0] != me then [peers[0]] + rest else rest
  }

  /** `discover_other_peers`: the discovered peers without this node's own
      address, so the node never counts itself among its peers. */
  method DiscoverOtherPeers(r: Resolution, me: string) returns (others: seq<string>)
    ensures Distinct(others)
    ensures me !in others
    ensures forall a :: a in others <==> a in Answered(r) && a != me
  {
    var peers := DiscoverPeers(r);
    others := OtherPeers(peers, me);
  }
}
