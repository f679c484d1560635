/** Leaderless writer election: every node sorts its own address together
    with the peers it sees and is the writer when it comes first. */
module Election {
  import opened Ordering
  import opened Discovery

  /** Addresses are sorted by their own text. */
  function AddressKey(a: string): string { a }

  /** `sorted([MY_IP] + peers)` starts with `MY_IP` exactly when `MY_IP`
      is at most every peer in Python's string order. */
  lemma HeadIsMeIffLeast(me: string, peers: seq<string>)
    ensures |SortBy([me] + peers, AddressKey)| > 0
    ensures SortBy([me] + peers, AddressKey)[0] == me <==> forall p :: p in peers ==> AtMost(me, p)
  {
    var all := SortBy([me] + peers, AddressKey);
    assert me in multiset([me] + peers);
    assert me in all;
    if all[0] == me {
      forall p | p in peers ensures AtMost(me, p) {
        assert p in multiset([me] + peers);
        assert p in all;
        SortedHeadIsLeast(all, AddressKey, p);
      }
    } else if forall p :: p in peers ==> AtMost(me, p) {
      assert all[0] in multiset([me] + peers);
      assert all[0] in peers;
      SortedHeadIsLeast(all, AddressKey, me);
      AtMostAntisymmetric(me, all[0]);
    }
  }

  /** The role decision of one `check_loop` tick:
      `(all_ips[0] == MY_IP) if all_ips else True`. */
  function TickIsWriter(me: string, peers: seq<string>): (w: bool)
    ensures w <==> forall p :: p in peers ==> AtMost(me, p)
    ensures peers == [] ==> w
  {
    var allIps := SortBy([me] + peers, AddressKey);
    HeadIsMeIffLeast(me, peers);
    if |allIps| > 0 then allIps[0] == me else true
  }

  /** The role reported by `/api/node_info`: the same election, with
      False for an empty list, and forced to False in dashboard mode. */
  function SnapshotIsWriter(me: string, peers: seq<string>, dashboardMode: bool): (w: bool)
    ensures dashboardMode ==> !w
    ensures w <==> !dashboardMode && forall p :: p in peers ==> AtMost(me, p)
  {
    var allIps := SortBy([me] + peers, AddressKey);
    HeadIsMeIffLeast(me, peers);
    var elected := if |allIps| > 0 then allIps[0] == me else false;
    elected && !dashboardMode
  }

  /** When every node resolves the same non-empty address list `view`,
      exactly one of them elects itself. */
  lemma OneWriterPerView(view: seq<string>)
    requires |view| > 0
    ensures exists a :: a in view && TickIsWriter(a, OtherPeers(view, a))
    ensures forall a, b ::
      a in view && b in view && TickIsWriter(a, OtherPeers(view, a)) && TickIsWriter(b, OtherPeers(view, b))
      ==> a == b
  {
    var s := SortBy(view, AddressKey);
    var m := s[0];
    assert m in multiset(view);
    forall p | p in OtherPeers(view, m) ensures AtMost(m, p) {
      assert p in multiset(view);
      SortedHeadIsLeast(s, AddressKey, p);
    }
    assert TickIsWriter(m, OtherPeers(view, m));
    forall a, b | a in view && b in view && TickIsWriter(a, OtherPeers(view, a)) && TickIsWriter(b, OtherPeers(view, b))
      ensures a == b
    {
      if a != b {
        assert b in OtherPeers(view, a) && a in OtherPeers(view, b);
        AtMostAntisymmetric(a, b);
      }
    }
  }

  /** Text order, not numeric order: "10.0.0.10" sorts before "10.0.0.9",
      so of these two nodes the one ending in .10 writes. */
  lemma TextOrderElectsDotTen()
    ensures Below("10.0.0.10", "10.0.0.9")
    ensures TickIsWriter("10.0.0.10", ["10.0.0.9"])
    ensures !TickIsWriter("10.0.0.9", ["10.0.0.10"])
  {
    var a, b := "10.0.0.10", "10.0.0.9";
    assert a[7..] == "10" && b[7..] == "9";
    assert Below(a[7..], b[7..]);
    assert Below(a[6..], b[6..]);
    assert Below(a[5..], b[5..]);
    assert Below(a[4..], b[4..]);
    assert Below(a[3..], b[3..]);
    assert Below(a[2..], b[2..]);
    assert Below(a[1..], b[1..]);
    BelowAsymmetric(a, b);
  }
}
