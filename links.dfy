/** Writing the connections a round found into the testbed as links
    (topology.py lines 686-724, `_write_connections_to_testbed`).

    For every visited device and every local interface it reported a
    neighbour on, the interface either gets a new link holding it and all
    the neighbour ports, or, when it already has one, that link gains the
    neighbour ports it lacks. Every lookup of a device or an interface is
    unguarded in the source: a neighbour that is not in the testbed aborts
    the run. */
module Links {
  import opened Wrappers
  import opened Text
  import opened OMaps
  import opened Accumulators
  import opened Testbeds

  /** `'Link_{num}'.format(num = len(testbed.links))`. */
  function LinkName(n: nat): string {
    "Link_" + NatToString(n)
  }

  /** `testbed.devices[dest_host].interfaces[dest_port]`. */
  function PeerInterface(tb: Testbed, p: Peer): (r: Result<nat>)
    requires tb.Valid()
    ensures r.Ok? ==> r.value < |tb.interfaces|
  {
    tb.InterfaceOf(p.destHost, p.destPort)
  }

  /** Every peer names an interface of the testbed. */
  ghost predicate PeersResolve(tb: Testbed, peers: seq<Peer>)
    requires tb.Valid()
  {
    forall p :: p in peers ==> PeerInterface(tb, p).Ok?
  }

  /** The ids of the interfaces the peers name. */
  ghost predicate IsPeerInterface(tb: Testbed, peers: seq<Peer>, x: nat)
    requires tb.Valid()
  {
    exists k :: 0 <= k < |peers| && PeerInterface(tb, peers[k]) == Ok(x)
  }

  lemma PeersSnoc(tb: Testbed, pre: seq<Peer>, p: Peer, x: nat)
    requires tb.Valid()
    ensures PeersResolve(tb, pre + [p]) <==> PeersResolve(tb, pre) && PeerInterface(tb, p).Ok?
    ensures IsPeerInterface(tb, pre + [p], x) <==> IsPeerInterface(tb, pre, x) || PeerInterface(tb, p) == Ok(x)
  {
    var peers := pre + [p];
    if IsPeerInterface(tb, peers, x) {
      var k :| 0 <= k < |peers| && PeerInterface(tb, peers[k]) == Ok(x);
      if k < |pre| { assert PeerInterface(tb, pre[k]) == Ok(x); }
    }
    if IsPeerInterface(tb, pre, x) {
      var k :| 0 <= k < |pre| && PeerInterface(tb, pre[k]) == Ok(x);
      assert PeerInterface(tb, peers[k]) == Ok(x);
    }
    assert PeerInterface(tb, peers[|pre|]) == PeerInterface(tb, p);
  }

  predicate NoDuplicates(xs: seq<nat>) {
    forall i, j :: 0 <= i < j < |xs| ==> xs[i] != xs[j]
  }

  // ---------------------------------------------------------------------
  // A new link

  /** `int_list`: the local interface, then each neighbour interface that is
      not listed yet. */
  function Gather(tb: Testbed, local: nat, peers: seq<Peer>): (r: Result<seq<nat>>)
    requires tb.Valid()
    decreases |peers|
  {
    if peers == [] then Ok([local])
    else
      match Gather(tb, local, peers[..|peers| - 1])
      case Err(e) => Err(e)
      case Ok(m) =>
        match PeerInterface(tb, peers[|peers| - 1])
        case Err(e) => Err(e)
        case Ok(i) => Ok(if i in m then m else m + [i])
  }

  /** The list fails exactly when a peer is unknown. */
  lemma {:induction false} GatherResolves(tb: Testbed, local: nat, peers: seq<Peer>)
    requires tb.Valid()
    ensures Gather(tb, local, peers).Ok? <==> PeersResolve(tb, peers)
    decreases |peers|
  {
    if peers != [] {
      var pre := peers[..|peers| - 1];
      var p := peers[|peers| - 1];
      GatherResolves(tb, local, pre);
      assert peers == pre + [p];
      PeersSnoc(tb, pre, p, 0);
    }
  }

  /** A failed list reports the error of one of the peers. */
  lemma {:induction false} GatherError(tb: Testbed, local: nat, peers: seq<Peer>)
    requires tb.Valid()
    ensures var r := Gather(tb, local, peers);
      r.Err? ==> exists k :: 0 <= k < |peers| && PeerInterface(tb, peers[k]) == Err(r.error)
    decreases |peers|
  {
    if peers != [] {
      var pre := peers[..|peers| - 1];
      var p := peers[|peers| - 1];
      GatherError(tb, local, pre);
      var r := Gather(tb, local, peers);
      if Gather(tb, local, pre).Err? {
        var k :| 0 <= k < |pre| && PeerInterface(tb, pre[k]) == Err(r.error);
        assert peers[k] == pre[k];
      } else if r.Err? {
        assert PeerInterface(tb, peers[|pre|]) == Err(r.error);
      }
    }
  }

  /** The list fails exactly when a peer is unknown, with that peer's
      error. */
  lemma GatherOk(tb: Testbed, local: nat, peers: seq<Peer>)
    requires tb.Valid()
    ensures var r := Gather(tb, local, peers);
      (r.Ok? <==> PeersResolve(tb, peers)) &&
      (r.Err? ==> exists k :: 0 <= k < |peers| && PeerInterface(tb, peers[k]) == Err(r.error))
  {
    GatherResolves(tb, local, peers);
    GatherError(tb, local, peers);
  }

  /** One more neighbour: its interface joins the list unless listed. */
  lemma GatherNext(tb: Testbed, local: nat, peers: seq<Peer>)
    requires tb.Valid() && peers != []
    ensures var r0 := Gather(tb, local, peers[..|peers| - 1]);
      var r := Gather(tb, local, peers);
      var p := PeerInterface(tb, peers[|peers| - 1]);
      r.Ok? ==> (r0.Ok? && p.Ok? && r.value == if p.value in r0.value then r0.value else r0.value + [p.value])
  {
  }

  /** The list starts with the local interface and lists it and every
      neighbour interface once each, and nothing else. */
  lemma {:induction false} GatherSpec(tb: Testbed, local: nat, peers: seq<Peer>)
    requires tb.Valid()
    ensures var r := Gather(tb, local, peers);
      r.Ok? ==> |r.value| > 0 && r.value[0] == local && NoDuplicates(r.value) &&
                forall x :: x in r.value <==> x == local || IsPeerInterface(tb, peers, x)
    decreases |peers|
  {
    if peers != [] {
      var pre := peers[..|peers| - 1];
      var p := peers[|peers| - 1];
      GatherSpec(tb, local, pre);
      assert peers == pre + [p];
      if Gather(tb, local, peers).Ok? {
        GatherNext(tb, local, peers);
        var m := Gather(tb, local, pre).value;
        var i := PeerInterface(tb, p).value;
        if i !in m {
          NoDuplicatesSnoc(m, i);
        }
        forall x { PeersSnoc(tb, pre, p, x); }
      }
    }
  }

  /** `Link(name, interfaces = int_list)`: each listed interface now belongs
      to link `l`. */
  function SetLinks(tb: Testbed, ids: seq<nat>, l: nat): (r: Testbed)
    requires forall k :: 0 <= k < |ids| ==> ids[k] < |tb.interfaces|
    ensures r.devices == tb.devices && r.links == tb.links && r.proxies == tb.proxies
    ensures |r.interfaces| == |tb.interfaces|
    ensures forall i :: 0 <= i < |tb.interfaces| ==>
      r.interfaces[i] == if i in ids then tb.interfaces[i].(link := Some(l)) else tb.interfaces[i]
    decreases |ids|
  {
    if ids == [] then tb
    else
      var t := SetLinks(tb, ids[..|ids| - 1], l);
      var i := ids[|ids| - 1];
      t.(interfaces := t.interfaces[i := t.interfaces[i].(link := Some(l))])
  }

  /** The link created for an interface without one. */
  function NewLink(tb: Testbed, local: nat, peers: seq<Peer>): (r: Result<Testbed>)
    requires tb.Valid() && local < |tb.interfaces|
    ensures r.Ok? ==> r.value.Valid() && r.value.devices == tb.devices && |r.value.links| == |tb.links| + 1
  {
    match Gather(tb, local, peers)
    case Err(e) => Err(e)
    case Ok(m) =>
      GatherBounded(tb, local, peers);
      var n := |tb.links|;
      var t := tb.(links := tb.links + [Link(LinkName(n), m)]);
      AddLinkValid(tb, Link(LinkName(n), m));
      SetLinksValid(t, m, n);
      Ok(SetLinks(t, m, n))
  }

  /** A link over interfaces of the arena may join the link arena. */
  lemma AddLinkValid(tb: Testbed, link: Link)
    requires tb.Valid() && forall k :: 0 <= k < |link.members| ==> link.members[k] < |tb.interfaces|
    ensures var t := tb.(links := tb.links + [link]);
      t.Valid() && OnlyLinks(tb, t)
  {
    var t := tb.(links := tb.links + [link]);
    forall l, k | 0 <= l < |t.links| && 0 <= k < |t.links[l].members| ensures t.links[l].members[k] < |t.interfaces| {
      if l < |tb.links| {
        assert t.links[l] == tb.links[l];
      }
    }
    forall l | 0 <= l < |tb.links| ensures t.links[l] == tb.links[l] { }
  }

  /** Moving interfaces onto an existing link keeps a testbed well-formed
      and changes nothing but links. */
  lemma SetLinksValid(tb: Testbed, ids: seq<nat>, l: nat)
    requires tb.Valid() && l < |tb.links| && forall k :: 0 <= k < |ids| ==> ids[k] < |tb.interfaces|
    ensures var t := SetLinks(tb, ids, l);
      t.Valid() && OnlyLinks(tb, t)
  {
    var t := SetLinks(tb, ids, l);
    forall n | n in t.devices.values ensures t.DeviceOk(t.devices.values[n]) {
      assert tb.DeviceOk(tb.devices.values[n]);
    }
  }

  lemma GatherBounded(tb: Testbed, local: nat, peers: seq<Peer>)
    requires tb.Valid() && local < |tb.interfaces|
    ensures var r := Gather(tb, local, peers);
      r.Ok? ==> forall k :: 0 <= k < |r.value| ==> r.value[k] < |tb.interfaces|
  {
    GatherSpec(tb, local, peers);
    var r := Gather(tb, local, peers);
    if r.Ok? {
      forall k | 0 <= k < |r.value| ensures r.value[k] < |tb.interfaces| {
        assert r.value[k] in r.value;
        if r.value[k] != local {
          var j :| 0 <= j < |peers| && PeerInterface(tb, peers[j]) == Ok(r.value[k]);
        }
      }
    }
  }

  /** A new link is the last of the arena, is named after its position, and
      holds the local interface first and then each neighbour interface
      once; every one of them now belongs to it, and no other interface
      changes. */
  lemma NewLinkSpec(tb: Testbed, local: nat, peers: seq<Peer>)
    requires tb.Valid() && local < |tb.interfaces|
    ensures var r := NewLink(tb, local, peers);
      (r.Ok? <==> PeersResolve(tb, peers)) &&
      (r.Ok? ==>
        var t := r.value;
        var n := |tb.links|;
        |t.links| == n + 1 && t.links[..n] == tb.links && t.links[n].name == LinkName(n) &&
        var m := t.links[n].members;
        |m| > 0 && m[0] == local && NoDuplicates(m) &&
        (forall x :: x in m <==> x == local || IsPeerInterface(tb, peers, x)) &&
        |t.interfaces| == |tb.interfaces| &&
        forall i :: 0 <= i < |tb.interfaces| ==>
          t.interfaces[i] == if i in m then tb.interfaces[i].(link := Some(n)) else tb.interfaces[i])
  {
    GatherOk(tb, local, peers);
    GatherSpec(tb, local, peers);
  }

  // ---------------------------------------------------------------------
  // An existing link

  /** `link.connect_interface(i)`: `i` joins link `l` at the end of its
      members and now belongs to it. */
  function ConnectTo(tb: Testbed, l: nat, i: nat): (r: Testbed)
    requires l < |tb.links| && i < |tb.interfaces|
  {
    tb.(links := tb.links[l := tb.links[l].(members := tb.links[l].members + [i])],
        interfaces := tb.interfaces[i := tb.interfaces[i].(link := Some(l))])
  }

  /** The loop over the neighbours of an interface already on link `l`. */
  function ExtendLink(tb: Testbed, l: nat, peers: seq<Peer>): (r: Result<Testbed>)
    requires tb.Valid() && l < |tb.links|
    ensures r.Ok? ==> r.value.Valid() && r.value.devices == tb.devices && |r.value.links| == |tb.links|
    decreases |peers|
  {
    if peers == [] then Ok(tb)
    else
      match ExtendLink(tb, l, peers[..|peers| - 1])
      case Err(e) => Err(e)
      case Ok(t) =>
        match PeerInterface(t, peers[|peers| - 1])
        case Err(e) => Err(e)
        case Ok(i) =>
          if i in t.links[l].members then Ok(t)
          else
            ConnectToSpec(t, l, i);
            Ok(ConnectTo(t, l, i))
  }

  lemma ConnectToSpec(tb: Testbed, l: nat, i: nat)
    requires tb.Valid() && l < |tb.links| && i < |tb.interfaces|
    ensures var t := ConnectTo(tb, l, i);
      OnlyLinks(tb, t) && t.Valid() && |t.links| == |tb.links|
  {
    var t := ConnectTo(tb, l, i);
    forall n | n in t.devices.values ensures t.DeviceOk(t.devices.values[n]) {
      assert tb.DeviceOk(tb.devices.values[n]);
    }
  }

  /** Extending fails exactly when a peer is unknown. */
  lemma {:induction false} ExtendLinkOk(tb: Testbed, l: nat, peers: seq<Peer>)
    requires tb.Valid() && l < |tb.links|
    ensures ExtendLink(tb, l, peers).Ok? <==> PeersResolve(tb, peers)
    decreases |peers|
  {
    if peers != [] {
      var pre := peers[..|peers| - 1];
      var p := peers[|peers| - 1];
      ExtendLinkOk(tb, l, pre);
      assert peers == pre + [p];
      PeersSnoc(tb, pre, p, 0);
      var r0 := ExtendLink(tb, l, pre);
      if r0.Ok? {
        SameLookups(tb, r0.value, p);
      }
    }
  }

  /** One more neighbour: the link is unchanged when the neighbour
      interface is a member already, and the interface is connected to it
      otherwise. */
  lemma ExtendLinkNext(tb: Testbed, l: nat, peers: seq<Peer>)
    requires tb.Valid() && l < |tb.links| && peers != []
    ensures var r0 := ExtendLink(tb, l, peers[..|peers| - 1]);
      var r := ExtendLink(tb, l, peers);
      var p := PeerInterface(tb, peers[|peers| - 1]);
      r.Ok? ==> (r0.Ok? && p.Ok? && l < |r0.value.links| && p.value < |r0.value.interfaces| &&
                 r.value == if p.value in r0.value.links[l].members then r0.value else ConnectTo(r0.value, l, p.value))
  {
    var r0 := ExtendLink(tb, l, peers[..|peers| - 1]);
    if r0.Ok? {
      SameLookups(tb, r0.value, peers[|peers| - 1]);
    }
  }

  /** What `connect_interface` changes: the member list of link `l` and the
      link of `i`. */
  lemma ConnectToFacts(t: Testbed, l: nat, i: nat)
    requires l < |t.links| && i < |t.interfaces|
    ensures var c := ConnectTo(t, l, i);
      c.links[l].members == t.links[l].members + [i] && c.interfaces[i].link == Some(l) &&
      forall x :: 0 <= x < |t.interfaces| && x != i ==> c.interfaces[x] == t.interfaces[x]
  {
  }

  lemma NoDuplicatesSnoc(m: seq<nat>, i: nat)
    requires NoDuplicates(m) && i !in m
    ensures NoDuplicates(m + [i])
  {
  }

  /** The link keeps its members, in order, followed by each neighbour
      interface it lacked, once; those now belong to it. */
  lemma {:induction false} ExtendLinkSpec(tb: Testbed, l: nat, peers: seq<Peer>)
    requires tb.Valid() && l < |tb.links|
    ensures var r := ExtendLink(tb, l, peers);
      r.Ok? ==>
        var m := r.value.links[l].members;
        tb.links[l].members <= m &&
        (forall x :: x in m <==> x in tb.links[l].members || IsPeerInterface(tb, peers, x)) &&
        forall x :: x in m && x !in tb.links[l].members ==> r.value.interfaces[x].link == Some(l)
    decreases |peers|
  {
    if peers != [] {
      var pre := peers[..|peers| - 1];
      var p := peers[|peers| - 1];
      ExtendLinkSpec(tb, l, pre);
      assert peers == pre + [p];
      var r := ExtendLink(tb, l, peers);
      if r.Ok? {
        ExtendLinkNext(tb, l, peers);
        var t := ExtendLink(tb, l, pre).value;
        var i := PeerInterface(tb, p).value;
        if i !in t.links[l].members {
          ConnectToFacts(t, l, i);
        }
        forall x { PeersSnoc(tb, pre, p, x); }
      }
    }
  }

  /** A link without repeated members keeps none. */
  lemma {:induction false} ExtendLinkDistinct(tb: Testbed, l: nat, peers: seq<Peer>)
    requires tb.Valid() && l < |tb.links| && NoDuplicates(tb.links[l].members)
    ensures var r := ExtendLink(tb, l, peers);
      r.Ok? ==> NoDuplicates(r.value.links[l].members)
    decreases |peers|
  {
    if peers != [] {
      ExtendLinkDistinct(tb, l, peers[..|peers| - 1]);
      var r := ExtendLink(tb, l, peers);
      if r.Ok? {
        ExtendLinkNext(tb, l, peers);
        var t := ExtendLink(tb, l, peers[..|peers| - 1]).value;
        var i := PeerInterface(tb, peers[|peers| - 1]).value;
        if i !in t.links[l].members {
          ConnectToFacts(t, l, i);
          NoDuplicatesSnoc(t.links[l].members, i);
        }
      }
    }
  }

  // ---------------------------------------------------------------------
  // What the writes keep

  /** `t` differs from `tb` only in links: the same devices and proxy lists,
      the same interfaces but for the link they belong to, an interface on
      a link stays on one, and every link keeps its name and its members (in
      order) and may gain more; new links may follow. */
  ghost predicate OnlyLinks(tb: Testbed, t: Testbed) {
    t.devices == tb.devices && t.proxies == tb.proxies &&
    |t.interfaces| == |tb.interfaces| &&
    (forall i :: 0 <= i < |tb.interfaces| ==>
       t.interfaces[i].name == tb.interfaces[i].name && t.interfaces[i].device == tb.interfaces[i].device &&
       t.interfaces[i].ifType == tb.interfaces[i].ifType &&
       (tb.interfaces[i].link.Some? ==> t.interfaces[i].link.Some?)) &&
    |tb.links| <= |t.links| &&
    forall l :: 0 <= l < |tb.links| ==> t.links[l].name == tb.links[l].name && tb.links[l].members <= t.links[l].members
  }

  lemma OnlyLinksTransitive(a: Testbed, b: Testbed, c: Testbed)
    requires OnlyLinks(a, b) && OnlyLinks(b, c)
    ensures OnlyLinks(a, c)
  {
    forall l | 0 <= l < |a.links| ensures a.links[l].members <= c.links[l].members {
      assert a.links[l].members <= b.links[l].members;
    }
  }

  /** Lookups only read the devices, which the writes do not change. */
  lemma SameLookups(tb: Testbed, t: Testbed, p: Peer)
    requires tb.Valid() && t.Valid() && t.devices == tb.devices
    ensures PeerInterface(t, p) == PeerInterface(tb, p)
  {
  }

  /** Only links change, so the testbed devices keep their interfaces. */
  lemma OnlyLinksKeeps(tb: Testbed, t: Testbed)
    requires OnlyLinks(tb, t)
    ensures KeepsInterfaces(tb, t)
  {
  }

  lemma NewLinkOnly(tb: Testbed, local: nat, peers: seq<Peer>)
    requires tb.Valid() && local < |tb.interfaces|
    ensures var r := NewLink(tb, local, peers);
      r.Ok? ==> OnlyLinks(tb, r.value)
  {
    var g := Gather(tb, local, peers);
    if g.Ok? {
      GatherBounded(tb, local, peers);
      var n := |tb.links|;
      var t := tb.(links := tb.links + [Link(LinkName(n), g.value)]);
      AddLinkValid(tb, Link(LinkName(n), g.value));
      SetLinksValid(t, g.value, n);
      OnlyLinksTransitive(tb, t, SetLinks(t, g.value, n));
    }
  }

  lemma {:induction false} ExtendLinkOnly(tb: Testbed, l: nat, peers: seq<Peer>)
    requires tb.Valid() && l < |tb.links|
    ensures var r := ExtendLink(tb, l, peers);
      r.Ok? ==> OnlyLinks(tb, r.value)
    decreases |peers|
  {
    if peers != [] {
      ExtendLinkOnly(tb, l, peers[..|peers| - 1]);
      var r := ExtendLink(tb, l, peers);
      if r.Ok? {
        ExtendLinkNext(tb, l, peers);
        var t := ExtendLink(tb, l, peers[..|peers| - 1]).value;
        var i := PeerInterface(tb, peers[|peers| - 1]).value;
        if i !in t.links[l].members {
          ConnectToSpec(t, l, i);
          OnlyLinksTransitive(tb, t, r.value);
        }
      }
    }
  }

  lemma WriteInterfaceOnly(tb: Testbed, it: Item)
    requires tb.Valid()
    ensures var r := WriteInterface(tb, it);
      r.Ok? ==> OnlyLinks(tb, r.value)
  {
    var i := tb.InterfaceOf(it.device, it.iface);
    if i.Ok? {
      if tb.interfaces[i.value].link.None? {
        NewLinkOnly(tb, i.value, it.peers);
      } else {
        ExtendLinkOnly(tb, tb.interfaces[i.value].link.value, it.peers);
      }
    }
  }

  /** The pass changes nothing but links. */
  lemma {:induction false} WriteItemsOnly(tb: Testbed, items: seq<Item>)
    requires tb.Valid()
    ensures var r := WriteItems(tb, items);
      r.Ok? ==> OnlyLinks(tb, r.value)
    decreases |items|
  {
    if items != [] {
      WriteItemsOnly(tb, items[..|items| - 1]);
      WriteItemsNext(tb, items);
      var r0 := WriteItems(tb, items[..|items| - 1]);
      if r0.Ok? {
        WriteInterfaceOnly(r0.value, items[|items| - 1]);
        var r := WriteItems(tb, items);
        if r.Ok? {
          OnlyLinksTransitive(tb, r0.value, r.value);
        }
      }
    }
  }

  // ---------------------------------------------------------------------
  // The whole pass

  /** The body of the inner loop for `device.interfaces[iface]`: a new link
      when the interface has none, otherwise its link gains the neighbours
      it lacks. */
  function WriteInterface(tb: Testbed, item: Item): (r: Result<Testbed>)
    requires tb.Valid()
    ensures r.Ok? ==> r.value.Valid()
  {
    match tb.InterfaceOf(item.device, item.iface)
    case Err(e) => Err(e)
    case Ok(i) =>
      match tb.interfaces[i].link
      case None => NewLink(tb, i, item.peers)
      case Some(l) => ExtendLink(tb, l, item.peers)
  }

  /** One local interface of a visited device and the neighbours behind
      it. */
  datatype Item = Item(device: string, iface: string, peers: seq<Peer>)

  /** Every `connection_dict` of `conn_dict` is a well-formed dictionary. */
  ghost predicate ConnectionsValid(conns: OMap<string, ConnectionDict>) {
    conns.Valid() && forall d :: d in conns.values ==> conns.values[d].Valid()
  }

  /** The interfaces of one device's `connection_dict`, in key order. */
  function DeviceItems(device: string, cd: ConnectionDict): (r: seq<Item>)
    requires cd.Valid()
    ensures |r| == |cd.keys|
    ensures forall k :: 0 <= k < |r| ==> r[k] == Item(device, cd.keys[k], cd.values[cd.keys[k]])
  {
    seq(|cd.keys|, k requires 0 <= k < |cd.keys| => Item(device, cd.keys[k], cd.values[cd.keys[k]]))
  }

  /** The items of the devices `devs`, device by device. */
  function Items(conns: OMap<string, ConnectionDict>, devs: seq<string>): seq<Item>
    requires ConnectionsValid(conns) && forall d :: d in devs ==> d in conns.values
    decreases |devs|
  {
    if devs == [] then []
    else Items(conns, devs[..|devs| - 1]) + DeviceItems(devs[|devs| - 1], conns.values[devs[|devs| - 1]])
  }

  /** The writes of `items`, in order, stopping at the first error. */
  function WriteItems(tb: Testbed, items: seq<Item>): (r: Result<Testbed>)
    requires tb.Valid()
    ensures r.Ok? ==> r.value.Valid()
    decreases |items|
  {
    if items == [] then Ok(tb)
    else
      match WriteItems(tb, items[..|items| - 1])
      case Err(e) => Err(e)
      case Ok(t) =>
        match WriteInterface(t, items[|items| - 1])
        case Err(e) => Err(e)
        case Ok(u) => Ok(u)
  }

  /** `_write_connections_to_testbed(conn_dict, testbed)`. */
  function WriteConnections(conns: OMap<string, ConnectionDict>, tb: Testbed): (r: Result<Testbed>)
    requires tb.Valid() && ConnectionsValid(conns)
  {
    WriteItems(tb, Items(conns, conns.keys))
  }

  /** Every interface of `conn_dict` is an item, with its own neighbours. */
  lemma {:induction false} ItemsCover(conns: OMap<string, ConnectionDict>, devs: seq<string>, d: string, n: string)
    requires ConnectionsValid(conns) && forall d :: d in devs ==> d in conns.values
    requires d in devs && n in conns.values[d].values
    ensures Item(d, n, conns.values[d].values[n]) in Items(conns, devs)
    decreases |devs|
  {
    var last := devs[|devs| - 1];
    if d == last {
      var cd := conns.values[d];
      var k :| 0 <= k < |cd.keys| && cd.keys[k] == n;
      assert DeviceItems(d, cd)[k] == Item(d, n, cd.values[n]);
    } else {
      assert devs == devs[..|devs| - 1] + [last];
      ItemsCover(conns, devs[..|devs| - 1], d, n);
    }
  }

  /** Every item of `devs` is an interface of `conn_dict` with its own
      neighbours. */
  lemma {:induction false} ItemsOnly(conns: OMap<string, ConnectionDict>, devs: seq<string>, it: Item)
    requires ConnectionsValid(conns) && forall d :: d in devs ==> d in conns.values
    requires it in Items(conns, devs)
    ensures it.device in conns.values && it.iface in conns.values[it.device].values &&
            it.peers == conns.values[it.device].values[it.iface]
    decreases |devs|
  {
    var last := devs[|devs| - 1];
    var cd := conns.values[last];
    if it in DeviceItems(last, cd) {
      var k :| 0 <= k < |cd.keys| && DeviceItems(last, cd)[k] == it;
      assert cd.keys[k] in cd.values;
    } else {
      ItemsOnly(conns, devs[..|devs| - 1], it);
    }
  }

  // ---------------------------------------------------------------------
  // When the pass fails

  /** The lookups an item makes all succeed. */
  ghost predicate Resolves(tb: Testbed, it: Item)
    requires tb.Valid()
  {
    tb.InterfaceOf(it.device, it.iface).Ok? && PeersResolve(tb, it.peers)
  }

  /** Lookups read only the devices: the same item resolves in a testbed
      whose links have changed. */
  lemma ResolvesSame(tb: Testbed, t: Testbed, it: Item)
    requires tb.Valid() && t.Valid() && t.devices == tb.devices
    ensures Resolves(t, it) == Resolves(tb, it)
    ensures forall x :: IsPeerInterface(t, it.peers, x) == IsPeerInterface(tb, it.peers, x)
  {
    forall p { SameLookups(tb, t, p); }
  }

  /** An interface write fails exactly when an unguarded lookup does. */
  lemma WriteInterfaceOk(tb: Testbed, it: Item)
    requires tb.Valid()
    ensures WriteInterface(tb, it).Ok? <==> Resolves(tb, it)
  {
    var i := tb.InterfaceOf(it.device, it.iface);
    if i.Ok? {
      if tb.interfaces[i.value].link.None? {
        NewLinkSpec(tb, i.value, it.peers);
      } else {
        ExtendLinkOk(tb, tb.interfaces[i.value].link.value, it.peers);
      }
    }
  }

  /** Every item of `items` resolves. */
  ghost predicate AllResolve(tb: Testbed, items: seq<Item>)
    requires tb.Valid()
  {
    forall k :: 0 <= k < |items| ==> Resolves(tb, items[k])
  }

  lemma AllResolveSnoc(tb: Testbed, items: seq<Item>)
    requires tb.Valid() && items != []
    ensures AllResolve(tb, items) <==>
            AllResolve(tb, items[..|items| - 1]) && Resolves(tb, items[|items| - 1])
  {
    assert forall k :: 0 <= k < |items| - 1 ==> items[..|items| - 1][k] == items[k];
  }

  lemma AllResolveSame(tb: Testbed, t: Testbed, items: seq<Item>)
    requires tb.Valid() && t.Valid() && t.devices == tb.devices
    ensures AllResolve(t, items) == AllResolve(tb, items)
  {
    forall k | 0 <= k < |items| ensures Resolves(t, items[k]) == Resolves(tb, items[k]) {
      ResolvesSame(tb, t, items[k]);
    }
  }

  /** One more item: the pass goes on with its write unless it has failed. */
  lemma WriteItemsNext(tb: Testbed, items: seq<Item>)
    requires tb.Valid() && items != []
    ensures var r0 := WriteItems(tb, items[..|items| - 1]);
      WriteItems(tb, items) == if r0.Err? then r0 else WriteInterface(r0.value, items[|items| - 1])
  {
  }

  /** The pass fails exactly when some item does not resolve. */
  lemma {:induction false} WriteItemsOk(tb: Testbed, items: seq<Item>)
    requires tb.Valid()
    ensures WriteItems(tb, items).Ok? <==> AllResolve(tb, items)
    decreases |items|
  {
    if items != [] {
      var pre := items[..|items| - 1];
      var last := items[|items| - 1];
      WriteItemsOk(tb, pre);
      AllResolveSnoc(tb, items);
      WriteItemsNext(tb, items);
      var r0 := WriteItems(tb, pre);
      if r0.Ok? {
        WriteItemsOnly(tb, pre);
        WriteInterfaceOk(r0.value, last);
        ResolvesSame(tb, r0.value, last);
      }
    }
  }

  // ---------------------------------------------------------------------
  // What the pass keeps and what it establishes

  /** Every interface on a link is among its members, and every link is
      named after its position. */
  ghost predicate LinksOk(t: Testbed)
    requires t.Valid()
  {
    (forall i :: 0 <= i < |t.interfaces| && t.interfaces[i].link.Some? ==>
       i in t.links[t.interfaces[i].link.value].members) &&
    forall l :: 0 <= l < |t.links| ==> t.links[l].name == LinkName(l)
  }

  lemma NewLinkKeeps(tb: Testbed, local: nat, peers: seq<Peer>)
    requires tb.Valid() && local < |tb.interfaces| && LinksOk(tb)
    ensures var r := NewLink(tb, local, peers);
      r.Ok? ==> LinksOk(r.value)
  {
    NewLinkSpec(tb, local, peers);
    var r := NewLink(tb, local, peers);
    if r.Ok? {
      var t := r.value;
      var n := |tb.links|;
      forall l | 0 <= l < n ensures t.links[l] == tb.links[l] {
        assert t.links[..n][l] == tb.links[l];
      }
    }
  }

  lemma ConnectToKeeps(t: Testbed, l: nat, i: nat)
    requires t.Valid() && l < |t.links| && i < |t.interfaces| && LinksOk(t)
    ensures ConnectTo(t, l, i).Valid() && LinksOk(ConnectTo(t, l, i))
  {
    ConnectToSpec(t, l, i);
    ConnectToFacts(t, l, i);
    var c := ConnectTo(t, l, i);
    forall x | 0 <= x < |c.interfaces| && c.interfaces[x].link.Some?
      ensures x in c.links[c.interfaces[x].link.value].members
    {
      if x != i {
        assert c.interfaces[x] == t.interfaces[x];
        assert x in t.links[t.interfaces[x].link.value].members;
      }
    }
  }

  lemma {:induction false} ExtendLinkKeeps(tb: Testbed, l: nat, peers: seq<Peer>)
    requires tb.Valid() && l < |tb.links| && LinksOk(tb)
    ensures var r := ExtendLink(tb, l, peers);
      r.Ok? ==> LinksOk(r.value)
    decreases |peers|
  {
    if peers != [] {
      ExtendLinkKeeps(tb, l, peers[..|peers| - 1]);
      var r := ExtendLink(tb, l, peers);
      if r.Ok? {
        ExtendLinkNext(tb, l, peers);
        var t := ExtendLink(tb, l, peers[..|peers| - 1]).value;
        var i := PeerInterface(tb, peers[|peers| - 1]).value;
        if i !in t.links[l].members {
          ConnectToKeeps(t, l, i);
        }
      }
    }
  }

  lemma WriteInterfaceKeeps(tb: Testbed, it: Item)
    requires tb.Valid() && LinksOk(tb)
    ensures var r := WriteInterface(tb, it);
      r.Ok? ==> LinksOk(r.value)
  {
    var i := tb.InterfaceOf(it.device, it.iface);
    if i.Ok? {
      if tb.interfaces[i.value].link.None? {
        NewLinkKeeps(tb, i.value, it.peers);
      } else {
        ExtendLinkKeeps(tb, tb.interfaces[i.value].link.value, it.peers);
      }
    }
  }

  lemma {:induction false} WriteItemsKeeps(tb: Testbed, items: seq<Item>)
    requires tb.Valid() && LinksOk(tb)
    ensures var r := WriteItems(tb, items);
      r.Ok? ==> LinksOk(r.value)
    decreases |items|
  {
    if items != [] {
      WriteItemsKeeps(tb, items[..|items| - 1]);
      WriteItemsNext(tb, items);
      var r0 := WriteItems(tb, items[..|items| - 1]);
      if r0.Ok? {
        WriteInterfaceKeeps(r0.value, items[|items| - 1]);
      }
    }
  }

  /** Interfaces `a` and `b` are members of one link. */
  ghost predicate Together(t: Testbed, a: nat, b: nat) {
    exists l :: 0 <= l < |t.links| && a in t.links[l].members && b in t.links[l].members
  }

  /** The local interface of an item is on a link and shares a link with
      each neighbour interface of the item. */
  ghost predicate Connected(t: Testbed, it: Item)
    requires t.Valid()
  {
    t.InterfaceOf(it.device, it.iface).Ok? &&
    var i := t.InterfaceOf(it.device, it.iface).value;
    t.interfaces[i].link.Some? &&
    forall x :: IsPeerInterface(t, it.peers, x) ==> Together(t, i, x)
  }

  /** Later writes only add members and links, so what is connected stays
      connected. */
  lemma ConnectedGrow(t: Testbed, u: Testbed, it: Item)
    requires t.Valid() && u.Valid() && OnlyLinks(t, u) && Connected(t, it)
    ensures Connected(u, it)
  {
    ResolvesSame(t, u, it);
    var i := t.InterfaceOf(it.device, it.iface).value;
    forall x | IsPeerInterface(u, it.peers, x) ensures Together(u, i, x) {
      var l :| 0 <= l < |t.links| && i in t.links[l].members && x in t.links[l].members;
      assert t.links[l].members <= u.links[l].members;
    }
  }

  /** After an interface write the item is connected. */
  lemma WriteInterfaceConnected(tb: Testbed, it: Item)
    requires tb.Valid() && LinksOk(tb)
    ensures var r := WriteInterface(tb, it);
      r.Ok? ==> Connected(r.value, it)
  {
    var r := WriteInterface(tb, it);
    if r.Ok? {
      var t := r.value;
      var i := tb.InterfaceOf(it.device, it.iface).value;
      WriteInterfaceOnly(tb, it);
      ResolvesSame(tb, t, it);
      match tb.interfaces[i].link
      case None =>
        NewLinkSpec(tb, i, it.peers);
        var n := |tb.links|;
        assert i in t.links[n].members;
        forall x | IsPeerInterface(t, it.peers, x) ensures Together(t, i, x) {
          assert x in t.links[n].members;
        }
      case Some(l) =>
        ExtendLinkSpec(tb, l, it.peers);
        assert i in tb.links[l].members;
        forall x | IsPeerInterface(t, it.peers, x) ensures Together(t, i, x) {
          assert i in t.links[l].members && x in t.links[l].members;
        }
    }
  }

  /** Every item of `items` is connected. */
  ghost predicate AllConnected(t: Testbed, items: seq<Item>)
    requires t.Valid()
  {
    forall k :: 0 <= k < |items| ==> Connected(t, items[k])
  }

  lemma AllConnectedGrow(t: Testbed, u: Testbed, items: seq<Item>)
    requires t.Valid() && u.Valid() && OnlyLinks(t, u) && AllConnected(t, items)
    ensures AllConnected(u, items)
  {
    forall k | 0 <= k < |items| ensures Connected(u, items[k]) {
      ConnectedGrow(t, u, items[k]);
    }
  }

  lemma AllConnectedSnoc(t: Testbed, items: seq<Item>)
    requires t.Valid() && items != []
    requires AllConnected(t, items[..|items| - 1]) && Connected(t, items[|items| - 1])
    ensures AllConnected(t, items)
  {
    forall k | 0 <= k < |items| ensures Connected(t, items[k]) {
      if k < |items| - 1 {
        assert items[..|items| - 1][k] == items[k];
      }
    }
  }

  /** After the pass every item is connected. */
  lemma {:induction false} WriteItemsConnected(tb: Testbed, items: seq<Item>)
    requires tb.Valid() && LinksOk(tb)
    ensures var r := WriteItems(tb, items);
      r.Ok? ==> AllConnected(r.value, items)
    decreases |items|
  {
    if items != [] {
      var pre := items[..|items| - 1];
      var last := items[|items| - 1];
      var r := WriteItems(tb, items);
      WriteItemsNext(tb, items);
      if r.Ok? {
        WriteItemsConnected(tb, pre);
        WriteItemsKeeps(tb, pre);
        var t := WriteItems(tb, pre).value;
        WriteInterfaceConnected(t, last);
        WriteInterfaceOnly(t, last);
        AllConnectedGrow(t, r.value, pre);
        AllConnectedSnoc(r.value, items);
      }
    }
  }

  lemma AllConnectedPrefix(t: Testbed, items: seq<Item>)
    requires t.Valid() && items != [] && AllConnected(t, items)
    ensures AllConnected(t, items[..|items| - 1]) && Connected(t, items[|items| - 1])
  {
    var pre := items[..|items| - 1];
    forall k | 0 <= k < |pre| ensures Connected(t, pre[k]) {
      assert pre[k] == items[k];
    }
  }

  /** Writing items whose local interfaces are all on links only extends
      those links. */
  lemma {:induction false} ConnectedWritesNoLink(tb: Testbed, items: seq<Item>)
    requires tb.Valid() && AllConnected(tb, items)
    ensures var r := WriteItems(tb, items);
      r.Ok? ==> |r.value.links| == |tb.links|
    decreases |items|
  {
    if items != [] {
      var pre := items[..|items| - 1];
      var last := items[|items| - 1];
      AllConnectedPrefix(tb, items);
      ConnectedWritesNoLink(tb, pre);
      WriteItemsNext(tb, items);
      var r0 := WriteItems(tb, pre);
      if r0.Ok? {
        WriteItemsOnly(tb, pre);
        ConnectedGrow(tb, r0.value, last);
      }
    }
  }

  /** Running the pass a second time on its own result succeeds and creates
      no link: every local interface it meets is on a link by then. */
  lemma SecondPassNoNewLink(tb: Testbed, items: seq<Item>)
    requires tb.Valid() && LinksOk(tb)
    ensures var r := WriteItems(tb, items);
      r.Ok? ==> (WriteItems(r.value, items).Ok? && |WriteItems(r.value, items).value.links| == |r.value.links|)
  {
    var r := WriteItems(tb, items);
    if r.Ok? {
      var t := r.value;
      WriteItemsOk(tb, items);
      WriteItemsOk(t, items);
      WriteItemsOnly(tb, items);
      AllResolveSame(tb, t, items);
      WriteItemsConnected(tb, items);
      ConnectedWritesNoLink(t, items);
    }
  }

  /** An item resolves for every interface of `conn_dict` exactly when every
      item of the pass does. */
  lemma ItemsResolve(tb: Testbed, conns: OMap<string, ConnectionDict>)
    requires tb.Valid() && ConnectionsValid(conns)
    ensures AllResolve(tb, Items(conns, conns.keys)) <==>
      forall d, n :: d in conns.values && n in conns.values[d].values ==>
        Resolves(tb, Item(d, n, conns.values[d].values[n]))
  {
    var items := Items(conns, conns.keys);
    if AllResolve(tb, items) {
      forall d, n | d in conns.values && n in conns.values[d].values
        ensures Resolves(tb, Item(d, n, conns.values[d].values[n]))
      {
        ItemsCover(conns, conns.keys, d, n);
      }
    }
    if forall d, n :: d in conns.values && n in conns.values[d].values ==>
         Resolves(tb, Item(d, n, conns.values[d].values[n])) {
      forall k | 0 <= k < |items| ensures Resolves(tb, items[k]) {
        ItemsOnly(conns, conns.keys, items[k]);
      }
    }
  }

  lemma ItemsConnected(t: Testbed, conns: OMap<string, ConnectionDict>)
    requires t.Valid() && ConnectionsValid(conns) && AllConnected(t, Items(conns, conns.keys))
    ensures forall d, n :: d in conns.values && n in conns.values[d].values ==>
      Connected(t, Item(d, n, conns.values[d].values[n]))
  {
    forall d, n | d in conns.values && n in conns.values[d].values
      ensures Connected(t, Item(d, n, conns.values[d].values[n]))
    {
      ItemsCover(conns, conns.keys, d, n);
      var items := Items(conns, conns.keys);
      var k :| 0 <= k < |items| && items[k] == Item(d, n, conns.values[d].values[n]);
    }
  }

  /** `_write_connections_to_testbed`: it fails exactly when a device or an
      interface it looks up is missing; otherwise only links changed, every
      interface is still on the link that lists it, and every local
      interface of `conn_dict` is on a link and shares a link with each of
      its neighbour interfaces. A second call adds no link. */
  lemma WriteConnectionsSpec(conns: OMap<string, ConnectionDict>, tb: Testbed)
    requires tb.Valid() && ConnectionsValid(conns) && LinksOk(tb)
    ensures var r := WriteConnections(conns, tb);
      (r.Ok? <==> forall d, n :: d in conns.values && n in conns.values[d].values ==>
                    Resolves(tb, Item(d, n, conns.values[d].values[n]))) &&
      (r.Ok? ==>
        r.value.Valid() && OnlyLinks(tb, r.value) && LinksOk(r.value) &&
        (forall d, n :: d in conns.values && n in conns.values[d].values ==>
           Connected(r.value, Item(d, n, conns.values[d].values[n]))) &&
        WriteConnections(conns, r.value).Ok? &&
        |WriteConnections(conns, r.value).value.links| == |r.value.links|)
  {
    var items := Items(conns, conns.keys);
    WriteItemsOk(tb, items);
    WriteItemsOnly(tb, items);
    ItemsResolve(tb, conns);
    WriteItemsKeeps(tb, items);
    WriteItemsConnected(tb, items);
    SecondPassNoNewLink(tb, items);
    var r := WriteConnections(conns, tb);
    if r.Ok? {
      ItemsConnected(r.value, conns);
    }
  }

  /** The item's local interface is on a link that already lists every
      neighbour interface of the item. */
  ghost predicate Settled(t: Testbed, it: Item)
    requires t.Valid()
  {
    Resolves(t, it) &&
    var i := t.InterfaceOf(it.device, it.iface).value;
    t.interfaces[i].link.Some? &&
    forall k :: 0 <= k < |it.peers| ==> PeerInterface(t, it.peers[k]).value in t.links[t.interfaces[i].link.value].members
  }

  /** Neighbours already on the link change nothing. */
  lemma {:induction false} ExtendLinkSettled(tb: Testbed, l: nat, peers: seq<Peer>)
    requires tb.Valid() && l < |tb.links|
    requires forall k :: 0 <= k < |peers| ==>
      PeerInterface(tb, peers[k]).Ok? && PeerInterface(tb, peers[k]).value in tb.links[l].members
    ensures ExtendLink(tb, l, peers) == Ok(tb)
    decreases |peers|
  {
    if peers != [] {
      var pre := peers[..|peers| - 1];
      assert forall k :: 0 <= k < |pre| ==> pre[k] == peers[k];
      ExtendLinkSettled(tb, l, pre);
    }
  }

  /** Writing a settled item leaves the testbed as it is. */
  lemma WriteInterfaceSettled(t: Testbed, it: Item)
    requires t.Valid() && Settled(t, it)
    ensures WriteInterface(t, it) == Ok(t)
  {
    var i := t.InterfaceOf(it.device, it.iface).value;
    ExtendLinkSettled(t, t.interfaces[i].link.value, it.peers);
  }

  /** A pass over settled items leaves the testbed as it is: applying the
      same connections again then adds neither a link nor a member. */
  lemma {:induction false} WriteItemsSettled(t: Testbed, items: seq<Item>)
    requires t.Valid() && forall k :: 0 <= k < |items| ==> Settled(t, items[k])
    ensures WriteItems(t, items) == Ok(t)
    decreases |items|
  {
    if items != [] {
      var pre := items[..|items| - 1];
      assert forall k :: 0 <= k < |pre| ==> pre[k] == items[k];
      WriteItemsSettled(t, pre);
      WriteItemsNext(t, items);
      WriteInterfaceSettled(t, items[|items| - 1]);
    }
  }

  /** Entry order: the list built from the first `k` neighbours starts the
      list built from all of them. */
  lemma {:induction false} GatherPrefix(tb: Testbed, local: nat, peers: seq<Peer>, k: nat)
    requires tb.Valid() && k <= |peers| && Gather(tb, local, peers).Ok?
    ensures Gather(tb, local, peers[..k]).Ok? && Gather(tb, local, peers[..k]).value <= Gather(tb, local, peers).value
    decreases |peers|
  {
    if k == |peers| {
      assert peers[..k] == peers;
    } else {
      var pre := peers[..|peers| - 1];
      assert pre[..k] == peers[..k];
      GatherNext(tb, local, peers);
      GatherPrefix(tb, local, pre, k);
    }
  }

  // ---------------------------------------------------------------------
  // The loops

  lemma {:induction false} GatherSticky(tb: Testbed, local: nat, peers: seq<Peer>, i: nat)
    requires tb.Valid() && i <= |peers| && Gather(tb, local, peers[..i]).Err?
    ensures Gather(tb, local, peers) == Gather(tb, local, peers[..i])
    decreases |peers| - i
  {
    if i < |peers| {
      assert peers[..i + 1][..i] == peers[..i];
      GatherSticky(tb, local, peers, i + 1);
    } else {
      assert peers[..i] == peers;
    }
  }

  /** The loop that builds `int_list`. */
  method GatherMembers(tb: Testbed, local: nat, peers: seq<Peer>) returns (r: Result<seq<nat>>)
    requires tb.Valid()
    ensures r == Gather(tb, local, peers)
  {
    var m := [local];
    var i := 0;
    while i < |peers|
      invariant 0 <= i <= |peers|
      invariant Gather(tb, local, peers[..i]) == Ok(m)
    {
      assert peers[..i + 1][..i] == peers[..i];
      var x := tb.InterfaceOf(peers[i].destHost, peers[i].destPort);
      if x.Err? {
        GatherSticky(tb, local, peers, i + 1);
        return Err(x.error);
      }
      if x.value !in m {
        m := m + [x.value];
      }
      i := i + 1;
    }
    assert peers[..i] == peers;
    return Ok(m);
  }

  lemma {:induction false} ExtendLinkSticky(tb: Testbed, l: nat, peers: seq<Peer>, i: nat)
    requires tb.Valid() && l < |tb.links| && i <= |peers| && ExtendLink(tb, l, peers[..i]).Err?
    ensures ExtendLink(tb, l, peers) == ExtendLink(tb, l, peers[..i])
    decreases |peers| - i
  {
    if i < |peers| {
      assert peers[..i + 1][..i] == peers[..i];
      ExtendLinkSticky(tb, l, peers, i + 1);
    } else {
      assert peers[..i] == peers;
    }
  }

  /** One iteration of the neighbour loop: the prefix grows by one
      neighbour, and a failed lookup is the result of the whole loop. */
  lemma ExtendLinkStep(tb: Testbed, l: nat, peers: seq<Peer>, i: nat, t: Testbed)
    requires tb.Valid() && l < |tb.links| && i < |peers| && ExtendLink(tb, l, peers[..i]) == Ok(t)
    ensures t.Valid() && l < |t.links|
    ensures var x := PeerInterface(t, peers[i]);
      ExtendLink(tb, l, peers[..i + 1]) ==
        (if x.Err? then Err(x.error) else if x.value in t.links[l].members then Ok(t) else Ok(ConnectTo(t, l, x.value)))
    ensures PeerInterface(t, peers[i]).Err? ==> ExtendLink(tb, l, peers) == Err(PeerInterface(t, peers[i]).error)
  {
    assert peers[..i + 1][..i] == peers[..i];
    if PeerInterface(t, peers[i]).Err? {
      ExtendLinkSticky(tb, l, peers, i + 1);
    }
  }

  lemma WriteItemsSnoc(tb: Testbed, items: seq<Item>, it: Item)
    requires tb.Valid()
    ensures var r0 := WriteItems(tb, items);
      WriteItems(tb, items + [it]) == if r0.Err? then r0 else WriteInterface(r0.value, it)
  {
    assert (items + [it])[..|items|] == items;
    WriteItemsNext(tb, items + [it]);
  }

  lemma {:induction false} WriteItemsSticky(tb: Testbed, items: seq<Item>, n: nat)
    requires tb.Valid() && n <= |items| && WriteItems(tb, items[..n]).Err?
    ensures WriteItems(tb, items) == WriteItems(tb, items[..n])
    decreases |items| - n
  {
    if n < |items| {
      assert items[..n + 1] == items[..n] + [items[n]];
      WriteItemsSnoc(tb, items[..n], items[n]);
      WriteItemsSticky(tb, items, n + 1);
    } else {
      assert items[..n] == items;
    }
  }

  /** The items of the first `i + 1` devices are those of the first `i`
      followed by the device's own, and they start the items of all. */
  lemma {:induction false} ItemsPrefix(conns: OMap<string, ConnectionDict>, devs: seq<string>, i: nat)
    requires ConnectionsValid(conns) && (forall d :: d in devs ==> d in conns.values) && i < |devs|
    ensures Items(conns, devs[..i + 1]) == Items(conns, devs[..i]) + DeviceItems(devs[i], conns.values[devs[i]])
    ensures Items(conns, devs[..i + 1]) <= Items(conns, devs)
    decreases |devs|
  {
    assert devs[..i + 1][..i] == devs[..i];
    if i + 1 == |devs| {
      assert devs[..i + 1] == devs;
    } else {
      var pre := devs[..|devs| - 1];
      assert pre[..i + 1] == devs[..i + 1];
      ItemsPrefix(conns, pre, i);
    }
  }

  /** The pass over `a + b` is the pass over `b` started where the pass
      over `a` ended. */
  lemma {:induction false} WriteItemsAppend(tb: Testbed, a: seq<Item>, b: seq<Item>)
    requires tb.Valid()
    ensures var r0 := WriteItems(tb, a);
      WriteItems(tb, a + b) == if r0.Err? then r0 else WriteItems(r0.value, b)
    decreases |b|
  {
    if b == [] {
      assert a + b == a;
    } else {
      var b' := b[..|b| - 1];
      var last := b[|b| - 1];
      assert a + b == (a + b') + [last];
      assert b == b' + [last];
      WriteItemsAppend(tb, a, b');
      WriteItemsSnoc(tb, a + b', last);
      var r0 := WriteItems(tb, a);
      if r0.Ok? {
        WriteItemsSnoc(r0.value, b', last);
      }
    }
  }

  /** One iteration of a loop over `items`: the pass over the first
      `j + 1` items is the write of item `j` after the first `j`. */
  lemma WriteItemsStep(tb: Testbed, items: seq<Item>, j: nat, t: Testbed)
    requires tb.Valid() && j < |items| && WriteItems(tb, items[..j]) == Ok(t) && t.Valid()
    ensures WriteItems(tb, items[..j + 1]) == WriteInterface(t, items[j])
  {
    var next := items[..j + 1];
    assert next[..j] == items[..j] && next[j] == items[j];
    WriteItemsNext(tb, next);
  }

  /** Once the write of item `j` fails, the whole pass has. */
  lemma WriteItemsStepErr(tb: Testbed, items: seq<Item>, j: nat, t: Testbed)
    requires tb.Valid() && j < |items| && WriteItems(tb, items[..j]) == Ok(t) && t.Valid()
    requires WriteInterface(t, items[j]).Err?
    ensures WriteItems(tb, items) == WriteInterface(t, items[j])
  {
    WriteItemsStep(tb, items, j, t);
    WriteItemsSticky(tb, items, j + 1);
  }

  /** One iteration of the loop over the devices: the pass over the first
      `i + 1` devices is the pass over device `i` after the first `i`, and
      once that fails the whole pass has. */
  lemma WriteConnectionsStep(conns: OMap<string, ConnectionDict>, tb: Testbed, i: nat, t: Testbed)
    requires tb.Valid() && ConnectionsValid(conns) && i < |conns.keys| && t.Valid()
    requires WriteItems(tb, Items(conns, conns.keys[..i])) == Ok(t)
    ensures var d := conns.keys[i];
      var r := WriteItems(t, DeviceItems(d, conns.values[d]));
      WriteItems(tb, Items(conns, conns.keys[..i + 1])) == r &&
      (r.Err? ==> WriteItems(tb, Items(conns, conns.keys)) == r)
  {
    var d := conns.keys[i];
    ItemsPrefix(conns, conns.keys, i);
    WriteItemsAppend(tb, Items(conns, conns.keys[..i]), DeviceItems(d, conns.values[d]));
    var done := Items(conns, conns.keys[..i + 1]);
    var all := Items(conns, conns.keys);
    if WriteItems(tb, done).Err? {
      assert all[..|done|] == done;
      WriteItemsSticky(tb, all, |done|);
    }
  }
}
