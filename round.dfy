/** One pass of the discovery loop of `_generate` (topology.py lines
    141-163): the frontier is queried and its reports merged, the hosts
    found become devices, and the connections found become links. */
module Rounds {
  import opened Wrappers
  import opened OMaps
  import opened Accumulators
  import opened Testbeds
  import opened Merger
  import opened Discovery
  import opened Devices
  import opened Links

  /** The devices written by `_write_devices_into_testbed` hold every
      interface the merged reports name, so the link commit that follows
      cannot fail on a lookup. */
  lemma CommitResolves(g: Gathered, proxies: seq<string>, orders: map<string, Orders>, w: Written)
    requires GatheredOk(g) && OrdersCover(g.devices, orders)
    requires WriteDevices(g.devices, proxies, g.testbed, orders) == Ok(w)
    ensures ConnectionsValid(g.connections)
    ensures (forall k :: k in w.newDevices.keys ==> k in w.newDevices.values) && AddWritten(w).Valid()
    ensures WriteConnections(g.connections, AddWritten(w)).Ok?
  {
    WriteDevicesSpec(g.devices, proxies, g.testbed, orders);
    var t := AddWritten(w);
    var conns := g.connections;
    forall d, n | d in conns.values && n in conns.values[d].values
      ensures Resolves(t, Item(d, n, conns.values[d].values[n]))
    {
      var cd := conns.values[d];
      assert cd.Valid() && PeersListed(cd, g.devices);
      assert n in cd.keys;
      assert d in g.testbed.devices.values && n in g.testbed.devices.values[d].interfaces;
      ItemResolves(t, g.devices, d, n, cd.values[n]);
    }
    ItemsResolve(t, conns);
    WriteItemsOk(t, Items(conns, conns.keys));
  }

  /** An interface of the testbed whose neighbours are all listed resolves
      once every listed port is an interface. */
  lemma ItemResolves(t: Testbed, dl: DeviceList, d: string, n: string, peers: seq<Peer>)
    requires t.Valid() && d in t.devices.values && n in t.devices.values[d].interfaces
    requires forall k :: 0 <= k < |peers| ==>
      peers[k].destHost in dl.values && peers[k].destPort in dl.values[peers[k].destHost].ports
    requires forall h, p :: h in dl.values && p in dl.values[h].ports ==>
      h in t.devices.values && p in t.devices.values[h].interfaces
    ensures Resolves(t, Item(d, n, peers))
  {
    forall p | p in peers ensures PeerInterface(t, p).Ok? {
      var k :| 0 <= k < |peers| && peers[k] == p;
    }
  }

  /** The devices of `tb` keep their interfaces through a round, and the
      hosts of the device list are devices afterwards. */
  lemma RoundKeeps(tb: Testbed, g: Gathered, proxies: seq<string>, orders: map<string, Orders>, w: Written, t: Testbed)
    requires tb.Valid() && GatheredOk(g) && KeepsInterfaces(tb, g.testbed) && OrdersCover(g.devices, orders)
    requires WriteDevices(g.devices, proxies, g.testbed, orders) == Ok(w)
    requires (forall k :: k in w.newDevices.keys ==> k in w.newDevices.values) && AddWritten(w).Valid()
    requires ConnectionsValid(g.connections) && WriteConnections(g.connections, AddWritten(w)) == Ok(t)
    ensures KeepsInterfaces(tb, t)
    ensures forall h :: h in g.devices.values ==> h in t.devices.values
  {
    WriteDevicesSpec(g.devices, proxies, g.testbed, orders);
    var a := AddWritten(w);
    WriteItemsOnly(a, Items(g.connections, g.connections.keys));
    OnlyLinksKeeps(a, t);
    KeepsInterfacesTransitive(tb, g.testbed, a);
    KeepsInterfacesTransitive(tb, a, t);
  }
}
