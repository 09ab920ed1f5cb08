/** The neighbour merge of one visited device (topology.py lines 225-422):
    each CDP entry and each LLDP neighbour goes through a chain of filters,
    and the ones that pass are recorded in both accumulators. */
module Merger {
  import opened Wrappers
  import opened Text
  import opened OMaps
  import opened IPv4
  import opened Names
  import opened OsClassifier
  import opened Accumulators
  import opened Testbeds

  /** One entry of the `show cdp neighbors detail` result. `None` stands for
      a missing key. The address lists are the keys of the parser's address
      dictionaries, in their order. */
  datatype CdpEntry = CdpEntry(
    deviceId: Option<string>,
    systemName: Option<string>,
    localInterface: string,
    portId: string,
    managementAddresses: seq<string>,
    interfaceAddresses: seq<string>,
    softwareVersion: string,
    platform: string)

  datatype LldpNeighbor = LldpNeighbor(
    managementAddress: Option<string>,
    managementAddressV4: Option<string>,
    systemDescription: string)

  /** A remote port and its `neighbors` dictionary, in order. */
  datatype LldpPort = LldpPort(portId: string, neighbors: seq<(string, LldpNeighbor)>)

  datatype LldpInterface = LldpInterface(name: string, ports: seq<LldpPort>)

  datatype LldpTable = LldpTable(totalEntries: int, interfaces: seq<LldpInterface>)

  /** What one device reports: the CDP entries (none when the `cdp` result
      is missing or empty) and the LLDP table (`None` when the `lldp` result
      is missing or empty). */
  datatype NeighborData = NeighborData(cdp: seq<CdpEntry>, lldp: Option<LldpTable>)

  /** The creator's options that the filters read. `excludeInterfaces` is
      the raw option string: a port is excluded when its name occurs in it. */
  datatype Filters = Filters(onlyLinks: bool, excludeInterfaces: string, excludeNetworks: seq<Network>)

  /** `connection_dict` and `device_list` together. */
  datatype Acc = Acc(connections: ConnectionDict, devices: DeviceList)

  ghost predicate AccValid(a: Acc) { a.connections.Valid() && a.devices.Valid() }

  /** Records one sighting in both accumulators. */
  function Record(a: Acc, host: string, port: string, iface: string, ints: set<string>,
                  mgmt: set<Option<string>>, os: Option<string>, device: string): (r: Acc)
    ensures AccValid(a) ==> AccValid(r)
  {
    Acc(ConnectionAdd(a.connections, Peer(host, port), iface),
        AddToDeviceList(a.devices, host, port, ints, mgmt, os, device))
  }

  // ---------------------------------------------------------------------
  // Excluded networks.

  /** The `product(addresses, networks)` scan: `Ok(true)` when an address
      lies in a network, an error for the first address that is not IPv4
      before that, `Ok(false)` otherwise. No address is read when there are
      no networks. */
  function ScanAddresses(addrs: seq<string>, nets: seq<Network>): Result<bool>
  {
    if nets == [] || addrs == [] then Ok(false)
    else
      match ParseAddress(addrs[0])
      case None => Err(AddressValueError(addrs[0]))
      case Some(a) => if InAny(a, nets) then Ok(true) else ScanAddresses(addrs[1..], nets)
  }

  /** A single address is scanned on its own. */
  lemma ScanOne(x: string, nets: seq<Network>)
    ensures ScanAddresses([x], nets) ==
      if nets == [] then Ok(false)
      else match ParseAddress(x)
        case None => Err(AddressValueError(x))
        case Some(a) => Ok(InAny(a, nets))
  {
    assert [x][1..] == [];
  }

  /** A hit is an address in a network. */
  lemma {:induction false} ScanHit(addrs: seq<string>, nets: seq<Network>)
    requires ScanAddresses(addrs, nets) == Ok(true)
    ensures exists i :: 0 <= i < |addrs| && ParseAddress(addrs[i]).Some? && InAny(ParseAddress(addrs[i]).value, nets)
  {
    if ParseAddress(addrs[0]).Some? && !InAny(ParseAddress(addrs[0]).value, nets) {
      ScanHit(addrs[1..], nets);
      var i :| 0 <= i < |addrs| - 1 && ParseAddress(addrs[1..][i]).Some? && InAny(ParseAddress(addrs[1..][i]).value, nets);
      assert addrs[1..][i] == addrs[i + 1];
    }
  }

  /** A miss means that no address is in a network, or that there are no
      networks. */
  lemma {:induction false} ScanMiss(addrs: seq<string>, nets: seq<Network>)
    requires ScanAddresses(addrs, nets) == Ok(false)
    ensures nets == [] || forall i :: 0 <= i < |addrs| ==> ParseAddress(addrs[i]).Some? && !InAny(ParseAddress(addrs[i]).value, nets)
  {
    if nets != [] && addrs != [] {
      ScanMiss(addrs[1..], nets);
      forall i | 1 <= i < |addrs| ensures ParseAddress(addrs[i]).Some? && !InAny(ParseAddress(addrs[i]).value, nets) {
        assert addrs[1..][i - 1] == addrs[i];
      }
    }
  }

  /** An error names an address that is not IPv4. */
  lemma {:induction false} ScanError(addrs: seq<string>, nets: seq<Network>)
    requires ScanAddresses(addrs, nets).Err?
    ensures nets != [] && exists i :: 0 <= i < |addrs| && ParseAddress(addrs[i]).None? &&
                                      ScanAddresses(addrs, nets).error == AddressValueError(addrs[i])
  {
    if ParseAddress(addrs[0]).Some? {
      ScanError(addrs[1..], nets);
      var i :| 0 <= i < |addrs| - 1 && ParseAddress(addrs[1..][i]).None? &&
               ScanAddresses(addrs[1..], nets).error == AddressValueError(addrs[1..][i]);
      assert addrs[1..][i] == addrs[i + 1];
    }
  }

  /** Every address reads as IPv4. */
  predicate AllIPv4(addrs: seq<string>) {
    forall i :: 0 <= i < |addrs| ==> ParseAddress(addrs[i]).Some?
  }

  /** Some address reads as IPv4 and lies in one of the networks. */
  predicate AnyExcluded(addrs: seq<string>, nets: seq<Network>) {
    exists i :: 0 <= i < |addrs| && ParseAddress(addrs[i]).Some? && InAny(ParseAddress(addrs[i]).value, nets)
  }

  /** When every address is IPv4 the scan finds exactly whether one of them
      is in a network, so the order of the scan does not matter. */
  lemma ScanAllIPv4(addrs: seq<string>, nets: seq<Network>)
    requires AllIPv4(addrs)
    ensures ScanAddresses(addrs, nets) == Ok(AnyExcluded(addrs, nets))
  {
    var r := ScanAddresses(addrs, nets);
    if r.Err? {
      ScanError(addrs, nets);
    } else if r.value {
      ScanHit(addrs, nets);
    } else {
      ScanMiss(addrs, nets);
    }
  }

  /** The source's scan: the pairs of `product(addresses, networks)` in
      order, converting the address anew for each pair, stopping at the
      first address inside a network. */
  method ScanExcluded(addrs: seq<string>, nets: seq<Network>) returns (r: Result<bool>)
    ensures r == ScanAddresses(addrs, nets)
  {
    var i := 0;
    while i < |addrs|
      invariant 0 <= i <= |addrs|
      invariant ScanAddresses(addrs, nets) == ScanAddresses(addrs[i..], nets)
    {
      var j := 0;
      while j < |nets|
        invariant 0 <= j <= |nets|
        invariant j > 0 ==> ParseAddress(addrs[i]).Some?
        invariant forall k :: 0 <= k < j ==> !InNetwork(ParseAddress(addrs[i]).value, nets[k])
      {
        var a := ParseAddress(addrs[i]);
        if a.None? {
          return Err(AddressValueError(addrs[i]));
        }
        if InNetwork(a.value, nets[j]) {
          return Ok(true);
        }
        j := j + 1;
      }
      if nets == [] {
        return Ok(false);
      }
      assert addrs[i..][1..] == addrs[i + 1..];
      i := i + 1;
    }
    return Ok(false);
  }

  // ---------------------------------------------------------------------
  // CDP

  /** `system_name`, or `device_id` when the system name is missing or
      empty. */
  function CdpDestHost(e: CdpEntry): Option<string> {
    if e.systemName.Some? && e.systemName.value != "" then e.systemName else e.deviceId
  }

  /** One iteration of the loop of `_process_cdp_information`. */
  function CdpStep(f: Filters, known: set<string>, device: string, a: Acc, e: CdpEntry): Result<Acc> {
    match CdpDestHost(e)
    case None => Err(NoHostName)
    case Some(raw) =>
      var host := NormaliseHost(raw);
      if f.onlyLinks && host !in known then Ok(a)
      else if Contains(f.excludeInterfaces, e.localInterface) then Ok(a)
      else if Contains(f.excludeInterfaces, e.portId) then Ok(a)
      else
        match ScanAddresses(e.interfaceAddresses, f.excludeNetworks)
        case Err(err) => Err(err)
        case Ok(stopInt) =>
          match ScanAddresses(e.managementAddresses, f.excludeNetworks)
          case Err(err) => Err(err)
          case Ok(stopMgmt) =>
            if stopInt || stopMgmt then Ok(a)
            else
              Ok(Record(a, host, e.portId, e.localInterface,
                        set x | x in e.interfaceAddresses,
                        set x | x in e.managementAddresses :: Some(x),
                        GetOs(e.softwareVersion, e.platform), device))
  }

  function CdpStepFn(f: Filters, known: set<string>, device: string): (Acc, CdpEntry) -> Result<Acc> {
    (a, e) => CdpStep(f, known, device, a, e)
  }

  /** The filter chain of a CDP entry: an entry for a host outside the
      testbed in links-only mode, or with an excluded local or remote port,
      leaves both accumulators as they were; so does one with an address in
      an excluded network (when all its addresses are IPv4); an entry that
      passes every filter is recorded in both, under its normalised host
      name, with its interface addresses, its management addresses and the
      OS its description names. An error needs networks to check against
      and an address that is not IPv4. */
  lemma CdpStepSpec(f: Filters, known: set<string>, device: string, a: Acc, e: CdpEntry)
    ensures CdpDestHost(e).None? ==> CdpStep(f, known, device, a, e) == Err(NoHostName)
    ensures CdpDestHost(e).Some? ==>
      var host := NormaliseHost(CdpDestHost(e).value);
      var r := CdpStep(f, known, device, a, e);
      var nets := f.excludeNetworks;
      var ipv4 := AllIPv4(e.interfaceAddresses) && AllIPv4(e.managementAddresses);
      var hit := AnyExcluded(e.interfaceAddresses, nets) || AnyExcluded(e.managementAddresses, nets);
      ((f.onlyLinks && host !in known) ==> r == Ok(a)) &&
      ((Contains(f.excludeInterfaces, e.localInterface) || Contains(f.excludeInterfaces, e.portId)) ==> r == Ok(a)) &&
      (ipv4 && hit ==> r == Ok(a)) &&
      ((!f.onlyLinks || host in known) && !Contains(f.excludeInterfaces, e.localInterface) &&
       !Contains(f.excludeInterfaces, e.portId) && ipv4 && !hit ==>
         r == Ok(Record(a, host, e.portId, e.localInterface,
                        set x | x in e.interfaceAddresses,
                        set x | x in e.managementAddresses :: Some(x),
                        GetOs(e.softwareVersion, e.platform), device))) &&
      (r.Err? ==> nets != [] && !ipv4)
  {
    var ints, mgmts, nets := e.interfaceAddresses, e.managementAddresses, f.excludeNetworks;
    if AllIPv4(ints) {
      ScanAllIPv4(ints, nets);
    }
    if AllIPv4(mgmts) {
      ScanAllIPv4(mgmts, nets);
    }
    if ScanAddresses(ints, nets).Err? {
      ScanError(ints, nets);
    } else if ScanAddresses(mgmts, nets).Err? {
      ScanError(mgmts, nets);
    }
  }

  // ---------------------------------------------------------------------
  // LLDP

  /** The `(interface, port)` pairs of the table, in the order of the two
      nested loops. */
  function PortPairs(i: LldpInterface): (r: seq<(string, LldpPort)>)
    ensures |r| == |i.ports| && forall k :: 0 <= k < |r| ==> r[k] == (i.name, i.ports[k])
  {
    seq(|i.ports|, k requires 0 <= k < |i.ports| => (i.name, i.ports[k]))
  }

  function LldpPairs(ifs: seq<LldpInterface>): seq<(string, LldpPort)>
  {
    if ifs == [] then [] else LldpPairs(ifs[..|ifs| - 1]) + PortPairs(ifs[|ifs| - 1])
  }

  /** The pairs of a prefix of the interfaces come first. */
  lemma {:induction false} LldpPairsPrefix(ifs: seq<LldpInterface>, i: nat)
    requires i <= |ifs|
    ensures LldpPairs(ifs[..i]) <= LldpPairs(ifs)
    decreases |ifs|
  {
    if i < |ifs| {
      var pre := ifs[..|ifs| - 1];
      assert pre[..i] == ifs[..i];
      LldpPairsPrefix(pre, i);
    } else {
      assert ifs[..i] == ifs;
    }
  }

  /** The two nested loops of `_process_lldp_information` as written: the
      ports of each interface in turn, stopping at the first error. */
  function LldpFold(step: (Acc, (string, LldpPort)) -> Result<Acc>, a0: Acc, ifs: seq<LldpInterface>): Result<Acc>
    decreases |ifs|
  {
    if ifs == [] then Ok(a0)
    else
      match LldpFold(step, a0, ifs[..|ifs| - 1])
      case Err(e) => Err(e)
      case Ok(a) => Fold(step, a, PortPairs(ifs[|ifs| - 1]))
  }

  /** The nested loops are one loop over all the pairs. */
  lemma {:induction false} LldpFoldIsFold(step: (Acc, (string, LldpPort)) -> Result<Acc>, a0: Acc, ifs: seq<LldpInterface>)
    ensures LldpFold(step, a0, ifs) == Fold(step, a0, LldpPairs(ifs))
    decreases |ifs|
  {
    if ifs != [] {
      var pre := ifs[..|ifs| - 1];
      LldpFoldIsFold(step, a0, pre);
      FoldAppend(step, a0, LldpPairs(pre), PortPairs(ifs[|ifs| - 1]));
    }
  }

  /** Once an interface has failed, the later ones do not matter. */
  lemma {:induction false} LldpFoldSticky(step: (Acc, (string, LldpPort)) -> Result<Acc>, a0: Acc, ifs: seq<LldpInterface>, i: nat)
    requires i <= |ifs| && LldpFold(step, a0, ifs[..i]).Err?
    ensures LldpFold(step, a0, ifs) == LldpFold(step, a0, ifs[..i])
    decreases |ifs|
  {
    if i < |ifs| {
      var pre := ifs[..|ifs| - 1];
      assert pre[..i] == ifs[..i];
      LldpFoldSticky(step, a0, pre, i);
    } else {
      assert ifs[..i] == ifs;
    }
  }

  /** One more interface of `LldpFold`, and what an error in it leaves. */
  lemma LldpFoldNext(step: (Acc, (string, LldpPort)) -> Result<Acc>, a0: Acc, ifs: seq<LldpInterface>, i: nat, a: Acc)
    requires i < |ifs| && LldpFold(step, a0, ifs[..i]) == Ok(a)
    ensures LldpFold(step, a0, ifs[..i + 1]) == Fold(step, a, PortPairs(ifs[i]))
    ensures Fold(step, a, PortPairs(ifs[i])).Err? ==> LldpFold(step, a0, ifs) == Fold(step, a, PortPairs(ifs[i]))
  {
    assert ifs[..i + 1][..i] == ifs[..i];
    if Fold(step, a, PortPairs(ifs[i])).Err? {
      LldpFoldSticky(step, a0, ifs, i + 1);
    }
  }

  /** `LldpFoldNext` restated over the flattened pairs. */
  lemma LldpPairsNext(step: (Acc, (string, LldpPort)) -> Result<Acc>, a0: Acc, ifs: seq<LldpInterface>, i: nat, a: Acc)
    requires i < |ifs| && Fold(step, a0, LldpPairs(ifs[..i])) == Ok(a)
    ensures Fold(step, a0, LldpPairs(ifs[..i + 1])) == Fold(step, a, PortPairs(ifs[i]))
    ensures Fold(step, a, PortPairs(ifs[i])).Err? ==> Fold(step, a0, LldpPairs(ifs)) == Fold(step, a, PortPairs(ifs[i]))
  {
    LldpFoldIsFold(step, a0, ifs[..i]);
    LldpFoldIsFold(step, a0, ifs[..i + 1]);
    LldpFoldIsFold(step, a0, ifs);
    LldpFoldNext(step, a0, ifs, i, a);
  }

  /** The address a neighbour is recorded with: `management_address`, or
      `management_address_v4` when there is none. */
  function LldpAddress(n: LldpNeighbor): Option<string> {
    if n.managementAddress.Some? then n.managementAddress else n.managementAddressV4
  }

  /** One iteration of the inner loop of `_process_lldp_information`. Unlike
      CDP, the links-only test reads the neighbour name before it is
      normalised. */
  function LldpStep(f: Filters, known: set<string>, device: string, a: Acc, pair: (string, LldpPort)): Result<Acc> {
    var (iface, port) := pair;
    if port.neighbors == [] then Err(NoNeighbor(port.portId))
    else
      var (raw, neighbor) := port.neighbors[0];
      if f.onlyLinks && raw !in known then Ok(a)
      else if Contains(f.excludeInterfaces, iface) then Ok(a)
      else if Contains(f.excludeInterfaces, port.portId) then Ok(a)
      else
        var ip := LldpAddress(neighbor);
        match (if ip.Some? && f.excludeNetworks != [] then ScanAddresses([ip.value], f.excludeNetworks) else Ok(false))
        case Err(err) => Err(err)
        case Ok(stop) =>
          if stop then Ok(a)
          else Ok(Record(a, NormaliseHost(raw), port.portId, iface, {}, {ip},
                         GetOs(neighbor.systemDescription, ""), device))
  }

  function LldpStepFn(f: Filters, known: set<string>, device: string): (Acc, (string, LldpPort)) -> Result<Acc> {
    (a, pair) => LldpStep(f, known, device, a, pair)
  }

  /** The filter chain of an LLDP neighbour: the address is
      `management_address` with `management_address_v4` as fallback; it is
      checked against the networks only when there is one and networks are
      configured; a neighbour that passes is recorded with no interface
      addresses and exactly that address. */
  lemma LldpStepSpec(f: Filters, known: set<string>, device: string, a: Acc, iface: string, port: LldpPort)
    ensures port.neighbors == [] ==> LldpStep(f, known, device, a, (iface, port)) == Err(NoNeighbor(port.portId))
    ensures port.neighbors != [] ==>
      var (raw, neighbor) := port.neighbors[0];
      var ip := LldpAddress(neighbor);
      var r := LldpStep(f, known, device, a, (iface, port));
      var checked := ip.Some? && f.excludeNetworks != [];
      ((f.onlyLinks && raw !in known) ==> r == Ok(a)) &&
      ((Contains(f.excludeInterfaces, iface) || Contains(f.excludeInterfaces, port.portId)) ==> r == Ok(a)) &&
      (checked && ParseAddress(ip.value).Some? && InAny(ParseAddress(ip.value).value, f.excludeNetworks) ==> r == Ok(a)) &&
      ((!f.onlyLinks || raw in known) && !Contains(f.excludeInterfaces, iface) &&
       !Contains(f.excludeInterfaces, port.portId) &&
       (checked ==> ParseAddress(ip.value).Some? && !InAny(ParseAddress(ip.value).value, f.excludeNetworks)) ==>
         r == Ok(Record(a, NormaliseHost(raw), port.portId, iface, {}, {ip},
                        GetOs(neighbor.systemDescription, ""), device))) &&
      (r.Err? ==> checked && r.error == AddressValueError(ip.value) && ParseAddress(ip.value).None?)
  {
    if port.neighbors != [] {
      var ip := LldpAddress(port.neighbors[0].1);
      if ip.Some? {
        ScanOne(ip.value, f.excludeNetworks);
      }
    }
  }

  /** In links-only mode the LLDP test compares the reported name, not the
      normalised one: a neighbour that reports the fully qualified name of a
      testbed device is skipped. */
  lemma LldpOnlyLinksSkipsQualifiedName(a: Acc, device: string)
    ensures var nb := LldpNeighbor(None, None, "");
      LldpStep(Filters(true, "", []), {"edge1"}, device, a, ("Gi0/2", LldpPort("Gi0/1", [("edge1.example.com", nb)]))) == Ok(a)
  {
    assert "edge1.example.com" !in {"edge1"} by {
      assert "edge1.example.com" != "edge1";
    }
  }

  /** The other side of the same test: a neighbour whose reported name is in
      the testbed is recorded under the normalised name, even when that name
      is not in the testbed. */
  lemma LldpOnlyLinksUsesRawName(a: Acc, device: string)
    ensures var nb := LldpNeighbor(None, None, "");
      LldpStep(Filters(true, "", []), {"edge1.example.com"}, device, a, ("Gi0/2", LldpPort("Gi0/1", [("edge1.example.com", nb)]))) ==
        Ok(Record(a, "edge1", "Gi0/1", "Gi0/2", {}, {None}, None, device))
  {
    var nb := LldpNeighbor(None, None, "");
    var port := LldpPort("Gi0/1", [("edge1.example.com", nb)]);
    LldpStepSpec(Filters(true, "", []), {"edge1.example.com"}, device, a, "Gi0/2", port);
    assert LldpAddress(nb) == None;
    NormaliseHostExample();
    assert !Contains("", "Gi0/2") && !Contains("", "Gi0/1");
    assert !Contains("", "IOS") && !Contains("", "NX-OS");
  }

  /** Each successful step keeps both accumulators well-formed. */
  lemma StepsKeepValid(f: Filters, known: set<string>, device: string)
    ensures forall a, e :: AccValid(a) && CdpStepFn(f, known, device)(a, e).Ok? ==>
                           AccValid(CdpStepFn(f, known, device)(a, e).value)
    ensures forall a, p :: AccValid(a) && LldpStepFn(f, known, device)(a, p).Ok? ==>
                           AccValid(LldpStepFn(f, known, device)(a, p).value)
  {
  }

  // ---------------------------------------------------------------------
  // get_device_connections

  /** What `get_device_connections` produces: its `connection_dict`, and the
      `device_list` and testbed it has updated. */
  datatype Outcome = Outcome(connections: ConnectionDict, devices: DeviceList, testbed: Testbed)

  /** One pass of the final loop of `get_device_connections`: an interface
      the device does not have yet is created with its derived type and
      registered on the device. */
  function AddMissingInterface(tb: Testbed, device: string, n: string): (r: Result<Testbed>)
    ensures r.Ok? && tb.Valid() ==> r.value.Valid()
    ensures r.Ok? ==> tb.interfaces <= r.value.interfaces
    ensures r.Ok? ==> r.value.links == tb.links && r.value.proxies == tb.proxies &&
                      r.value.devices.keys == tb.devices.keys && r.value.devices.values.Keys == tb.devices.values.Keys
  {
    if device !in tb.devices.values then Err(UnknownDevice(device))
    else if n in tb.devices.values[device].interfaces then Ok(tb)
    else
      match InterfaceType(n)
      case Err(e) => Err(e)
      case Ok(ty) => Ok(tb.AddInterface(device, n, ty))
  }

  /** `t` differs from `tb` at most by new interfaces of `device`: every
      other device is as it was, and the device keeps the interfaces it had. */
  ghost predicate Grows(tb: Testbed, t: Testbed, device: string) {
    (forall d :: d in tb.devices.values && d != device ==> d in t.devices.values && t.devices.values[d] == tb.devices.values[d]) &&
    (device in tb.devices.values ==>
       (device in t.devices.values &&
        forall n :: n in tb.devices.values[device].interfaces ==>
          n in t.devices.values[device].interfaces &&
          t.devices.values[device].interfaces[n] == tb.devices.values[device].interfaces[n]))
  }

  lemma GrowsTransitive(a: Testbed, b: Testbed, c: Testbed, device: string)
    requires Grows(a, b, device) && Grows(b, c, device)
    ensures Grows(a, c, device)
  {
  }

  /** One pass succeeds exactly when the device exists and the interface is
      already there or has a type; then the interface is registered, and the
      device gains no other. */
  lemma AddMissingInterfaceSpec(tb: Testbed, device: string, n: string)
    ensures var r := AddMissingInterface(tb, device, n);
      (r.Ok? <==> device in tb.devices.values && (n in tb.devices.values[device].interfaces || InterfaceType(n).Ok?)) &&
      (r.Ok? ==> Grows(tb, r.value, device) && n in r.value.devices.values[device].interfaces &&
                 forall m :: m in r.value.devices.values[device].interfaces ==>
                   m in tb.devices.values[device].interfaces || m == n) &&
      (r.Err? ==> r.error == if device in tb.devices.values then NoInterfaceType(n) else UnknownDevice(device))
  {
  }

  /** The final loop of `get_device_connections` over all of `names`. */
  function AddMissingInterfaces(tb: Testbed, device: string, names: seq<string>): (r: Result<Testbed>)
    ensures r.Ok? && tb.Valid() ==> r.value.Valid()
    ensures r.Ok? ==> r.value.links == tb.links && r.value.proxies == tb.proxies &&
                      r.value.devices.keys == tb.devices.keys && r.value.devices.values.Keys == tb.devices.values.Keys
    ensures r.Ok? ==> tb.interfaces <= r.value.interfaces
    decreases |names|
  {
    if names == [] then Ok(tb)
    else
      match AddMissingInterfaces(tb, device, names[..|names| - 1])
      case Err(e) => Err(e)
      case Ok(t) => AddMissingInterface(t, device, names[|names| - 1])
  }

  /** On success every name is an interface of the device, the device gains
      no other, and the rest of the testbed is as it was. */
  lemma {:induction false} AddMissingInterfacesSpec(tb: Testbed, device: string, names: seq<string>)
    ensures var r := AddMissingInterfaces(tb, device, names);
      r.Ok? ==>
        (Grows(tb, r.value, device) &&
         r.value.links == tb.links && r.value.devices.keys == tb.devices.keys &&
         (names != [] ==> device in tb.devices.values) &&
         (forall n :: n in names ==> n in r.value.devices.values[device].interfaces) &&
         (device in tb.devices.values ==>
            forall n :: n in r.value.devices.values[device].interfaces ==>
              n in tb.devices.values[device].interfaces || n in names))
    decreases |names|
  {
    if names != [] {
      var pre := names[..|names| - 1];
      var n := names[|names| - 1];
      AddMissingInterfacesSpec(tb, device, pre);
      var r0 := AddMissingInterfaces(tb, device, pre);
      if r0.Ok? {
        AddMissingInterfaceSpec(r0.value, device, n);
        var r := AddMissingInterface(r0.value, device, n);
        if r.Ok? {
          GrowsTransitive(tb, r0.value, r.value, device);
          assert forall m :: m in names ==> m in pre || m == n;
        }
      }
    }
  }

  /** The loop fails only for a device that is not in the testbed or for an
      interface name without a type. */
  lemma {:induction false} AddMissingInterfacesErr(tb: Testbed, device: string, names: seq<string>)
    ensures var r := AddMissingInterfaces(tb, device, names);
      r.Err? ==>
        (names != [] &&
         ((device !in tb.devices.values && r.error == UnknownDevice(device)) ||
          exists n :: n in names && r.error == NoInterfaceType(n) && InterfaceType(n).Err?))
    decreases |names|
  {
    if names != [] {
      var pre := names[..|names| - 1];
      var n := names[|names| - 1];
      AddMissingInterfacesErr(tb, device, pre);
      AddMissingInterfacesSpec(tb, device, pre);
      var r0 := AddMissingInterfaces(tb, device, pre);
      assert forall m :: m in pre ==> m in names;
      if r0.Ok? {
        AddMissingInterfaceSpec(r0.value, device, n);
      }
    }
  }

  /** `get_device_connections`: the CDP entries when there are any, then the
      LLDP table when there is one with entries, then the missing local
      interfaces. */
  function DeviceConnections(data: NeighborData, device: string, f: Filters, dl: DeviceList, tb: Testbed): (r: Result<Outcome>)
    ensures r.Ok? && tb.Valid() ==> r.value.testbed.Valid()
  {
    var known := tb.devices.values.Keys;
    var a0 := Acc(Empty(), dl);
    match (if data.cdp != [] then Fold(CdpStepFn(f, known, device), a0, data.cdp) else Ok(a0))
    case Err(e) => Err(e)
    case Ok(a1) =>
      match (if data.lldp.Some? && data.lldp.value.totalEntries != 0
             then Fold(LldpStepFn(f, known, device), a1, LldpPairs(data.lldp.value.interfaces)) else Ok(a1))
      case Err(e) => Err(e)
      case Ok(a2) =>
        match AddMissingInterfaces(tb, device, a2.connections.keys)
        case Err(e) => Err(e)
        case Ok(t) => Ok(Outcome(a2.connections, a2.devices, t))
  }

  /** A table that reports no entries contributes nothing, like a missing
      one. */
  lemma LldpZeroEntries(cdp: seq<CdpEntry>, ifs: seq<LldpInterface>, device: string, f: Filters, dl: DeviceList, tb: Testbed)
    ensures DeviceConnections(NeighborData(cdp, Some(LldpTable(0, ifs))), device, f, dl, tb) ==
            DeviceConnections(NeighborData(cdp, None), device, f, dl, tb)
  {
  }

  /** After a successful merge every local interface with a connection is an
      interface of the device, so the later lookups of those interfaces
      succeed; the accumulators stay well-formed; the testbed's links and
      other devices are untouched. */
  lemma DeviceConnectionsSpec(data: NeighborData, device: string, f: Filters, dl: DeviceList, tb: Testbed)
    requires tb.Valid() && dl.Valid()
    ensures var r := DeviceConnections(data, device, f, dl, tb);
      r.Ok? ==>
        r.value.testbed.Valid() && r.value.connections.Valid() && r.value.devices.Valid() &&
        (r.value.connections.keys != [] ==> device in r.value.testbed.devices.values) &&
        (forall n :: n in r.value.connections.values ==> n in r.value.testbed.devices.values[device].interfaces) &&
        r.value.testbed.links == tb.links && r.value.testbed.devices.keys == tb.devices.keys &&
        Grows(tb, r.value.testbed, device)
  {
    var known := tb.devices.values.Keys;
    var a0 := Acc(Empty(), dl);
    StepsKeepValid(f, known, device);
    FoldInvariant(CdpStepFn(f, known, device), a => AccValid(a), a0, data.cdp);
    var r1 := if data.cdp != [] then Fold(CdpStepFn(f, known, device), a0, data.cdp) else Ok(a0);
    if r1.Ok? && data.lldp.Some? {
      FoldInvariant(LldpStepFn(f, known, device), a => AccValid(a), r1.value, LldpPairs(data.lldp.value.interfaces));
    }
    var r2 := if r1.Ok? && data.lldp.Some? && data.lldp.value.totalEntries != 0
              then Fold(LldpStepFn(f, known, device), r1.value, LldpPairs(data.lldp.value.interfaces)) else r1;
    if r2.Ok? {
      AddMissingInterfacesSpec(tb, device, r2.value.connections.keys);
    }
  }

  // ---------------------------------------------------------------------
  // Every recorded peer is a recorded device port.

  /** Every peer behind an interface of `cd` is a host of `dl` that was seen
      on that port. */
  ghost predicate PeersListed(cd: ConnectionDict, dl: DeviceList) {
    forall i, k :: i in cd.values && 0 <= k < |cd.values[i]| ==>
      cd.values[i][k].destHost in dl.values && cd.values[i][k].destPort in dl.values[cd.values[i][k].destHost].ports
  }

  /** `dl'` has every host of `dl`, with at least the ports it had. */
  ghost predicate PortsGrow(dl: DeviceList, dl': DeviceList) {
    forall h :: h in dl.values ==> h in dl'.values && dl.values[h].ports <= dl'.values[h].ports
  }

  lemma PortsGrowTransitive(a: DeviceList, b: DeviceList, c: DeviceList)
    requires PortsGrow(a, b) && PortsGrow(b, c)
    ensures PortsGrow(a, c)
  {
  }

  /** A listing stays true when the device list grows. */
  lemma PeersListedGrow(cd: ConnectionDict, dl: DeviceList, dl': DeviceList)
    requires PeersListed(cd, dl) && PortsGrow(dl, dl')
    ensures PeersListed(cd, dl')
  {
  }

  /** Both halves of a sighting are recorded together, so the connection
      dictionary never names a peer the device list lacks. */
  lemma RecordListed(a: Acc, host: string, port: string, iface: string, ints: set<string>,
                     mgmt: set<Option<string>>, os: Option<string>, device: string)
    ensures var r := Record(a, host, port, iface, ints, mgmt, os, device);
      PortsGrow(a.devices, r.devices) &&
      (PeersListed(a.connections, a.devices) ==> PeersListed(r.connections, r.devices))
  {
    var r := Record(a, host, port, iface, ints, mgmt, os, device);
    if PeersListed(a.connections, a.devices) {
      PeersListedGrow(a.connections, a.devices, r.devices);
      forall i, k | i in r.connections.values && 0 <= k < |r.connections.values[i]|
        ensures r.connections.values[i][k].destHost in r.devices.values
        ensures r.connections.values[i][k].destPort in r.devices.values[r.connections.values[i][k].destHost].ports
      {
        var pk := r.connections.values[i][k];
        if pk != Peer(host, port) {
          assert i in a.connections.values && exists k' :: 0 <= k' < |a.connections.values[i]| && a.connections.values[i][k'] == pk;
        }
      }
    }
  }

  /** Each successful step keeps the listing and only grows the device list. */
  lemma StepsKeepListed(f: Filters, known: set<string>, device: string)
    ensures forall a, e :: CdpStepFn(f, known, device)(a, e).Ok? ==>
      var r := CdpStepFn(f, known, device)(a, e).value;
      PortsGrow(a.devices, r.devices) && (PeersListed(a.connections, a.devices) ==> PeersListed(r.connections, r.devices))
    ensures forall a, p :: LldpStepFn(f, known, device)(a, p).Ok? ==>
      var r := LldpStepFn(f, known, device)(a, p).value;
      PortsGrow(a.devices, r.devices) && (PeersListed(a.connections, a.devices) ==> PeersListed(r.connections, r.devices))
  {
    forall a, e | CdpStepFn(f, known, device)(a, e).Ok?
      ensures var r := CdpStepFn(f, known, device)(a, e).value;
        PortsGrow(a.devices, r.devices) && (PeersListed(a.connections, a.devices) ==> PeersListed(r.connections, r.devices))
    {
      var host := NormaliseHost(CdpDestHost(e).value);
      RecordListed(a, host, e.portId, e.localInterface, set x | x in e.interfaceAddresses,
                   set x | x in e.managementAddresses :: Some(x), GetOs(e.softwareVersion, e.platform), device);
    }
    forall a, p | LldpStepFn(f, known, device)(a, p).Ok?
      ensures var r := LldpStepFn(f, known, device)(a, p).value;
        PortsGrow(a.devices, r.devices) && (PeersListed(a.connections, a.devices) ==> PeersListed(r.connections, r.devices))
    {
      if p.1.neighbors != [] {
        var (raw, neighbor) := p.1.neighbors[0];
        RecordListed(a, NormaliseHost(raw), p.1.portId, p.0, {}, {LldpAddress(neighbor)},
                     GetOs(neighbor.systemDescription, ""), device);
      }
    }
  }

  /** The merge of one device's report lists every peer it records in the
      device list, and only adds to the device list. */
  lemma DeviceConnectionsListed(data: NeighborData, device: string, f: Filters, dl: DeviceList, tb: Testbed)
    ensures var r := DeviceConnections(data, device, f, dl, tb);
      r.Ok? ==> PeersListed(r.value.connections, r.value.devices) && PortsGrow(dl, r.value.devices)
  {
    var known := tb.devices.values.Keys;
    var a0 := Acc(Empty(), dl);
    StepsKeepListed(f, known, device);
    var inv := (a: Acc) => PeersListed(a.connections, a.devices) && PortsGrow(dl, a.devices);
    FoldInvariant(CdpStepFn(f, known, device), inv, a0, data.cdp);
    var r1 := if data.cdp != [] then Fold(CdpStepFn(f, known, device), a0, data.cdp) else Ok(a0);
    if r1.Ok? && data.lldp.Some? {
      FoldInvariant(LldpStepFn(f, known, device), inv, r1.value, LldpPairs(data.lldp.value.interfaces));
    }
  }

  /** Once the loop has failed, the later names do not matter. */
  lemma {:induction false} AddMissingInterfacesSticky(tb: Testbed, device: string, names: seq<string>, i: nat)
    requires i <= |names|
    requires AddMissingInterfaces(tb, device, names[..i]).Err?
    ensures AddMissingInterfaces(tb, device, names) == AddMissingInterfaces(tb, device, names[..i])
    decreases |names|
  {
    if i < |names| {
      var pre := names[..|names| - 1];
      assert pre[..i] == names[..i];
      AddMissingInterfacesSticky(tb, device, pre, i);
    } else {
      assert names[..i] == names;
    }
  }

  /** One more name of the loop is one more `AddMissingInterface`. */
  lemma AddMissingInterfacesNext(tb: Testbed, device: string, names: seq<string>, i: nat, t: Testbed)
    requires i < |names| && AddMissingInterfaces(tb, device, names[..i]) == Ok(t)
    ensures AddMissingInterfaces(tb, device, names[..i + 1]) == AddMissingInterface(t, device, names[i])
  {
    assert names[..i + 1][..i] == names[..i];
  }
}
