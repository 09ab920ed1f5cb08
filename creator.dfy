/** The `Topology` creator (topology.py lines 28-724) as an object: its
    options, `alias_dict`, and the dictionaries and testbed its methods are
    handed and update in place, held here as fields the methods reassign.
    Each method is proved against the function that specifies the same
    step in the modules it imports; the properties of the creator are
    proved about those functions. */
module Creator {
  import opened Wrappers
  import opened Text
  import opened OMaps
  import opened IPv4
  import opened OsClassifier
  import opened Names
  import opened Options
  import opened Accumulators
  import opened Testbeds
  import opened Merger
  import opened Discovery
  import opened Devices
  import opened Links
  import opened Yaml
  import opened Rounds

  /** `r` ends as `res` does: it succeeds when `res` does, and otherwise
      fails with the same error. */
  predicate Reports<T>(r: Result<()>, res: Result<T>) {
    (r.Ok? <==> res.Ok?) && (r.Err? ==> res.Err? && r.error == res.error)
  }

  class Topology {
    /** `_only_links`. */
    const onlyLinks: bool
    /** `_exclude_interfaces`, the raw option string. */
    const excludeInterfaces: string

    /** `alias_dict`. */
    var aliasDict: map<string, string>
    /** `device_list`: every neighbour host found so far. */
    var deviceList: DeviceList
    /** The `connection_dict` of the device whose report is being merged. */
    var connectionDict: ConnectionDict
    /** The testbed: the loaded file's devices and what discovery adds. */
    var testbed: Testbed
    /** `visited_devices` of the device manager. */
    var visited: set<string>
    /** `testbed_yaml`: the loaded testbed file, which the end of the run
        updates. */
    var testbedYaml: TestbedYaml

    /** The testbed and `device_list` are well-formed. */
    ghost predicate Valid()
      reads this
    {
      testbed.Valid() && deviceList.Valid()
    }

    /** The filters the neighbour merge applies, with the networks parsed
        from `exclude_network`. */
    function FiltersFor(nets: seq<Network>): (f: Filters)
      ensures f.onlyLinks == onlyLinks && f.excludeInterfaces == excludeInterfaces && f.excludeNetworks == nets
    {
      Filters(onlyLinks, excludeInterfaces, nets)
    }

    /** `connection_dict` and `device_list` as one value. */
    ghost function Accumulated(): Acc
      reads this
    {
      Acc(connectionDict, deviceList)
    }

    /** A creator with `alias_dict` empty, as `_init_arguments` leaves it,
        about to work on the loaded testbed and testbed file. */
    constructor(onlyLinks: bool, excludeInterfaces: string, tb: Testbed, file: TestbedYaml)
      requires tb.Valid()
      ensures Valid()
      ensures this.onlyLinks == onlyLinks && this.excludeInterfaces == excludeInterfaces
      ensures aliasDict == map[] && deviceList == Empty() && connectionDict == Empty()
      ensures testbed == tb && visited == {} && testbedYaml == file
    {
      this.onlyLinks := onlyLinks;
      this.excludeInterfaces := excludeInterfaces;
      aliasDict := map[];
      deviceList := Empty();
      connectionDict := Empty();
      testbed := tb;
      visited := {};
      testbedYaml := file;
    }

    // -------------------------------------------------------------------
    // _generate: the alias option

    /** Fills `alias_dict` from the `alias` option, token by token. A token
        that does not split on `:` into exactly two parts aborts with
        `InvalidAlias` (the tokens before it are already entered); a later
        token for the same device replaces an earlier one. */
    method ParseAliases(option: string) returns (r: Result<()>)
      modifies this`aliasDict
      ensures r.Ok? <==> forall t :: t in SplitWhitespace(option) ==> IsAliasEntry(t)
      ensures r.Ok? ==> aliasDict == old(aliasDict) + AliasMap(SplitWhitespace(option))
      ensures r.Err? ==> var toks := SplitWhitespace(option);
        exists i :: 0 <= i < |toks| && !IsAliasEntry(toks[i]) && r.error == InvalidAlias(toks[i]) &&
                    forall j :: 0 <= j < i ==> IsAliasEntry(toks[j])
    {
      var toks := SplitWhitespace(option);
      var i := 0;
      while i < |toks|
        invariant 0 <= i <= |toks|
        invariant forall j :: 0 <= j < i ==> IsAliasEntry(toks[j])
        invariant aliasDict == old(aliasDict) + AliasMap(toks[..i])
      {
        var parts := SplitOn(toks[i], ':');
        if |parts| != 2 {
          assert toks[i] in toks && !IsAliasEntry(toks[i]);
          return Err(InvalidAlias(toks[i]));
        }
        AliasMapNext(old(aliasDict), toks, i);
        aliasDict := aliasDict[parts[0] := parts[1]];
        i := i + 1;
      }
      assert toks[..i] == toks;
      return Ok(());
    }

    // -------------------------------------------------------------------
    // The accumulators

    /** `add_to_device_list`: the interface addresses lose the management
        ones, then a new host gets a fresh entry and a known host gains the
        port and the addresses, and its OS when it had none. */
    method AddToDeviceList(destHost: string, destPort: string, intAddress: set<string>,
                           mgmtAddress: set<Option<string>>, os: Option<string>, discoverName: string)
      modifies this`deviceList
      ensures deviceList == Accumulators.AddToDeviceList(old(deviceList), destHost, destPort, intAddress,
                                                         mgmtAddress, os, discoverName)
    {
      var ints := WithoutManagement(intAddress, mgmtAddress);
      if destHost !in deviceList.values {
        deviceList := deviceList.Put(destHost, DeviceRecord({destPort}, mgmtAddress, os, Finder(discoverName, ints)));
      } else {
        var entry := deviceList.values[destHost];
        if entry.os.None? {
          entry := entry.(os := os);
        }
        entry := entry.(ports := entry.ports + {destPort});
        entry := entry.(ip := entry.ip + mgmtAddress);
        deviceList := deviceList.Put(destHost, entry);
      }
    }

    /** `add_to_connection_dict`: looks for the peer among those listed
        under the interface and appends it when the search finds nothing
        (the `for ... else` of the source). */
    method AddToConnectionDict(destHost: string, destPort: string, iface: string)
      modifies this`connectionDict
      ensures connectionDict == ConnectionAdd(old(connectionDict), Peer(destHost, destPort), iface)
    {
      var newEntry := Peer(destHost, destPort);
      if iface !in connectionDict.values {
        connectionDict := connectionDict.Put(iface, [newEntry]);
        return;
      }
      var peers := connectionDict.values[iface];
      var found := false;
      var i := 0;
      while i < |peers| && !found
        invariant 0 <= i <= |peers|
        invariant found <==> i > 0 && peers[i - 1] == newEntry
        invariant forall j :: 0 <= j < i - 1 ==> peers[j] != newEntry
        invariant !found ==> forall j :: 0 <= j < i ==> peers[j] != newEntry
      {
        if peers[i].destHost == destHost && peers[i].destPort == destPort {
          found := true;
        }
        i := i + 1;
      }
      if !found {
        connectionDict := connectionDict.Put(iface, peers + [newEntry]);
      } else {
        assert connectionDict.values[iface := peers] == connectionDict.values;
      }
    }

    // -------------------------------------------------------------------
    // _process_cdp_information

    /** The body of the loop of `_process_cdp_information` for one entry;
        each `continue` of the source leaves both dictionaries as they
        were. */
    method ProcessCdpEntry(e: CdpEntry, device: string, nets: seq<Network>, tb: Testbed) returns (r: Result<()>)
      modifies this`connectionDict, this`deviceList
      ensures var res := CdpStep(FiltersFor(nets), tb.devices.values.Keys, device, old(Accumulated()), e);
        Reports(r, res) && (r.Ok? ==> Accumulated() == res.value)
    {
      var raw := CdpDestHost(e);
      if raw.None? {
        return Err(NoHostName);
      }
      var host := NormaliseHost(raw.value);
      if onlyLinks && host !in tb.devices.values {
        return Ok(());
      }
      if Contains(excludeInterfaces, e.localInterface) || Contains(excludeInterfaces, e.portId) {
        return Ok(());
      }
      var stopInt := ScanExcluded(e.interfaceAddresses, nets);
      if stopInt.Err? {
        return Err(stopInt.error);
      }
      var stopMgmt := ScanExcluded(e.managementAddresses, nets);
      if stopMgmt.Err? {
        return Err(stopMgmt.error);
      }
      if stopInt.value || stopMgmt.value {
        return Ok(());
      }
      var os := GetOs(e.softwareVersion, e.platform);
      AddToDeviceList(host, e.portId, set x | x in e.interfaceAddresses,
                      set x | x in e.managementAddresses :: Some(x), os, device);
      AddToConnectionDict(host, e.portId, e.localInterface);
      return Ok(());
    }

    /** `_process_cdp_information`: the CDP entries in order, stopping at
        the first exception. */
    method ProcessCdpInformation(entries: seq<CdpEntry>, device: string, nets: seq<Network>, tb: Testbed) returns (r: Result<()>)
      modifies this`connectionDict, this`deviceList
      ensures var res := Fold(CdpStepFn(FiltersFor(nets), tb.devices.values.Keys, device), old(Accumulated()), entries);
        Reports(r, res) && (r.Ok? ==> Accumulated() == res.value)
    {
      var step := CdpStepFn(FiltersFor(nets), tb.devices.values.Keys, device);
      ghost var a0 := Accumulated();
      var i := 0;
      while i < |entries|
        invariant 0 <= i <= |entries|
        invariant Fold(step, a0, entries[..i]) == Ok(Accumulated())
      {
        FoldNext(step, a0, entries, i, Accumulated());
        r := ProcessCdpEntry(entries[i], device, nets, tb);
        if r.Err? {
          return;
        }
        i := i + 1;
      }
      assert entries[..i] == entries;
      return Ok(());
    }

    // -------------------------------------------------------------------
    // _process_lldp_information

    /** The body of the inner loop of `_process_lldp_information` for one
        port; each `continue` of the source leaves both dictionaries as they
        were. */
    method ProcessLldpPort(iface: string, port: LldpPort, device: string, nets: seq<Network>, tb: Testbed) returns (r: Result<()>)
      modifies this`connectionDict, this`deviceList
      ensures var res := LldpStep(FiltersFor(nets), tb.devices.values.Keys, device, old(Accumulated()), (iface, port));
        Reports(r, res) && (r.Ok? ==> Accumulated() == res.value)
    {
      if port.neighbors == [] {
        return Err(NoNeighbor(port.portId));
      }
      var (raw, neighbor) := port.neighbors[0];
      if onlyLinks && raw !in tb.devices.values {
        return Ok(());
      }
      if Contains(excludeInterfaces, iface) || Contains(excludeInterfaces, port.portId) {
        return Ok(());
      }
      var ip := neighbor.managementAddress;
      if ip.None? {
        ip := neighbor.managementAddressV4;
      }
      if ip.Some? && nets != [] {
        var stop := ScanExcluded([ip.value], nets);
        if stop.Err? {
          return Err(stop.error);
        }
        if stop.value {
          return Ok(());
        }
      }
      var os := GetOs(neighbor.systemDescription, "");
      var host := NormaliseHost(raw);
      AddToDeviceList(host, port.portId, {}, {ip}, os, device);
      AddToConnectionDict(host, port.portId, iface);
      return Ok(());
    }

    /** The inner loop of `_process_lldp_information`: the ports of one
        local interface, in order. */
    method ProcessLldpInterface(i: LldpInterface, device: string, nets: seq<Network>, tb: Testbed) returns (r: Result<()>)
      modifies this`connectionDict, this`deviceList
      ensures var res := Fold(LldpStepFn(FiltersFor(nets), tb.devices.values.Keys, device), old(Accumulated()), PortPairs(i));
        Reports(r, res) && (r.Ok? ==> Accumulated() == res.value)
    {
      var step := LldpStepFn(FiltersFor(nets), tb.devices.values.Keys, device);
      var pairs := PortPairs(i);
      ghost var a0 := Accumulated();
      var j := 0;
      while j < |i.ports|
        invariant 0 <= j <= |i.ports|
        invariant Fold(step, a0, pairs[..j]) == Ok(Accumulated())
      {
        FoldNext(step, a0, pairs, j, Accumulated());
        r := ProcessLldpPort(i.name, i.ports[j], device, nets, tb);
        if r.Err? {
          return;
        }
        j := j + 1;
      }
      assert pairs[..j] == pairs;
      return Ok(());
    }

    /** `_process_lldp_information`: every port of every interface, in
        order, stopping at the first exception (`LldpFoldIsFold`: the same
        as one fold over all the pairs). */
    method ProcessLldpInformation(table: LldpTable, device: string, nets: seq<Network>, tb: Testbed) returns (r: Result<()>)
      modifies this`connectionDict, this`deviceList
      ensures var res := Fold(LldpStepFn(FiltersFor(nets), tb.devices.values.Keys, device), old(Accumulated()),
                              LldpPairs(table.interfaces));
        Reports(r, res) && (r.Ok? ==> Accumulated() == res.value)
    {
      var ifs := table.interfaces;
      var step := LldpStepFn(FiltersFor(nets), tb.devices.values.Keys, device);
      ghost var a0 := Accumulated();
      r := Ok(());
      var i := 0;
      while i < |ifs| && r.Ok?
        invariant 0 <= i <= |ifs|
        invariant r.Ok? ==> Fold(step, a0, LldpPairs(ifs[..i])) == Ok(Accumulated())
        invariant r.Err? ==> Fold(step, a0, LldpPairs(ifs)) == Err(r.error)
      {
        LldpPairsNext(step, a0, ifs, i, Accumulated());
        r := ProcessLldpInterface(ifs[i], device, nets, tb);
        i := i + 1;
      }
      if r.Ok? {
        assert ifs[..i] == ifs;
      }
    }

    // -------------------------------------------------------------------
    // get_device_connections

    /** The final loop of `get_device_connections`: creates each interface
        of `names` the device does not have yet. */
    method AddInterfaces(device: string, names: seq<string>) returns (r: Result<()>)
      modifies this`testbed
      ensures var res := AddMissingInterfaces(old(testbed), device, names);
        Reports(r, res) && (r.Ok? ==> testbed == res.value)
    {
      ghost var tb := testbed;
      var i := 0;
      while i < |names|
        invariant 0 <= i <= |names|
        invariant AddMissingInterfaces(tb, device, names[..i]) == Ok(testbed)
      {
        AddMissingInterfacesNext(tb, device, names, i, testbed);
        var n := names[i];
        if device !in testbed.devices.values {
          AddMissingInterfacesSticky(tb, device, names, i + 1);
          return Err(UnknownDevice(device));
        }
        if n !in testbed.devices.values[device].interfaces {
          var ty := InterfaceType(n);
          if ty.Err? {
            AddMissingInterfacesSticky(tb, device, names, i + 1);
            return Err(ty.error);
          }
          testbed := testbed.AddInterface(device, n, ty.value);
        }
        i := i + 1;
      }
      assert names[..i] == names;
      return Ok(());
    }

    /** `get_device_connections`: a fresh `connection_dict`, filled from
        the CDP entries when there are any and from the LLDP table when it
        has entries; the local interfaces it names are then created on the
        device. */
    method GetDeviceConnections(data: NeighborData, device: string, nets: seq<Network>) returns (r: Result<ConnectionDict>)
      modifies this`connectionDict, this`deviceList, this`testbed
      ensures var res := DeviceConnections(data, device, FiltersFor(nets), old(deviceList), old(testbed));
        (r.Ok? <==> res.Ok?) && (r.Err? ==> r.error == res.error) &&
        (r.Ok? ==> r.value == res.value.connections && deviceList == res.value.devices && testbed == res.value.testbed)
    {
      connectionDict := Empty();
      if data.cdp != [] {
        var c := ProcessCdpInformation(data.cdp, device, nets, testbed);
        if c.Err? {
          return Err(c.error);
        }
      }
      if data.lldp.Some? && data.lldp.value.totalEntries != 0 {
        var l := ProcessLldpInformation(data.lldp.value, device, nets, testbed);
        if l.Err? {
          return Err(l.error);
        }
      }
      var t := AddInterfaces(device, connectionDict.keys);
      if t.Err? {
        return Err(t.error);
      }
      return Ok(connectionDict);
    }

    // -------------------------------------------------------------------
    // process_neigbor_data

    /** The first loop of `process_neigbor_data`: every testbed device that
        has not been visited is marked visited and queued, in testbed
        order. */
    method SelectFrontier() returns (queue: seq<string>)
      requires testbed.devices.Valid()
      modifies this`visited
      ensures visited == old(visited) + set d | d in testbed.devices.keys
      ensures queue == Unvisited(testbed.devices.keys, old(visited))
    {
      var order := testbed.devices.keys;
      ghost var v0 := visited;
      queue := [];
      var i := 0;
      while i < |order|
        invariant 0 <= i <= |order|
        invariant visited == v0 + set d | d in order[..i]
        invariant queue == Unvisited(order[..i], v0)
      {
        var d := order[i];
        assert order[..i + 1][..i] == order[..i];
        assert d !in order[..i] by {
          forall j | 0 <= j < i ensures order[j] != d { }
        }
        if d !in visited {
          visited := visited + {d};
          queue := queue + [d];
        }
        i := i + 1;
      }
      assert order[..i] == order;
    }

    /** The pairs of one collected result, in order: `conn_dict[device]`
        becomes the `connection_dict` of that device's report. */
    method ProcessResult(entry: seq<(string, NeighborData)>, nets: seq<Network>, connDict: OMap<string, ConnectionDict>)
      returns (r: Result<OMap<string, ConnectionDict>>)
      modifies this`connectionDict, this`deviceList, this`testbed
      ensures var res := Fold(ReportStepFn(FiltersFor(nets)), Gathered(connDict, old(deviceList), old(testbed)), entry);
        (r.Ok? <==> res.Ok?) && (r.Err? ==> r.error == res.error) &&
        (r.Ok? ==> Gathered(r.value, deviceList, testbed) == res.value)
    {
      var step := ReportStepFn(FiltersFor(nets));
      ghost var g0 := Gathered(connDict, deviceList, testbed);
      var cd := connDict;
      var k := 0;
      while k < |entry|
        invariant 0 <= k <= |entry|
        invariant Fold(step, g0, entry[..k]) == Ok(Gathered(cd, deviceList, testbed))
      {
        FoldNext(step, g0, entry, k, Gathered(cd, deviceList, testbed));
        var (device, data) := entry[k];
        var c := GetDeviceConnections(data, device, nets);
        if c.Err? {
          return Err(c.error);
        }
        cd := cd.Put(device, c.value);
        k := k + 1;
      }
      assert entry[..k] == entry;
      return Ok(cd);
    }

    /** `process_neigbor_data`: selects the frontier, collects its reports
        with `fetch` (the neighbour queries, which are not part of this
        model), and merges every pair of every result, in order, into
        `conn_dict`, which it returns. */
    method ProcessNeighborData(nets: seq<Network>, fetch: string -> seq<(string, NeighborData)>)
      returns (r: Result<OMap<string, ConnectionDict>>)
      requires testbed.devices.Valid()
      modifies this`visited, this`connectionDict, this`deviceList, this`testbed
      ensures visited == old(visited) + set d | d in old(testbed).devices.keys
      ensures var res := Discovery.NeighborData(old(testbed), old(visited), old(deviceList), FiltersFor(nets), fetch);
        (r.Ok? <==> res.Ok?) && (r.Err? ==> r.error == res.error) &&
        (r.Ok? ==> Gathered(r.value, deviceList, testbed) == res.value)
    {
      ghost var v1 := old(visited) + set d | d in testbed.devices.keys;
      var queue := SelectFrontier();
      var results := Collect(queue, fetch);
      var step := ReportStepFn(FiltersFor(nets));
      ghost var g0 := Gathered(Empty(), deviceList, testbed);
      var connDict := Empty();
      var i := 0;
      while i < |results|
        invariant 0 <= i <= |results|
        invariant visited == v1
        invariant Fold(step, g0, Flatten(results[..i])) == Ok(Gathered(connDict, deviceList, testbed))
      {
        assert results[..i + 1][..i] == results[..i];
        assert Flatten(results[..i + 1]) == Flatten(results[..i]) + results[i];
        FoldAppend(step, g0, Flatten(results[..i]), results[i]);
        var next := ProcessResult(results[i], nets, connDict);
        if next.Err? {
          FoldFlattenErr(step, g0, results, i + 1);
          return next;
        }
        connDict := next.value;
        i := i + 1;
      }
      assert results[..i] == results;
      return Ok(connDict);
    }

    // -------------------------------------------------------------------
    // write_proxy_chain

    /** `write_proxy_chain`: the finder's first ssh connection with a proxy
        decides the proxy of the new device. A proxy list is extended in
        place, so every connection holding it sees the new hops; a single
        proxy becomes a new two-hop list; with no such connection the finder
        itself is the proxy. */
    method WriteProxyChain(finderName: string, credentials: Credentials, ip: string) returns (r: Result<Proxy>)
      requires testbed.Valid()
      modifies this`testbed
      ensures var res := ProxyChainFor(finderName, old(testbed), credentials, ip);
        (r.Ok? <==> res.Ok?) && (r.Err? ==> r.error == res.error) &&
        (r.Ok? ==> (testbed, r.value) == res.value)
    {
      if finderName !in testbed.devices.values {
        return Err(UnknownDevice(finderName));
      }
      var finder := testbed.devices.values[finderName];
      if !("default" in credentials && "username" in credentials["default"]) {
        return Err(MissingCredential(finderName));
      }
      var user := credentials["default"]["username"];
      var found := FindSshProxy(finder.connections.keys, finder.connections.values);
      if found.None? {
        return Ok(ProxyName(finderName));
      }
      var conn := finder.connections.values[found.value];
      var connIp := conn.ip;
      match conn.proxy.value
      case ProxyChain(id) =>
        var hops := testbed.proxies[id];
        if hops == [] {
          return Err(EmptyProxyList(finderName));
        }
        hops := hops[|hops| - 1 := hops[|hops| - 1].(command := SshCommand(user, AddressText(connIp)))];
        hops := hops + [Hop(finderName, SshCommand(user, ip))];
        assert hops == ExtendChain(testbed.proxies[id], finderName, user, connIp, ip);
        testbed := testbed.(proxies := testbed.proxies[id := hops]);
        return Ok(ProxyChain(id));
      case ProxyName(name) =>
        var steps := [Hop(name, "ssh " + AddressText(connIp)), Hop(finderName, SshCommand(user, ip))];
        testbed := testbed.(proxies := testbed.proxies + [steps]);
        return Ok(ProxyChain(|testbed.proxies| - 1));
    }

    // -------------------------------------------------------------------
    // _write_devices_into_testbed

    /** The interface loop of a new device: each port becomes an interface
        of `dev`, with its derived type. */
    method AttachInterfaces(dev: Device, ports: seq<string>) returns (r: Result<Device>)
      modifies this`testbed
      ensures var res := NewInterfaces(old(testbed), dev, ports);
        (r.Ok? <==> res.Ok?) && (r.Err? ==> r.error == res.error) &&
        (r.Ok? ==> (testbed, r.value) == res.value)
    {
      ghost var tb := testbed;
      var d := dev;
      var i := 0;
      while i < |ports|
        invariant 0 <= i <= |ports|
        invariant NewInterfaces(tb, dev, ports[..i]) == Ok((testbed, d))
      {
        assert ports[..i + 1][..i] == ports[..i];
        var ty := InterfaceType(ports[i]);
        if ty.Err? {
          NewInterfacesSticky(tb, dev, ports, i + 1);
          return Err(ty.error);
        }
        var (t', d') := testbed.NewInterface(d, ports[i], ty.value);
        testbed, d := t', d';
        i := i + 1;
      }
      assert ports[..i] == ports;
      return Ok(d);
    }

    /** One iteration of `_write_devices_into_testbed`, given `new_devices`
        and the value of the loop variable `ip` so far: a host that is a
        device gains the ports it lacks as interfaces; any other host becomes
        a new device. */
    method WriteDevice(proxies: seq<string>, newDevices: OMap<string, Device>, ip: Option<Option<string>>, e: Discovered)
      returns (r: Result<(OMap<string, Device>, Option<Option<string>>)>)
      requires testbed.Valid()
      modifies this`testbed
      ensures var res := WriteEntry(proxies, Written(newDevices, old(testbed), ip), e);
        (r.Ok? <==> res.Ok?) && (r.Err? ==> r.error == res.error) &&
        (r.Ok? ==> Written(r.value.0, testbed, r.value.1) == res.value)
    {
      if e.name in testbed.devices.values {
        var t := AddInterfaces(e.name, e.orders.ports);
        if t.Err? {
          return Err(t.error);
        }
        return Ok((newDevices, ip));
      }
      if e.record.finder.name !in testbed.devices.values {
        return Err(UnknownDevice(e.record.finder.name));
      }
      var credentials := testbed.devices.values[e.record.finder.name].credentials;
      var conns, ip' := BuildSshConnections(e.orders.ips, proxies, ip);
      if e.record.finder.addresses != {} {
        var px := WriteProxyChain(e.record.finder.name, credentials, SetRepr(e.orders.addresses));
        if px.Err? {
          return Err(px.error);
        }
        if ip'.None? {
          return Err(UnboundAddress(e.name));
        }
        conns := conns.Put("finder_proxy", Connection(Some("ssh"), ip'.value, Some(px.value)));
      }
      var dev := Device(e.name, e.record.os, credentials, "device", conns, map[]);
      var built := AttachInterfaces(dev, e.orders.ports);
      if built.Err? {
        return Err(built.error);
      }
      return Ok((newDevices.Put(e.name, built.value), ip'));
    }

    /** `_write_devices_into_testbed`: every entry of `device_list`, in its
        order, with the iteration orders of its sets that it returns (any
        order may come out); returns `new_devices`. */
    method WriteDevicesIntoTestbed(proxies: seq<string>) returns (orders: map<string, Orders>, r: Result<OMap<string, Device>>)
      requires testbed.Valid() && deviceList.Valid()
      modifies this`testbed
      ensures OrdersCover(deviceList, orders)
      ensures var res := WriteDevices(deviceList, proxies, old(testbed), orders);
        (r.Ok? <==> res.Ok?) && (r.Err? ==> r.error == res.error) &&
        (r.Ok? ==> r.value == res.value.newDevices && testbed == res.value.testbed)
    {
      var dl := deviceList;
      orders := ChooseOrders(dl);
      var es := Entries(dl, orders);
      ghost var w0 := Written(Empty(), testbed, None);
      var newDevices: OMap<string, Device> := Empty();
      var ip: Option<Option<string>> := None;
      var i := 0;
      while i < |es|
        invariant 0 <= i <= |es|
        invariant WriteAll(proxies, w0, es[..i]) == Ok(Written(newDevices, testbed, ip))
      {
        WriteAllNext(proxies, w0, es, i, Written(newDevices, testbed, ip));
        var next := WriteDevice(proxies, newDevices, ip, es[i]);
        if next.Err? {
          return orders, Err(next.error);
        }
        newDevices, ip := next.value.0, next.value.1;
        i := i + 1;
      }
      assert es[..i] == es;
      return orders, Ok(newDevices);
    }

    /** `for device in new_devices.values(): testbed.add_device(device)`. */
    method AddNewDevices(nd: OMap<string, Device>)
      requires forall k :: k in nd.keys ==> k in nd.values
      modifies this`testbed
      ensures testbed == AddDevices(old(testbed), nd.values, nd.keys)
    {
      ghost var tb := testbed;
      var i := 0;
      while i < |nd.keys|
        invariant 0 <= i <= |nd.keys|
        invariant testbed == AddDevices(tb, nd.values, nd.keys[..i])
      {
        AddDevicesNext(tb, nd.values, nd.keys, i);
        testbed := testbed.AddDevice(nd.values[nd.keys[i]]);
        i := i + 1;
      }
      assert nd.keys[..i] == nd.keys;
    }

    // -------------------------------------------------------------------
    // _write_connections_to_testbed

    /** The loop that connects the neighbour interfaces missing from link
        `l` to it. */
    method ConnectPeers(l: nat, peers: seq<Peer>) returns (r: Result<()>)
      requires testbed.Valid() && l < |testbed.links|
      modifies this`testbed
      ensures var res := ExtendLink(old(testbed), l, peers);
        Reports(r, res) && (r.Ok? ==> testbed == res.value)
    {
      ghost var tb := testbed;
      var i := 0;
      while i < |peers|
        invariant 0 <= i <= |peers|
        invariant ExtendLink(tb, l, peers[..i]) == Ok(testbed)
      {
        ExtendLinkStep(tb, l, peers, i, testbed);
        var x := testbed.InterfaceOf(peers[i].destHost, peers[i].destPort);
        if x.Err? {
          return Err(x.error);
        }
        if x.value !in testbed.links[l].members {
          testbed := ConnectTo(testbed, l, x.value);
        }
        i := i + 1;
      }
      assert peers[..i] == peers;
      return Ok(());
    }

    /** The body of the inner loop of `_write_connections_to_testbed`: a
        new link `Link_<n>` over the interface and its neighbours when the
        interface has none, otherwise its link gains the neighbours it
        lacks. */
    method LinkInterface(it: Item) returns (r: Result<()>)
      requires testbed.Valid()
      modifies this`testbed
      ensures var res := WriteInterface(old(testbed), it);
        Reports(r, res) && (r.Ok? ==> testbed == res.value)
    {
      var x := testbed.InterfaceOf(it.device, it.iface);
      if x.Err? {
        return Err(x.error);
      }
      var i := x.value;
      if testbed.interfaces[i].link.None? {
        var m := GatherMembers(testbed, i, it.peers);
        if m.Err? {
          return Err(m.error);
        }
        GatherBounded(testbed, i, it.peers);
        var n := |testbed.links|;
        testbed := SetLinks(testbed.(links := testbed.links + [Link(LinkName(n), m.value)]), m.value, n);
        return Ok(());
      }
      r := ConnectPeers(testbed.interfaces[i].link.value, it.peers);
    }

    /** The inner loop: the interfaces of one device's `connection_dict`. */
    method LinkDevice(device: string, cd: ConnectionDict) returns (r: Result<()>)
      requires testbed.Valid() && cd.Valid()
      modifies this`testbed
      ensures var res := WriteItems(old(testbed), DeviceItems(device, cd));
        Reports(r, res) && (r.Ok? ==> testbed == res.value)
    {
      var di := DeviceItems(device, cd);
      ghost var tb := testbed;
      var j := 0;
      while j < |di|
        invariant 0 <= j <= |di|
        invariant testbed.Valid()
        invariant WriteItems(tb, di[..j]) == Ok(testbed)
      {
        WriteItemsStep(tb, di, j, testbed);
        ghost var t := testbed;
        r := LinkInterface(di[j]);
        if r.Err? {
          WriteItemsStepErr(tb, di, j, t);
          return;
        }
        j := j + 1;
      }
      assert di[..j] == di;
      return Ok(());
    }

    /** `_write_connections_to_testbed`: the loop over the devices of
        `conn_dict`. */
    method WriteConnectionsToTestbed(conns: OMap<string, ConnectionDict>) returns (r: Result<()>)
      requires testbed.Valid() && ConnectionsValid(conns)
      modifies this`testbed
      ensures var res := WriteConnections(conns, old(testbed));
        Reports(r, res) && (r.Ok? ==> testbed == res.value)
    {
      ghost var tb := testbed;
      var i := 0;
      while i < |conns.keys|
        invariant 0 <= i <= |conns.keys|
        invariant testbed.Valid()
        invariant WriteItems(tb, Items(conns, conns.keys[..i])) == Ok(testbed)
      {
        var device := conns.keys[i];
        WriteConnectionsStep(conns, tb, i, testbed);
        r := LinkDevice(device, conns.values[device]);
        if r.Err? {
          return;
        }
        i := i + 1;
      }
      assert conns.keys[..i] == conns.keys;
      return Ok(());
    }

    // -------------------------------------------------------------------
    // create_yaml_dict

    /** The loop over `yaml_dict['devices']`: each device the file lacks is
        added to the file. */
    method MergeDeviceEntries(built: map<string, Node>)
      modifies this`testbedYaml
      ensures testbedYaml == old(testbedYaml).(devices := MergeDevices(old(testbedYaml).devices, built))
    {
      ghost var file := testbedYaml.devices;
      var left := built.Keys;
      while left != {}
        invariant left <= built.Keys
        invariant testbedYaml == old(testbedYaml).(devices := MergedSoFar(file, built, built.Keys - left))
        decreases left
      {
        var k :| k in left;
        MergedSoFarStep(file, built, built.Keys - left, k);
        assert built.Keys - (left - {k}) == (built.Keys - left) + {k};
        if k !in testbedYaml.devices {
          testbedYaml := testbedYaml.(devices := testbedYaml.devices[k := built[k]]);
        }
        left := left - {k};
      }
      assert built.Keys - left == built.Keys;
    }

    /** The loop over `yaml_dict['topology']` into the file's topology. */
    method MergeTopologyEntries(built: map<string, map<string, Node>>, order: seq<string>) returns (r: Result<()>)
      requires testbedYaml.topology.Some? && forall d :: d in order ==> d in built
      modifies this`testbedYaml
      ensures var res := MergeTopology(old(testbedYaml).topology.value, built, order);
        Reports(r, res) && (r.Ok? ==> testbedYaml == old(testbedYaml).(topology := Some(res.value)))
    {
      ghost var existing := testbedYaml.topology.value;
      var i := 0;
      while i < |order|
        invariant 0 <= i <= |order|
        invariant testbedYaml.devices == old(testbedYaml).devices && testbedYaml.topology.Some?
        invariant MergeTopology(existing, built, order[..i]) == Ok(testbedYaml.topology.value)
      {
        assert order[..i + 1][..i] == order[..i];
        var d := order[i];
        var t := testbedYaml.topology.value;
        if d !in t {
          testbedYaml := testbedYaml.(topology := Some(t[d := TopologyNode(built[d])]));
        } else if t[d].Map? && "interfaces" in t[d].entries && t[d].entries["interfaces"].Map? {
          var m := t[d].entries;
          testbedYaml := testbedYaml.(topology := Some(t[d := Map(m["interfaces" := Map(m["interfaces"].entries + built[d])])]));
        } else {
          MergeTopologySticky(existing, built, order, i + 1);
          return Err(BadTopology(d));
        }
        i := i + 1;
      }
      assert order[..i] == order;
      return Ok(());
    }

    /** `create_yaml_dict`: writes `yaml_dict` from the testbed and merges
        it into the loaded file. `credentials` is the credential dictionary
        taken from the file. */
    method CreateYamlDict(credentials: Node) returns (r: Result<()>)
      requires testbed.Valid()
      modifies this`testbedYaml
      ensures var res := CreateYaml(testbed, old(testbedYaml), credentials);
        Reports(r, res) && (r.Ok? ==> testbedYaml == res.value)
    {
      var b := BuildYamlDict(testbed, testbedYaml.devices, credentials);
      if b.Err? {
        return Err(b.error);
      }
      BuildAllKeys(testbed, testbedYaml.devices, credentials, testbed.devices.keys);
      MergeDeviceEntries(b.value.devices);
      if testbedYaml.topology.None? {
        testbedYaml := testbedYaml.(topology := Some(map d | d in b.value.topology :: TopologyNode(b.value.topology[d])));
        return Ok(());
      }
      r := MergeTopologyEntries(b.value.topology, testbed.devices.keys);
    }

    // -------------------------------------------------------------------
    // _generate

    /** The body of the `while` loop of `_generate`, with `fetch` for the
        neighbour queries of the round and `proxies` for `proxy_set`:
        `process_neigbor_data`, `_write_devices_into_testbed` with the set
        orders it chose, `add_device` for each new device, and
        `_write_connections_to_testbed`. Every testbed device is visited
        afterwards. The round fails only where the merge or the device pass
        does, with their error; otherwise the link commit cannot fail, the
        devices keep their interfaces, and every host found is a device. */
    method DiscoveryRound(nets: seq<Network>, fetch: string -> seq<(string, NeighborData)>, proxies: seq<string>)
      returns (orders: map<string, Orders>, r: Result<()>)
      requires Valid()
      modifies this`visited, this`connectionDict, this`deviceList, this`testbed
      ensures visited == old(visited) + set d | d in old(testbed).devices.keys
      ensures var gr := Discovery.NeighborData(old(testbed), old(visited), old(deviceList), FiltersFor(nets), fetch);
        (gr.Err? ==> r == Err(gr.error)) &&
        (gr.Ok? ==>
          GatheredOk(gr.value) && deviceList == gr.value.devices && OrdersCover(deviceList, orders) &&
          var wr := WriteDevices(deviceList, proxies, gr.value.testbed, orders);
          (wr.Err? ==> r == Err(wr.error)) &&
          (wr.Ok? ==>
             (forall k :: k in wr.value.newDevices.keys ==> k in wr.value.newDevices.values) &&
             AddWritten(wr.value).Valid() && ConnectionsValid(gr.value.connections) &&
             r.Ok? && WriteConnections(gr.value.connections, AddWritten(wr.value)) == Ok(testbed) &&
             Valid() && KeepsInterfaces(old(testbed), testbed) &&
             forall h :: h in deviceList.values ==> h in testbed.devices.values))
    {
      ghost var tb0, v0, dl0 := testbed, visited, deviceList;
      orders := map[];
      var conns := ProcessNeighborData(nets, fetch);
      if conns.Err? {
        return orders, Err(conns.error);
      }
      NeighborDataSpec(tb0, v0, dl0, FiltersFor(nets), fetch);
      ghost var g := Gathered(conns.value, deviceList, testbed);
      var nd;
      orders, nd := WriteDevicesIntoTestbed(proxies);
      if nd.Err? {
        return orders, Err(nd.error);
      }
      ghost var w := Written(nd.value, testbed, WriteDevices(deviceList, proxies, g.testbed, orders).value.ip);
      WriteDevicesSpec(deviceList, proxies, g.testbed, orders);
      AddNewDevices(nd.value);
      CommitResolves(g, proxies, orders, w);
      r := WriteConnectionsToTestbed(conns.value);
      RoundKeeps(tb0, g, proxies, orders, w, testbed);
    }
  }
}
