# Topology creator: neighbour merge and graph building

The pyATS `topology` testbed creator starts from a testbed file and extends it
with what CDP and LLDP report. It works in rounds. In each round it queries
every device it has not visited yet. Each neighbour report goes through a
chain of filters:

- the only-links option;
- excluded interface names;
- excluded IPv4 networks.

Entries that pass are recorded in two dictionaries. `device_list` describes
each neighbour host, and `connection_dict` lists each local interface's
neighbour ports. The creator then builds the graph: new hosts become devices
(with ssh connections and proxy chains), missing interfaces are created, and
every recorded connection becomes a member of a link `Link_<n>`. At the end
the testbed is written back into the loaded file's `devices` and `topology`
sections.

This project models that core in Dafny: the `Topology` class of
`src/pyats/contrib/creators/topology.py`.

- `Creator.Topology` is a class. Its fields are the dictionaries and the
  testbed that the source methods update in place. Each of its methods is
  proved against a function of the old state.
- The functions live in one module per part of the source:
  - `OsClassifier`: `get_os`;
  - `Names`: the two regular expressions;
  - `IPv4` and `Options`: the option parsing;
  - `Accumulators`: the two dictionaries;
  - `Merger`: the CDP and LLDP merge and `get_device_connections`;
  - `Discovery`: `process_neigbor_data`;
  - `Devices`: `_write_devices_into_testbed` and `write_proxy_chain`;
  - `Links`: `_write_connections_to_testbed`;
  - `Yaml`: `create_yaml_dict`;
  - `Rounds`: one iteration of the round loop of `_generate`.
- The properties of the creator are lemmas about those functions.

Genie's `Testbed`, `Device`, `Interface` and `Link` objects refer to one
another. The model keeps them as arenas addressed by position (`Testbeds`):
interfaces, links and proxy lists. That way, two holders of the same object
hold the same position. This is how the in-place growth of a proxy list in
`write_proxy_chain` becomes visible to every connection that holds the list.

The model relies on two genie behaviours, stated where they are used:

- assigning `interface.device` registers the interface on that device under
  its name;
- creating a `Link` with interfaces, or calling `connect_interface`, sets
  each such interface's `link`.

A Python exception becomes an `Err` result that carries what raised it. A
loop that an exception ends is modelled as a fold that stops at the first
`Err` (`Wrappers.Fold`).

Where the documented design and the code differ, the model follows the code:

- Topology entries are merged with `dict.update` (`topology.py:598`). An
  interface that the new topology also has is therefore overwritten, not
  kept. `Yaml.MergeSpec` states the overwrite.
- LLDP prefers `management_address` and falls back to
  `management_address_v4` (`topology.py:398-400`), not the other way round.
- An excluded-network check on an address that is not IPv4 raises
  (`ipaddress.IPv4Address`, `topology.py:330, 336, 404`). It does not skip
  the address.
- Interface exclusion tests whether the name occurs as a substring of the
  raw `exclude_interfaces` option (`topology.py:309, 314, 385, 390`). The
  option is never split into names.
- In only-links mode, LLDP tests the raw neighbour name and normalises it
  only afterwards (`topology.py:374, 414-416`). A qualified name that is
  listed in the testbed can therefore record a host that is not a testbed
  device (`Merger.LldpOnlyLinksUsesRawName`).

## Model

| member | source | states |
|---|---|---|
| OsClassifier.GetOsSpec | src/pyats/contrib/creators/topology.py:517-535 | every OS it returns is in `SUPPORTED_OS`; `iosxe` iff either string mentions IOS and XE, `iosxr` iff IOS and XR without XE, `ios` iff IOS alone, `nxos` iff NX-OS without IOS, none otherwise |
| OsClassifier.GetOsSymmetric | src/pyats/contrib/creators/topology.py:527-535 | the system string and the platform name play the same role |
| OsClassifier.GetOsXePrecedence | src/pyats/contrib/creators/topology.py:527-529 | a string with both IOS and XE classifies as `iosxe` whatever the other string says |
| OsClassifier.GetOsExample | src/pyats/contrib/creators/topology.py:527-529 | "Cisco IOS XE Software" classifies as `iosxe` |
| OsClassifier.GetOsNxosExample | src/pyats/contrib/creators/topology.py:534-535 | "NX-OS" classifies as `nxos` |
| Names.MatchHostName | src/pyats/contrib/creators/topology.py:284 | the pattern matches iff a `[-\w]` character occurs before the first newline; the match is the first maximal run of such characters |
| Names.NormaliseHostSpec | src/pyats/contrib/creators/topology.py:293-295 | the normalised name is the first maximal `[-\w]` run, or the input unchanged when the pattern does not match |
| Names.NormaliseHostIdempotent | src/pyats/contrib/creators/topology.py:293-295 | normalising twice gives the same name as normalising once |
| Names.NormaliseHostFirstLabel | src/pyats/contrib/creators/topology.py:367-368 | a name made of a host run, a separator such as `.` and anything else normalises to that first run |
| Names.NormaliseHostExample | src/pyats/contrib/creators/topology.py:283-284 | "edge1.example.com" becomes "edge1" |
| Names.NormaliseHostHyphenExample | src/pyats/contrib/creators/topology.py:367-368 | "n77-1.cisco.com" becomes "n77-1" |
| Names.MatchTypePrefix | src/pyats/contrib/creators/topology.py:616 | the lazy pattern matches iff a digit follows a non-empty prefix free of newlines; the match is the shortest such prefix |
| Names.InterfaceType | src/pyats/contrib/creators/topology.py:658-660 | the type is the lower-cased shortest non-empty prefix followed by a digit; with no such prefix, indexing the failed match raises (`NoInterfaceType`) |
| Names.InterfaceTypeOfPrefix | src/pyats/contrib/creators/topology.py:614-616 | a prefix without digits after its first character, then a digit, gives the lower-cased prefix |
| Names.InterfaceTypeExample | src/pyats/contrib/creators/topology.py:614-616 | "GigabitEthernet0/1" has type "gigabitethernet" |
| Names.InterfaceTypeNeedsDigit | src/pyats/contrib/creators/topology.py:262-264 | a name without digits makes the interface creation raise |
| Text.Contains | src/pyats/contrib/creators/topology.py:309 | `needle in hay` on strings holds iff the needle occurs at some position of the hay |
| Text.SplitWhitespaceTokens | src/pyats/contrib/creators/topology.py:118 | `str.split()` yields non-empty tokens without whitespace that together hold exactly the input's non-whitespace characters; whitespace is every character `str.isspace` accepts |
| Text.SplitOnJoin | src/pyats/contrib/creators/topology.py:126 | joining the parts of `split(':')` with `:` gives the input back; no part holds `:`; there is one part more than there are separators |
| Text.JoinSplitOn | src/pyats/contrib/creators/topology.py:126 | splitting parts joined by a separator they do not hold gives the parts back |
| Text.Lower | src/pyats/contrib/creators/topology.py:264 | `lower()` keeps the length and lower-cases each ASCII capital |
| IPv4.ParseNetwork | src/pyats/contrib/creators/topology.py:120-122 | an accepted range has at most one `/` and is a strict network, with no host bits set; its base is the text before `/`, and its prefix length is the text after it, or 32 without one |
| IPv4.ParseNetworkHostBits | src/pyats/contrib/creators/topology.py:120-122 | an address with host bits set below the prefix is rejected, so the option raises `InvalidRange` |
| IPv4.NetworkRoundTrip | src/pyats/contrib/creators/topology.py:120 | every strict network's text form is read back as that network |
| IPv4.NetmaskPrefix | src/pyats/contrib/creators/topology.py:120 | a dotted netmask after `/` is read as its prefix length |
| IPv4.AddressRoundTrip | src/pyats/contrib/creators/topology.py:330 | `IPv4Address` reads every address's dotted text back as that address |
| IPv4.ParseAddressIff | src/pyats/contrib/creators/topology.py:330 | a string reads as an address iff it is that address's canonical dotted text |
| IPv4.InNetworkRange | src/pyats/contrib/creators/topology.py:330 | `address in net` for a strict network iff the address lies in the block the network covers |
| Options.ParseExcludeNetworks | src/pyats/contrib/creators/topology.py:117-122 | succeeds iff every token is a strict IPv4 network, giving them in token order; otherwise fails with the first invalid token, all earlier ones valid |
| Options.AliasMapKeys | src/pyats/contrib/creators/topology.py:125-129 | the alias map has exactly the devices named before `:` in the tokens |
| Options.AliasMapLastWins | src/pyats/contrib/creators/topology.py:125-129 | a device's alias is the one in its last token |
| Creator.Topology.constructor | src/pyats/contrib/creators/topology.py:81-94 | the creator starts with an empty `alias_dict`, empty accumulators and nothing visited |
| Creator.Topology.ParseAliases | src/pyats/contrib/creators/topology.py:124-129 | succeeds iff every token splits into exactly two parts, and then `alias_dict` gains the alias map with later tokens winning; otherwise fails with the first bad token |
| Accumulators.WithoutManagement | src/pyats/contrib/creators/topology.py:471 | the interface addresses that remain are exactly those that are not management addresses |
| Accumulators.AddToDeviceList | src/pyats/contrib/creators/topology.py:471-481 | a new host gets ports `{port}`, the management addresses, the OS and finder `(device, interface addresses minus management ones)` and goes last; a known host gains the port and the addresses, takes the OS only if it had none, and keeps its finder; other hosts are untouched |
| Accumulators.AddToDeviceListIdempotent | src/pyats/contrib/creators/topology.py:471-481 | repeating the same call changes nothing |
| Accumulators.ConnectionAddSpec | src/pyats/contrib/creators/topology.py:498-515 | afterwards the peer occurs exactly once under the interface; it is appended at the end only if new; a new interface goes last; other interfaces are unchanged |
| Accumulators.ConnectionAddIdempotent | src/pyats/contrib/creators/topology.py:498-515 | a second identical call is a no-op |
| Creator.Topology.AddToDeviceList | src/pyats/contrib/creators/topology.py:457-481 | `device_list` becomes `Accumulators.AddToDeviceList` of its old value |
| Creator.Topology.AddToConnectionDict | src/pyats/contrib/creators/topology.py:483-515 | the `for ... else` scan appends the peer exactly when it is not listed: `connection_dict` becomes `ConnectionAdd` of its old value |
| Merger.Record | src/pyats/contrib/creators/topology.py:348-350 | recording one sighting in both dictionaries keeps them well-formed |
| Merger.ScanAllIPv4 | src/pyats/contrib/creators/topology.py:328-340 | when every address is IPv4, the scan says whether some address lies in some excluded network, whatever the order |
| Merger.ScanHit | src/pyats/contrib/creators/topology.py:329-334 | a scan that stops names an IPv4 address inside an excluded network |
| Merger.ScanMiss | src/pyats/contrib/creators/topology.py:329-340 | a scan that finds nothing had no networks, or only IPv4 addresses outside all of them |
| Merger.ScanError | src/pyats/contrib/creators/topology.py:330 | a scan raises only when networks are configured, and then with the first non-IPv4 address it meets |
| Merger.ScanOne | src/pyats/contrib/creators/topology.py:401-411 | LLDP's single-address scan: no networks is no stop; otherwise a non-IPv4 address raises and an IPv4 one stops iff it is in a network |
| Merger.ScanExcluded | src/pyats/contrib/creators/topology.py:328-340 | the `stop` loop returns the scan's verdict or its error |
| Merger.CdpStepSpec | src/pyats/contrib/creators/topology.py:286-350 | no host name raises; only-links with an unknown normalised name, an excluded local or remote port, or an address in an excluded network leaves both dictionaries unchanged; otherwise the entry is recorded with its addresses and OS; an error needs networks and a non-IPv4 address |
| Creator.Topology.ProcessCdpEntry | src/pyats/contrib/creators/topology.py:286-350 | one loop body: fails as the CDP step does, and otherwise leaves the dictionaries at the step's result |
| Creator.Topology.ProcessCdpInformation | src/pyats/contrib/creators/topology.py:268-350 | the entries in order, stopping at the first error: the dictionaries end at the fold of the CDP step |
| Merger.PortPairs | src/pyats/contrib/creators/topology.py:370-372 | the ports of one interface, in order, each paired with the local interface name |
| Merger.LldpFoldIsFold | src/pyats/contrib/creators/topology.py:370-372 | the nested interface and port loops are one fold over all pairs in order |
| Merger.LldpPairsNext | src/pyats/contrib/creators/topology.py:370-372 | after the first `i` interfaces, the next interface continues the fold with its ports, and an error in it is the result of the whole table |
| Merger.LldpStepSpec | src/pyats/contrib/creators/topology.py:372-422 | a port without neighbours raises; only-links with an unknown raw name, an excluded port, or an address in an excluded network leaves both dictionaries unchanged; otherwise the normalised host is recorded with no interface addresses and `{address}`; the address is checked only if present and networks are set |
| Merger.LldpOnlyLinksSkipsQualifiedName | src/pyats/contrib/creators/topology.py:374-377 | with only-links, a qualified neighbour name is skipped even when its short name is a testbed device |
| Merger.LldpOnlyLinksUsesRawName | src/pyats/contrib/creators/topology.py:374-416 | with only-links, a raw name listed in the testbed passes and is recorded under its normalised name |
| Creator.Topology.ProcessLldpPort | src/pyats/contrib/creators/topology.py:372-422 | one port: fails as the LLDP step does, and otherwise leaves the dictionaries at the step's result |
| Creator.Topology.ProcessLldpInterface | src/pyats/contrib/creators/topology.py:370-422 | the ports of one interface, in order, stopping at the first error |
| Creator.Topology.ProcessLldpInformation | src/pyats/contrib/creators/topology.py:352-422 | every port of every interface, in order, stopping at the first error: the dictionaries end at the fold over all pairs |
| Merger.StepsKeepValid | src/pyats/contrib/creators/topology.py:348-422 | both steps keep the dictionaries well-formed |
| Merger.RecordListed | src/pyats/contrib/creators/topology.py:348-350 | recording a sighting only adds ports, and every peer it lists is a host seen on that port |
| Merger.StepsKeepListed | src/pyats/contrib/creators/topology.py:348-422 | every step keeps every listed peer a `device_list` host seen on that port, and only adds ports |
| Merger.AddMissingInterfaceSpec | src/pyats/contrib/creators/topology.py:260-265 | succeeds iff the device exists and the interface exists or has a type; then adds exactly that interface and changes no other device; otherwise fails with the unknown device or the missing type |
| Merger.AddMissingInterfacesSpec | src/pyats/contrib/creators/topology.py:260-265 | afterwards every named interface is on the device, nothing else is added, and the links and other devices are unchanged |
| Merger.AddMissingInterfacesErr | src/pyats/contrib/creators/topology.py:260-264 | failure means an unknown device or a named interface without a type |
| Creator.Topology.AddInterfaces | src/pyats/contrib/creators/topology.py:258-265 | the interface loop: the testbed ends as `AddMissingInterfaces` gives it, or fails with its error |
| Merger.LldpZeroEntries | src/pyats/contrib/creators/topology.py:253-257 | an LLDP table with zero entries contributes nothing |
| Merger.DeviceConnectionsSpec | src/pyats/contrib/creators/topology.py:225-266 | the result is well-formed; every local interface it records is on the device; links and the device order are unchanged; other devices are unchanged |
| Merger.DeviceConnectionsListed | src/pyats/contrib/creators/topology.py:242-266 | every recorded peer is a `device_list` host seen on that port, and no host loses a port |
| Creator.Topology.GetDeviceConnections | src/pyats/contrib/creators/topology.py:225-266 | a fresh `connection_dict` from the CDP entries, if any, then the LLDP table, if it has entries; then the interfaces; returns what `DeviceConnections` gives |
| Discovery.UnvisitedMembers | src/pyats/contrib/creators/topology.py:201-204 | a device is queued iff it is a testbed device not visited before |
| Discovery.UnvisitedNoRepeats | src/pyats/contrib/creators/topology.py:201-204 | no device is queued twice |
| Discovery.UnvisitedAppend | src/pyats/contrib/creators/topology.py:201-204 | the queue follows testbed order |
| Discovery.AfterRoundNothingQueued | src/pyats/contrib/creators/topology.py:201-204 | once a round has marked the devices visited, the same devices queue nothing |
| Creator.Topology.SelectFrontier | src/pyats/contrib/creators/topology.py:197-204 | visited grows by exactly the testbed devices; the queue is the unvisited devices in testbed order |
| Discovery.ReportStep | src/pyats/contrib/creators/topology.py:216-221 | `conn_dict[device] = ...` keeps the device order, appends a new device last, and adds exactly that device |
| Discovery.ReportStepOk | src/pyats/contrib/creators/topology.py:216-221 | one merged report keeps the gathered state well-formed, keeps every interface and the links, and only adds ports |
| Discovery.ReportsOk | src/pyats/contrib/creators/topology.py:215-221 | the same for all reports, in order |
| Discovery.ReportsKeys | src/pyats/contrib/creators/topology.py:215-221 | `conn_dict` ends with exactly the devices it had and the devices reported on |
| Discovery.NeighborDataSpec | src/pyats/contrib/creators/topology.py:181-223 | the result is well-formed; the testbed keeps its interfaces and links; `conn_dict` holds exactly the reporting devices |
| Creator.Topology.ProcessResult | src/pyats/contrib/creators/topology.py:215-221 | the pairs of one collected result, in order: the state ends at the fold of `ReportStep` |
| Creator.Topology.ProcessNeighborData | src/pyats/contrib/creators/topology.py:181-223 | marks the frontier visited, then returns what `Discovery.NeighborData` gives for the collected reports, or its error |
| Devices.FirstSshProxy | src/pyats/contrib/creators/topology.py:436-443 | the connection found is an ssh connection with a proxy, other than `defaults` |
| Devices.FirstSshProxySpec | src/pyats/contrib/creators/topology.py:436-445 | none is found iff no connection qualifies; otherwise it is the first one in connection order |
| Devices.FindSshProxy | src/pyats/contrib/creators/topology.py:436-445 | the loop with `break` finds `FirstSshProxy` |
| Devices.DefaultUser | src/pyats/contrib/creators/topology.py:435 | the user is `credentials['default']['username']`; a missing key raises |
| Devices.ExtendChain | src/pyats/contrib/creators/topology.py:448-450 | the list grows by one; the last old hop's command becomes `ssh user@conn_ip`; the new hop is the finder with `ssh user@ip`; earlier hops are kept |
| Devices.ProxyChainForSpec | src/pyats/contrib/creators/topology.py:424-455 | only the proxy-list arena changes, by at most one new list |
| Devices.ProxyChainForResult | src/pyats/contrib/creators/topology.py:446-455 | a list result has at least two hops and ends with the finder; a name result is the finder itself, with nothing changed; every other list is untouched |
| Devices.ProxyChainForErr | src/pyats/contrib/creators/topology.py:434-449 | failures are an unknown finder, a missing default user, or an empty proxy list |
| Devices.ProxyChainWithoutProxy | src/pyats/contrib/creators/topology.py:444-447 | a finder without an ssh connection through a proxy is its own proxy |
| Devices.ProxyChainTwice | src/pyats/contrib/creators/topology.py:448-451 | the list is shared: writing a second chain through the same finder extends the same list again |
| Creator.Topology.WriteProxyChain | src/pyats/contrib/creators/topology.py:424-455 | extends the shared list in place, creates a two-hop list for a named proxy, or returns the finder: the result and testbed are `ProxyChainFor` of the old testbed |
| Devices.Enumerate | src/pyats/contrib/creators/topology.py:629 | iterating a set visits each element exactly once |
| Devices.ChooseOrders | src/pyats/contrib/creators/topology.py:619-657 | chooses an iteration order for every set of every `device_list` entry |
| Devices.PutProxiesKeys | src/pyats/contrib/creators/topology.py:630-636 | the connections gain exactly the keys `'ssh' + proxy` |
| Devices.PutProxiesValues | src/pyats/contrib/creators/topology.py:630-636 | each `'ssh' + proxy` holds ssh to the address through that proxy |
| Devices.PutProxiesKeeps | src/pyats/contrib/creators/topology.py:630-636 | other keys are unchanged |
| Devices.PutProxiesSpec | src/pyats/contrib/creators/topology.py:630-636 | the three facts above together |
| Devices.SshConnectionsSpec | src/pyats/contrib/creators/topology.py:629-636 | with no address there are no connections; otherwise each proxy gives one connection, and the last address wins |
| Devices.BuildSshConnections | src/pyats/contrib/creators/topology.py:629-636 | the nested loops build `SshConnections`, and `ip` is left at the last address, or at its earlier value when there is none |
| Devices.NewInterfacesOk | src/pyats/contrib/creators/topology.py:657-660 | a new device's interfaces are created iff every port has a type |
| Devices.NewInterfacesSpec | src/pyats/contrib/creators/topology.py:657-661 | the new device has exactly its ports as interfaces, each named and typed from its port and on no link |
| Creator.Topology.AttachInterfaces | src/pyats/contrib/creators/topology.py:657-661 | the interface loop of a new device: the testbed and device end as `NewInterfaces` gives them |
| Devices.Entries | src/pyats/contrib/creators/topology.py:619 | the `device_list` entries in its order |
| Devices.FinderConnectionShape | src/pyats/contrib/creators/topology.py:638-645 | `finder_proxy` is added iff the finder reported interface addresses; it is ssh to the leaked `ip` through the chain `write_proxy_chain` returns; other connections are kept |
| Devices.FinderConnectionConns | src/pyats/contrib/creators/topology.py:638-645 | the connections stay well-formed and every proxy list they refer to exists |
| Devices.BuildDeviceSpec | src/pyats/contrib/creators/topology.py:620-662 | a new device leaves the other devices and links alone and has exactly its ports as interfaces |
| Devices.BuildDeviceShape | src/pyats/contrib/creators/topology.py:625-655 | the device takes the finder's credentials, the recorded OS and type `device`; `ip` is left at the last address |
| Devices.BuildDeviceConnections | src/pyats/contrib/creators/topology.py:629-645 | its connections are `'ssh' + proxy` for each proxy, if it has an address, plus `finder_proxy`; the last address wins |
| Devices.BuildDeviceFinderProxy | src/pyats/contrib/creators/topology.py:638-645 | `finder_proxy` uses the `ip` left by the address loop and the proxy chain through the finder |
| Devices.BuildDeviceErr | src/pyats/contrib/creators/topology.py:626-660 | an unknown finder raises; `finder_proxy` before any address was bound raises; success means every port has a type |
| Devices.WriteEntryPlaced | src/pyats/contrib/creators/topology.py:619-672 | after one entry, the host is a device with every port it was seen on, and nothing of another entry is lost |
| Devices.WriteEntryExisting | src/pyats/contrib/creators/topology.py:665-672 | a host already in the testbed only gains interfaces and adds no new device |
| Devices.WriteEntryNew | src/pyats/contrib/creators/topology.py:620-662 | a new host keeps the pass well-formed |
| Devices.WriteAllOk | src/pyats/contrib/creators/topology.py:619-684 | the whole pass keeps the testbed well-formed: no link changes, interfaces are kept, new devices are complete |
| Devices.WriteAllPlaced | src/pyats/contrib/creators/topology.py:619-684 | after the pass every entry's host is a device with all its ports, and old devices keep their interfaces |
| Devices.WriteAllKeys | src/pyats/contrib/creators/topology.py:619-662 | `new_devices` holds the hosts not in the testbed, in `device_list` order |
| Devices.NewOrderMembers | src/pyats/contrib/creators/topology.py:620 | a host is new iff it is an entry and not a testbed device |
| Devices.AddDevicesOrder | src/pyats/contrib/creators/topology.py:161-162 | `add_device` appends the new devices in order, unchanged, and keeps the old ones |
| Devices.AddDevicesValid | src/pyats/contrib/creators/topology.py:161-162 | adding complete devices keeps the testbed well-formed |
| Creator.Topology.AddNewDevices | src/pyats/contrib/creators/topology.py:160-162 | the testbed ends as `AddDevices` of the new devices in order |
| Devices.WriteDevicesSpec | src/pyats/contrib/creators/topology.py:600-684 | after the pass and `add_device`, the devices are the old ones followed by the new hosts in order; every host is a device with every port it was seen on; old devices keep their interfaces; links are untouched |
| Creator.Topology.WriteDevice | src/pyats/contrib/creators/topology.py:619-672 | one iteration: a known host gains missing interfaces, any other host becomes a new device; ends as `WriteEntry` |
| Creator.Topology.WriteDevicesIntoTestbed | src/pyats/contrib/creators/topology.py:600-684 | every entry in order, with set orders it chose: returns `new_devices` and the testbed `WriteDevices` gives |
| Links.GatherResolves | src/pyats/contrib/creators/topology.py:705-710 | building `int_list` succeeds iff every neighbour interface exists |
| Links.GatherError | src/pyats/contrib/creators/topology.py:709 | failure is the lookup error of some neighbour |
| Links.GatherSpec | src/pyats/contrib/creators/topology.py:703-710 | `int_list` starts with the local interface, has no repeats, and holds exactly it and the neighbour interfaces |
| Links.GatherNext | src/pyats/contrib/creators/topology.py:709-710 | each neighbour is appended only if not listed yet |
| Links.GatherMembers | src/pyats/contrib/creators/topology.py:703-710 | the loop builds `Gather` |
| Links.SetLinks | src/pyats/contrib/creators/topology.py:711-712 | the members of a new link have their link set to it; nothing else changes |
| Links.NewLinkSpec | src/pyats/contrib/creators/topology.py:702-712 | a new link succeeds iff the neighbours resolve; it is named `Link_<old link count>`, is appended, and its members are `int_list`, each now on it |
| Links.ExtendLinkOk | src/pyats/contrib/creators/topology.py:717-723 | extending succeeds iff every neighbour interface exists |
| Links.ExtendLinkNext | src/pyats/contrib/creators/topology.py:719-723 | each neighbour is connected only if it is not a member yet |
| Links.ConnectToFacts | src/pyats/contrib/creators/topology.py:723 | `connect_interface` appends the interface and sets its link |
| Links.ExtendLinkSpec | src/pyats/contrib/creators/topology.py:717-723 | the link keeps its members and gains exactly the missing neighbour interfaces, each now on it |
| Links.ExtendLinkDistinct | src/pyats/contrib/creators/topology.py:719-723 | a link without repeated members keeps none |
| Links.WriteInterfaceOk | src/pyats/contrib/creators/topology.py:698-723 | one interface's write fails exactly when one of its unguarded lookups does |
| Links.WriteItemsOk | src/pyats/contrib/creators/topology.py:694-723 | the pass fails exactly when some lookup fails |
| Links.WriteItemsOnly | src/pyats/contrib/creators/topology.py:694-723 | the pass only adds links, members and link references |
| Links.WriteItemsKeeps | src/pyats/contrib/creators/topology.py:694-723 | every interface on a link is among its members, and links stay named after their position |
| Links.WriteItemsConnected | src/pyats/contrib/creators/topology.py:694-723 | afterwards every written interface is on a link shared with each of its neighbour interfaces |
| Links.ConnectedWritesNoLink | src/pyats/contrib/creators/topology.py:702-723 | writing connected interfaces creates no link |
| Links.SecondPassNoNewLink | src/pyats/contrib/creators/topology.py:694-723 | applying the same connections a second time succeeds and adds no link |
| Links.WriteItemsSettled | src/pyats/contrib/creators/topology.py:717-723 | interfaces already linked to all their neighbours are left exactly as they are |
| Links.ItemsCover | src/pyats/contrib/creators/topology.py:694-696 | the pass visits every recorded interface of every device |
| Links.ItemsOnly | src/pyats/contrib/creators/topology.py:694-696 | it visits nothing else |
| Links.WriteConnectionsSpec | src/pyats/contrib/creators/topology.py:686-724 | succeeds iff every lookup succeeds; then only links change, every recorded connection shares a link, and a second pass adds no link |
| Creator.Topology.ConnectPeers | src/pyats/contrib/creators/topology.py:717-723 | the extension loop: the testbed ends as `ExtendLink` gives it |
| Creator.Topology.LinkInterface | src/pyats/contrib/creators/topology.py:698-723 | a new link when the interface has none, otherwise the extension: ends as `WriteInterface` |
| Creator.Topology.LinkDevice | src/pyats/contrib/creators/topology.py:696-723 | the interfaces of one device in key order, stopping at the first error |
| Creator.Topology.WriteConnectionsToTestbed | src/pyats/contrib/creators/topology.py:686-724 | every device of `conn_dict` in order: the testbed ends as `WriteConnections` gives it |
| Rounds.ItemResolves | src/pyats/contrib/creators/topology.py:698-722 | an interface whose neighbours are all devices with those ports resolves |
| Rounds.CommitResolves | src/pyats/contrib/creators/topology.py:157-165 | after the device pass and `add_device`, the link pass cannot fail |
| Rounds.RoundKeeps | src/pyats/contrib/creators/topology.py:142-168 | a round keeps every device's interfaces, and every host found is a device afterwards |
| Creator.Topology.DiscoveryRound | src/pyats/contrib/creators/topology.py:142-168 | one round: everything is visited afterwards; it fails only as the merge or the device pass does; otherwise the link pass succeeds, the testbed stays well-formed, devices keep their interfaces and every host found is a device |
| Testbeds.Testbed.DeviceNamed | src/pyats/contrib/creators/topology.py:626 | `testbed.devices[name]` succeeds iff the device exists |
| Testbeds.Testbed.InterfaceOf | src/pyats/contrib/creators/topology.py:698-722 | `devices[d].interfaces[n]` succeeds iff both exist; the result is the interface of that name on that device; otherwise it fails with the missing key |
| Testbeds.Testbed.AddInterface | src/pyats/contrib/creators/topology.py:263-265 | a new interface on no link is appended and registered on its device under its name; nothing else changes |
| Testbeds.Testbed.NewInterface | src/pyats/contrib/creators/topology.py:659-661 | the interface is appended and registered on the new device |
| Testbeds.Testbed.AddDevice | src/pyats/contrib/creators/topology.py:162 | `add_device` puts the device under its name, and a complete device keeps the testbed well-formed |
| OMaps.OMap.Put | src/pyats/contrib/creators/topology.py:501 | dictionary assignment: a new key goes last, an existing key keeps its place and gets the new value |
| Yaml.OptStr | src/pyats/contrib/creators/topology.py:563-568 | a missing key is written as null |
| Yaml.ProxyNode | src/pyats/contrib/creators/topology.py:565-568 | a proxy list is written with its hops as the list holds them when the file is written |
| Yaml.ConnectionEntries | src/pyats/contrib/creators/topology.py:561-569 | one entry per connection of the device |
| Yaml.LastConnection | src/pyats/contrib/creators/topology.py:562-570 | `via` is the device's last connection, or the loop variable left over from an earlier device |
| Yaml.WriteConnectionEntries | src/pyats/contrib/creators/topology.py:561-570 | the loop writes `ConnectionEntries` and leaves `connect` at `LastConnection` |
| Yaml.InterfaceNode | src/pyats/contrib/creators/topology.py:577-579 | an interface is written with its type, and with its link's name iff it is on a link |
| Yaml.InterfaceEntries | src/pyats/contrib/creators/topology.py:576-581 | one entry per interface of the device |
| Yaml.WriteInterfaceEntries | src/pyats/contrib/creators/topology.py:574-581 | the loop writes `InterfaceEntries` |
| Yaml.BuildStepFacts | src/pyats/contrib/creators/topology.py:553-583 | a device fails iff it is new to the file and no connection was ever bound; a new device gets a devices entry; every device gets its topology entry |
| Yaml.WriteDeviceEntry | src/pyats/contrib/creators/topology.py:553-583 | one device of the loop, as `BuildStep` |
| Yaml.NewNamesMembers | src/pyats/contrib/creators/topology.py:555 | a device is new iff it is not in the file's devices |
| Yaml.BuildAllOk | src/pyats/contrib/creators/topology.py:553-583 | the loop fails iff the first new device has no connection, with that device |
| Yaml.BuildAllKeys | src/pyats/contrib/creators/topology.py:553-583 | `yaml_dict['devices']` holds exactly the new devices, and `yaml_dict['topology']` holds exactly every device with its interfaces |
| Yaml.BuildAllDevices | src/pyats/contrib/creators/topology.py:555-570 | each new device's entry is its type, OS, the file's credentials and its connections |
| Yaml.BuildYamlDict | src/pyats/contrib/creators/topology.py:549-584 | the loop over the testbed devices builds `BuildAll` |
| Yaml.MergeDevices | src/pyats/contrib/creators/topology.py:588-590 | devices already in the file are kept; the others are added |
| Yaml.MergedSoFarStep | src/pyats/contrib/creators/topology.py:588-590 | one more device adds its entry iff the file lacks it |
| Creator.Topology.MergeDeviceEntries | src/pyats/contrib/creators/topology.py:588-590 | the file's devices become `MergeDevices` |
| Yaml.MergeEntry | src/pyats/contrib/creators/topology.py:598 | `update` succeeds iff the existing entry is a mapping whose `interfaces` is a mapping |
| Yaml.MergeTopologyOk | src/pyats/contrib/creators/topology.py:594-598 | a successful merge met only mergeable existing entries |
| Yaml.MergedTopologyStep | src/pyats/contrib/creators/topology.py:594-598 | one more device updates that device's entry alone |
| Yaml.MergeTopologyValue | src/pyats/contrib/creators/topology.py:594-598 | with mergeable entries, the merge is the entry-by-entry update over the listed devices |
| Yaml.MergeTopologySpec | src/pyats/contrib/creators/topology.py:594-598 | succeeds iff every existing entry met is mergeable; then new devices are added, existing ones get their interfaces updated, others are unchanged |
| Creator.Topology.MergeTopologyEntries | src/pyats/contrib/creators/topology.py:594-598 | the loop: the file's topology becomes `MergeTopology`'s result, or fails with its error |
| Yaml.MergeSpec | src/pyats/contrib/creators/topology.py:586-598 | devices merge without overwriting; every topology device is mergeable and holds the new interfaces, overwriting old ones with the same name; old interfaces with other names are kept |
| Yaml.CreateYamlOk | src/pyats/contrib/creators/topology.py:537-598 | fails iff the first new device has no connection bound, or an existing topology entry cannot be updated |
| Yaml.CreateYamlDevices | src/pyats/contrib/creators/topology.py:553-590 | the file's devices are kept; each new device is written with its last connection as `via` |
| Yaml.CreateYamlTopology | src/pyats/contrib/creators/topology.py:573-598 | every testbed device's topology entry lists each of its interfaces as written from the testbed, and keeps the file's other interfaces |
| Creator.Topology.CreateYamlDict | src/pyats/contrib/creators/topology.py:537-598 | writes `yaml_dict` and merges it into the file: the file ends as `CreateYaml` gives it |

## Left out

- Device I/O through `TestbedManager` (`connect_all_devices`, the discovery configuration, `get_neighbor_info`, `get_interfaces_ipV4_address`, the unconfiguration, `get_credentials_and_proxies`) happens in a module that is not part of this model. The neighbour reports come in through the `fetch` parameter. The credentials and `proxy_set` are parameters.
- The `pcall` fan-out is concurrent. The model takes its results as a sequence in queue order.
- Loading the testbed and the YAML file, and the YAML error path, are file I/O. The model starts from the loaded values.
- The `add_unconnected_interfaces` branch (`topology.py:673-683`) parses a live device's command output. It is not modelled: only the default branch is.
- The outer `while` of `_generate` (`topology.py:142`) is left out. Whether it ends depends on what the network reports. `Creator.Topology.DiscoveryRound` models one iteration, and `Discovery.AfterRoundNothingQueued` states what the loop condition reads.
- The IPv4 address pass after the rounds (`topology.py:170-171`) and `str(interface.ipv4)` (`topology.py:580-581`) depend on device I/O. Interfaces carry no IPv4 address here.
- IPv6: `ipaddress.ip_network` also accepts IPv6 ranges. This model rejects them as invalid ranges.
- MatchTypePrefix: `\d` in `.+?(?=\d)` is taken as the ASCII digits (`Text.IsDigit`). Python also matches every other Unicode decimal digit, so a name whose first digit is non-ASCII gets a different type here. The same holds for `Names.InterfaceType` and `Names.InterfaceTypeOfPrefix`.
- MatchHostName: `\w` is taken as ASCII letters, digits and `_` (`Text.IsWordChar`). Python's Unicode word characters beyond ASCII are not modelled. The same holds for `Names.NormaliseHostSpec`.
- Lower: only the ASCII capitals are lower-cased. Python's `str.lower()` also folds the other Unicode letters, which this model leaves unchanged.
- Python iterates sets in hash order. The model chooses some order (`Devices.Enumerate`, `Devices.ChooseOrders`).
- ScanExcluded: the CDP addresses are scanned in the order of the parser's dictionary, which stands for the hash order of Python's set (`topology.py:323-334`). When an entry mixes a non-IPv4 address with an IPv4 address inside an excluded network, that order decides whether the entry raises or is skipped. It also decides which address the error names. `Merger.ScanAllIPv4` shows that the order does not matter when every address is IPv4.
- LLDP tables are taken to carry `total_entries`, `interfaces`, each interface's `port_id`, each port's `neighbors`, and each neighbour's `system_description` (`topology.py:255, 370-373, 414`). The `KeyError` raised when one of those keys is missing is not modelled. An empty `neighbors` is modelled (`NoNeighbor`).
- CDP entries are taken to carry the `interface_addresses`, `management_addresses`, `port_id`, `local_interface`, `software_version` and `platform` keys. The `KeyError` and `TypeError` raised when one is missing are not modelled.
- The state the methods leave behind after an error is not specified. The source raises and abandons the run.
- Logging calls are left out.
- The `custom` abstraction block of a new device (`topology.py:652-655`) is left out. It only repeats the OS.
