/** `create_yaml_dict` (topology.py lines 536-598): the testbed is written
    out as YAML values, and the result is merged into the testbed file that
    was loaded at the start. Devices the file already describes are kept as
    they are; their topology entries gain, and where names clash take, the
    interfaces of the testbed. */
module Yaml {
  import opened Wrappers
  import opened OMaps
  import opened Testbeds

  /** A YAML value as the loader returns it. Mapping order plays no part in
      what the creator writes, so mappings are plain maps. */
  datatype Node = Null | Str(s: string) | Map(entries: map<string, Node>) | List(items: seq<Node>)

  /** The loaded testbed file: its `devices` mapping, and its `topology`
      mapping, `None` when `testbed_yaml.get('topology')` is `None`. */
  datatype TestbedYaml = TestbedYaml(devices: map<string, Node>, topology: Option<map<string, Node>>)

  /** A string-or-`None` attribute as YAML. */
  function OptStr(o: Option<string>): (r: Node)
    ensures r == Null <==> o.None?
    ensures o.Some? ==> r == Str(o.value)
  {
    if o.Some? then Str(o.value) else Null
  }

  /** One hop of a proxy list: `{'device': ..., 'command': ...}`. */
  function HopNode(h: Hop): Node {
    Map(map["device" := Str(h.device), "command" := Str(h.command)])
  }

  /** A connection's `proxy`: absent, a device name, or the hops of the
      proxy list, as the list holds them when the file is written. */
  function ProxyNode(tb: Testbed, p: Option<Proxy>): (r: Node)
    requires p.Some? && p.value.ProxyChain? ==> p.value.id < |tb.proxies|
    ensures p.Some? && p.value.ProxyChain? ==>
      r.List? && |r.items| == |tb.proxies[p.value.id]| &&
      forall k :: 0 <= k < |r.items| ==> r.items[k] == HopNode(tb.proxies[p.value.id][k])
  {
    match p
    case None => Null
    case Some(ProxyName(n)) => Str(n)
    case Some(ProxyChain(id)) =>
      List(seq(|tb.proxies[id]|, k requires 0 <= k < |tb.proxies[id]| => HopNode(tb.proxies[id][k])))
  }

  /** `{'protocol': ..., 'ip': ..., 'proxy': ...}`. */
  function ConnectionNode(tb: Testbed, c: Connection): Node
    requires c.proxy.Some? && c.proxy.value.ProxyChain? ==> c.proxy.value.id < |tb.proxies|
  {
    Map(map["protocol" := OptStr(c.protocol), "ip" := OptStr(c.ip), "proxy" := ProxyNode(tb, c.proxy)])
  }

  /** The entries the loop over `device.connections` writes. */
  function ConnectionEntries(tb: Testbed, d: Device): (r: map<string, Node>)
    requires tb.DeviceOk(d)
    ensures forall n :: n in r <==> n in d.connections.values
  {
    map k | k in d.connections.values :: ConnectionNode(tb, d.connections.values[k])
  }

  /** The value of the loop variable `connect` after the loop over the
      connections of `d`: its last key, or what it held before when `d` has
      no connection. */
  function LastConnection(d: Device, connect: Option<string>): (r: Option<string>)
    ensures d.connections.keys != [] ==> r == Some(d.connections.keys[|d.connections.keys| - 1])
    ensures d.connections.keys == [] ==> r == connect
  {
    if d.connections.keys == [] then connect else Some(d.connections.keys[|d.connections.keys| - 1])
  }

  /** The entry of a device the file does not describe. */
  function DeviceNode(tb: Testbed, d: Device, credentials: Node, via: string): Node
    requires tb.DeviceOk(d)
  {
    Map(map["type" := Str(d.devType), "os" := OptStr(d.os), "credentials" := credentials,
            "connections" := Map(ConnectionEntries(tb, d)["defaults" := Map(map["via" := Str(via)])])])
  }

  /** `{'type': ...}` with `'link': link.name` when the interface is on a
      link. */
  function InterfaceNode(tb: Testbed, x: Interface): (r: Node)
    requires x.link.Some? ==> x.link.value < |tb.links|
    ensures r.Map? && "type" in r.entries && r.entries["type"] == Str(x.ifType)
    ensures "link" in r.entries <==> x.link.Some?
    ensures x.link.Some? ==> r.entries["link"] == Str(tb.links[x.link.value].name)
    ensures r.entries.Keys <= {"type", "link"}
  {
    Map(if x.link.Some? then map["type" := Str(x.ifType), "link" := Str(tb.links[x.link.value].name)]
        else map["type" := Str(x.ifType)])
  }

  /** `interface_dict['interfaces']` of a device: one entry per interface,
      under its name. */
  function InterfaceEntries(tb: Testbed, d: Device): (r: map<string, Node>)
    requires tb.Valid() && tb.DeviceOk(d)
    ensures forall n :: n in r <==> n in d.interfaces
  {
    map n | n in d.interfaces :: InterfaceNode(tb, tb.interfaces[d.interfaces[n]])
  }

  // ---------------------------------------------------------------------
  // yaml_dict

  /** `yaml_dict['devices']`, `yaml_dict['topology']` (device to its
      interface entries) and the loop variable `connect`. */
  datatype Built = Built(devices: map<string, Node>, topology: map<string, map<string, Node>>, connect: Option<string>)

  /** One device of the loop over `testbed.devices` (its key is the
      device's name in a valid testbed). */
  function BuildStep(tb: Testbed, known: map<string, Node>, credentials: Node, b: Built, name: string): Result<Built>
    requires tb.Valid() && name in tb.devices.values
  {
    var d := tb.devices.values[name];
    var ifs := InterfaceEntries(tb, d);
    if name in known then Ok(b.(topology := b.topology[name := ifs]))
    else
      match LastConnection(d, b.connect)
      case None => Err(UnboundConnection(name))
      case Some(via) => Ok(Built(b.devices[name := DeviceNode(tb, d, credentials, via)], b.topology[name := ifs], Some(via)))
  }

  /** What one device adds: its topology entry always, its device entry and
      the new `connect` only when the file lacks it; it fails only on a new
      device without connections while `connect` is unbound. */
  lemma BuildStepFacts(tb: Testbed, known: map<string, Node>, credentials: Node, b: Built, name: string)
    requires tb.Valid() && name in tb.devices.values
    ensures var r := BuildStep(tb, known, credentials, b, name);
      var d := tb.devices.values[name];
      var via := LastConnection(d, b.connect);
      (r.Ok? <==> name in known || via.Some?) &&
      (r.Err? ==> r.error == UnboundConnection(name)) &&
      (r.Ok? ==> r.value.topology == b.topology[name := InterfaceEntries(tb, d)]) &&
      (r.Ok? && name in known ==> r.value.devices == b.devices && r.value.connect == b.connect) &&
      (r.Ok? && name !in known ==>
         r.value.devices == b.devices[name := DeviceNode(tb, d, credentials, via.value)] && r.value.connect == via)
  {
  }

  /** The loop over the devices `names`, from an empty `yaml_dict`. */
  function BuildAll(tb: Testbed, known: map<string, Node>, credentials: Node, names: seq<string>): Result<Built>
    requires tb.Valid() && forall n :: n in names ==> n in tb.devices.values
    decreases |names|
  {
    if names == [] then Ok(Built(map[], map[], None))
    else
      match BuildAll(tb, known, credentials, names[..|names| - 1])
      case Err(e) => Err(e)
      case Ok(b) => BuildStep(tb, known, credentials, b, names[|names| - 1])
  }

  /** The devices of `names` the file does not describe, in order. */
  function NewNames(names: seq<string>, known: map<string, Node>): (r: seq<string>)
    decreases |names|
  {
    if names == [] then []
    else NewNames(names[..|names| - 1], known) + (if names[|names| - 1] in known then [] else [names[|names| - 1]])
  }

  /** A name is new exactly when it is one of `names` the file lacks. */
  lemma {:induction false} NewNamesMembers(names: seq<string>, known: map<string, Node>, n: string)
    ensures n in NewNames(names, known) <==> n in names && n !in known
    decreases |names|
  {
    if names != [] {
      NewNamesMembers(names[..|names| - 1], known, n);
      assert names == names[..|names| - 1] + [names[|names| - 1]];
    }
  }

  /** The first new device, if there is one, has a connection. */
  ghost predicate FirstNewConnected(tb: Testbed, known: map<string, Node>, names: seq<string>)
    requires tb.Valid() && forall n :: n in names ==> n in tb.devices.values
  {
    var nn := NewNames(names, known);
    nn != [] ==> (NewNamesMembers(names, known, nn[0]); tb.devices.values[nn[0]].connections.keys != [])
  }

  /** The loop fails exactly when the first device it writes has no
      connection, for `connect` is then read before the inner loop ever
      bound it; it fails naming that device. Once some device was written,
      `connect` stays bound. */
  lemma {:induction false} BuildAllOk(tb: Testbed, known: map<string, Node>, credentials: Node, names: seq<string>)
    requires tb.Valid() && forall n :: n in names ==> n in tb.devices.values
    ensures var r := BuildAll(tb, known, credentials, names);
      var nn := NewNames(names, known);
      (r.Ok? <==> FirstNewConnected(tb, known, names)) &&
      (r.Err? ==> nn != [] && r.error == UnboundConnection(nn[0])) &&
      (r.Ok? ==> (r.value.connect.Some? <==> nn != []))
    decreases |names|
  {
    if names != [] {
      var pre := names[..|names| - 1];
      var last := names[|names| - 1];
      BuildAllOk(tb, known, credentials, pre);
      var bo := BuildAll(tb, known, credentials, pre);
      if bo.Ok? {
        BuildStepFacts(tb, known, credentials, bo.value, last);
      }
      var nn0 := NewNames(pre, known);
      var nn := NewNames(names, known);
      assert nn0 != [] ==> nn[0] == nn0[0];
      assert nn0 == [] && last !in known ==> nn == [last];
    }
  }

  /** After the loop `yaml_dict['devices']` holds an entry for each new
      device and `yaml_dict['topology']` one for every device, with that
      device's interface entries. */
  lemma BuildAllKeys(tb: Testbed, known: map<string, Node>, credentials: Node, names: seq<string>)
    requires tb.Valid() && forall n :: n in names ==> n in tb.devices.values
    ensures var r := BuildAll(tb, known, credentials, names);
      r.Ok? ==>
        (forall n :: n in r.value.devices <==> n in names && n !in known) &&
        (forall n :: n in r.value.topology <==> n in names) &&
        TopologyEntries(tb, r.value.topology)
  {
    BuildAllDeviceKeys(tb, known, credentials, names);
    BuildAllTopologyKeys(tb, known, credentials, names);
    BuildAllTopology(tb, known, credentials, names);
  }

  lemma {:induction false} BuildAllDeviceKeys(tb: Testbed, known: map<string, Node>, credentials: Node, names: seq<string>)
    requires tb.Valid() && forall n :: n in names ==> n in tb.devices.values
    ensures var r := BuildAll(tb, known, credentials, names);
      r.Ok? ==> forall n :: n in r.value.devices <==> n in names && n !in known
    decreases |names|
  {
    if names != [] {
      var pre := names[..|names| - 1];
      BuildAllDeviceKeys(tb, known, credentials, pre);
      var bo := BuildAll(tb, known, credentials, pre);
      if bo.Ok? {
        BuildStepFacts(tb, known, credentials, bo.value, names[|names| - 1]);
      }
      assert names == pre + [names[|names| - 1]];
    }
  }

  lemma {:induction false} BuildAllTopologyKeys(tb: Testbed, known: map<string, Node>, credentials: Node, names: seq<string>)
    requires tb.Valid() && forall n :: n in names ==> n in tb.devices.values
    ensures var r := BuildAll(tb, known, credentials, names);
      r.Ok? ==> forall n :: n in r.value.topology <==> n in names
    decreases |names|
  {
    if names != [] {
      var pre := names[..|names| - 1];
      BuildAllTopologyKeys(tb, known, credentials, pre);
      var bo := BuildAll(tb, known, credentials, pre);
      if bo.Ok? {
        BuildStepFacts(tb, known, credentials, bo.value, names[|names| - 1]);
      }
      assert names == pre + [names[|names| - 1]];
    }
  }

  lemma {:induction false} BuildAllTopology(tb: Testbed, known: map<string, Node>, credentials: Node, names: seq<string>)
    requires tb.Valid() && forall n :: n in names ==> n in tb.devices.values
    ensures var r := BuildAll(tb, known, credentials, names);
      r.Ok? ==> TopologyEntries(tb, r.value.topology)
    decreases |names|
  {
    if names != [] {
      var pre := names[..|names| - 1];
      BuildAllTopology(tb, known, credentials, pre);
      var bo := BuildAll(tb, known, credentials, pre);
      if bo.Ok? {
        BuildStepFacts(tb, known, credentials, bo.value, names[|names| - 1]);
      }
    }
  }

  /** Each device in `topology` has the interface entries of its testbed
      device. */
  ghost predicate TopologyEntries(tb: Testbed, topology: map<string, map<string, Node>>)
    requires tb.Valid()
  {
    forall n :: n in topology && n in tb.devices.values ==> topology[n] == InterfaceEntries(tb, tb.devices.values[n])
  }

  /** Every entry in `devs` of a device with connections is the one a new
      device gets: its own type, OS and connections, the credentials of the
      file, and a `defaults` entry naming its last connection. */
  ghost predicate NewEntries(tb: Testbed, credentials: Node, devs: map<string, Node>)
    requires tb.Valid()
  {
    forall n :: n in devs && n in tb.devices.values && tb.devices.values[n].connections.keys != [] ==>
      devs[n] == DeviceNode(tb, tb.devices.values[n], credentials, tb.devices.values[n].connections.keys[|tb.devices.values[n].connections.keys| - 1])
  }

  lemma NewEntriesPut(tb: Testbed, credentials: Node, devs: map<string, Node>, name: string, via: Option<string>, connect: Option<string>)
    requires tb.Valid() && NewEntries(tb, credentials, devs) && name in tb.devices.values
    requires via == LastConnection(tb.devices.values[name], connect) && via.Some?
    ensures NewEntries(tb, credentials, devs[name := DeviceNode(tb, tb.devices.values[name], credentials, via.value)])
  {
  }

  /** A new device with connections is written as `NewEntries` says. */
  lemma {:induction false} BuildAllDevices(tb: Testbed, known: map<string, Node>, credentials: Node, names: seq<string>)
    requires tb.Valid() && forall n :: n in names ==> n in tb.devices.values
    ensures var r := BuildAll(tb, known, credentials, names);
      r.Ok? ==> NewEntries(tb, credentials, r.value.devices)
    decreases |names|
  {
    if names != [] {
      var pre := names[..|names| - 1];
      var last := names[|names| - 1];
      BuildAllDevices(tb, known, credentials, pre);
      var bo := BuildAll(tb, known, credentials, pre);
      if bo.Ok? {
        var b := bo.value;
        BuildStepFacts(tb, known, credentials, b, last);
        var via := LastConnection(tb.devices.values[last], b.connect);
        if last !in known && via.Some? {
          NewEntriesPut(tb, credentials, b.devices, last, via, b.connect);
        }
      }
    }
  }

  // ---------------------------------------------------------------------
  // The merge

  /** The devices of `yaml_dict` the file lacks are added; no entry of the
      file is replaced. */
  function MergeDevices(file: map<string, Node>, built: map<string, Node>): (r: map<string, Node>)
    ensures forall k :: k in r <==> k in file || k in built
    ensures forall k :: k in file ==> r[k] == file[k]
    ensures forall k :: k in built && k !in file ==> r[k] == built[k]
  {
    file + (map k | k in built && k !in file :: built[k])
  }

  /** The file's devices with those of `done` that it lacks added: the
      merge part way through the loop. */
  function MergedSoFar(file: map<string, Node>, built: map<string, Node>, done: set<string>): (r: map<string, Node>)
    requires done <= built.Keys
  {
    file + (map k | k in done && k !in file :: built[k])
  }

  /** One more device: added when the file lacks it, ignored otherwise. */
  lemma MergedSoFarStep(file: map<string, Node>, built: map<string, Node>, done: set<string>, k: string)
    requires done <= built.Keys && k in built && k !in done
    ensures var m := MergedSoFar(file, built, done);
      (k in m <==> k in file) &&
      MergedSoFar(file, built, done + {k}) == (if k in m then m else m[k := built[k]])
  {
  }

  /** `interface_dict`: `{'interfaces': {...}}`. */
  function TopologyNode(ifs: map<string, Node>): Node {
    Map(map["interfaces" := Map(ifs)])
  }

  /** `testbed_yaml['topology'][device]['interfaces'].update(ifs)`: fails
      unless the entry is a mapping whose `interfaces` is a mapping. */
  function MergeEntry(existing: Node, ifs: map<string, Node>, device: string): (r: Result<Node>)
    ensures r.Ok? <==> existing.Map? && "interfaces" in existing.entries && existing.entries["interfaces"].Map?
    ensures r.Err? ==> r.error == BadTopology(device)
  {
    match existing
    case Map(m) =>
      if "interfaces" in m && m["interfaces"].Map? then
        Ok(Map(m["interfaces" := Map(m["interfaces"].entries + ifs)]))
      else Err(BadTopology(device))
    case _ => Err(BadTopology(device))
  }

  /** The loop over `yaml_dict['topology']` into an existing topology. */
  function MergeTopology(existing: map<string, Node>, built: map<string, map<string, Node>>, order: seq<string>): Result<map<string, Node>>
    requires forall d :: d in order ==> d in built
    decreases |order|
  {
    if order == [] then Ok(existing)
    else
      match MergeTopology(existing, built, order[..|order| - 1])
      case Err(e) => Err(e)
      case Ok(t) =>
        var d := order[|order| - 1];
        if d !in t then Ok(t[d := TopologyNode(built[d])])
        else
          match MergeEntry(t[d], built[d], d)
          case Err(e) => Err(e)
          case Ok(n) => Ok(t[d := n])
  }

  /** An existing topology entry the merge can update. */
  ghost predicate Mergeable(n: Node) {
    n.Map? && "interfaces" in n.entries && n.entries["interfaces"].Map?
  }

  /** The merge fails when a device it meets already has an entry that is
      not a mapping with an `interfaces` mapping. */
  lemma {:induction false} MergeTopologyOk(existing: map<string, Node>, built: map<string, map<string, Node>>, order: seq<string>)
    requires forall d :: d in order ==> d in built
    requires forall i, j :: 0 <= i < j < |order| ==> order[i] != order[j]
    ensures MergeTopology(existing, built, order).Ok? ==> forall d :: d in order && d in existing ==> Mergeable(existing[d])
    decreases |order|
  {
    if order != [] && MergeTopology(existing, built, order).Ok? {
      var pre := order[..|order| - 1];
      var d := order[|order| - 1];
      MergeTopologyOk(existing, built, pre);
      MergeTopologyValue(existing, built, pre);
      assert order == pre + [d];
      assert d !in pre;
    }
  }

  /** An updatable topology entry with `ifs` merged into its `interfaces`. */
  function WithInterfaces(n: Node, ifs: map<string, Node>): Node
    requires Mergeable(n)
  {
    Map(n.entries["interfaces" := Map(n.entries["interfaces"].entries + ifs)])
  }

  /** `existing` with the devices of `done` merged in: a device without an
      entry gets the new one, a device with one keeps its other keys and the
      interface entries the testbed does not redefine, and takes those it
      does; entries of other devices are untouched. */
  ghost function MergedTopologySoFar(existing: map<string, Node>, built: map<string, map<string, Node>>, done: set<string>): map<string, Node>
    requires done <= built.Keys
    requires forall d :: d in done && d in existing ==> Mergeable(existing[d])
  {
    map d | d in existing.Keys + done ::
      if d !in done then existing[d]
      else if d in existing then WithInterfaces(existing[d], built[d])
      else TopologyNode(built[d])
  }

  /** The devices of a write order. */
  ghost function Listed(order: seq<string>): set<string> {
    set d | d in order
  }

  /** One more device updates that device's entry alone. */
  lemma MergedTopologyStep(existing: map<string, Node>, built: map<string, map<string, Node>>, done: set<string>, d: string)
    requires done <= built.Keys && d in built && d !in done
    requires forall e :: e in done + {d} && e in existing ==> Mergeable(existing[e])
    ensures var t := MergedTopologySoFar(existing, built, done);
      && (d in t <==> d in existing)
      && (d in t ==> t[d] == existing[d])
      && MergedTopologySoFar(existing, built, done + {d}) ==
           if d in t then t[d := WithInterfaces(t[d], built[d])] else t[d := TopologyNode(built[d])]
  {
  }

  /** The last device of `order` as the merge meets it. */
  lemma MergeTopologyLast(existing: map<string, Node>, built: map<string, map<string, Node>>, order: seq<string>, t: map<string, Node>)
    requires order != [] && forall d :: d in order ==> d in built
    requires MergeTopology(existing, built, order[..|order| - 1]) == Ok(t)
    requires var d := order[|order| - 1]; d in t ==> Mergeable(t[d])
    ensures var d := order[|order| - 1];
      MergeTopology(existing, built, order) ==
        Ok(if d in t then t[d := WithInterfaces(t[d], built[d])] else t[d := TopologyNode(built[d])])
  {
  }

  /** Otherwise the merge succeeds, with the result `MergedTopologySoFar`
      describes. */
  lemma {:induction false} MergeTopologyValue(existing: map<string, Node>, built: map<string, map<string, Node>>, order: seq<string>)
    requires forall d :: d in order ==> d in built
    requires forall i, j :: 0 <= i < j < |order| ==> order[i] != order[j]
    requires forall d :: d in order && d in existing ==> Mergeable(existing[d])
    ensures MergeTopology(existing, built, order) == Ok(MergedTopologySoFar(existing, built, Listed(order)))
    decreases |order|
  {
    if order != [] {
      var pre := order[..|order| - 1];
      var last := order[|order| - 1];
      assert order == pre + [last];
      MergeTopologyValue(existing, built, pre);
      var done := Listed(pre);
      assert last !in done;
      MergedTopologyStep(existing, built, done, last);
      MergeTopologyLast(existing, built, order, MergedTopologySoFar(existing, built, done));
      assert Listed(order) == done + {last};
    } else {
      assert Listed(order) == {};
      assert MergedTopologySoFar(existing, built, {}) == existing;
    }
  }

  /** Both halves together: the merge fails exactly on an unusable existing
      entry, and otherwise updates each device of `order` as described. */
  lemma MergeTopologySpec(existing: map<string, Node>, built: map<string, map<string, Node>>, order: seq<string>)
    requires forall d :: d in order ==> d in built
    requires forall i, j :: 0 <= i < j < |order| ==> order[i] != order[j]
    ensures var r := MergeTopology(existing, built, order);
      (r.Ok? <==> forall d :: d in order && d in existing ==> Mergeable(existing[d])) &&
      (r.Ok? ==>
        r.value.Keys == existing.Keys + (set d | d in order) &&
        (forall d :: d in existing && d !in order ==> r.value[d] == existing[d]) &&
        (forall d :: d in order && d !in existing ==> r.value[d] == TopologyNode(built[d])) &&
        forall d :: d in order && d in existing ==>
          r.value[d] == Map(existing[d].entries["interfaces" := Map(existing[d].entries["interfaces"].entries + built[d])]))
  {
    MergeTopologyOk(existing, built, order);
    if forall d :: d in order && d in existing ==> Mergeable(existing[d]) {
      MergeTopologyValue(existing, built, order);
    }
  }

  /** The combining step of `create_yaml_dict`: `yaml_dict` merged into the
      loaded file, its topology entries taken in the order `order` in which
      the devices were written. */
  function Merge(file: TestbedYaml, b: Built, order: seq<string>): Result<TestbedYaml>
    requires forall d :: d in order ==> d in b.topology
  {
    var devices := MergeDevices(file.devices, b.devices);
    if file.topology.None? then
      Ok(TestbedYaml(devices, Some(map d | d in b.topology :: TopologyNode(b.topology[d]))))
    else
      match MergeTopology(file.topology.value, b.topology, order)
      case Err(e) => Err(e)
      case Ok(t) => Ok(TestbedYaml(devices, Some(t)))
  }

  /** The merge fails only on an unusable existing topology entry. When it
      succeeds it keeps every device entry of the file and adds those of
      `yaml_dict`, and every device of `order` has an updatable topology
      entry whose `interfaces` hold its new interface entries, next to the
      other interface entries the file had for it. */
  lemma MergeSpec(file: TestbedYaml, b: Built, order: seq<string>)
    requires forall d :: d in order <==> d in b.topology
    requires forall i, j :: 0 <= i < j < |order| ==> order[i] != order[j]
    ensures var r := Merge(file, b, order);
      (r.Ok? <==> file.topology.Some? ==> forall d :: d in order && d in file.topology.value ==> Mergeable(file.topology.value[d])) &&
      (r.Ok? ==>
        r.value.devices == MergeDevices(file.devices, b.devices) &&
        r.value.topology.Some? &&
        forall d :: d in order ==>
          d in r.value.topology.value && Mergeable(r.value.topology.value[d]) &&
          var ifs := r.value.topology.value[d].entries["interfaces"].entries;
          (forall n :: n in b.topology[d] ==> n in ifs && ifs[n] == b.topology[d][n]) &&
          (file.topology.Some? && d in file.topology.value && Mergeable(file.topology.value[d]) ==>
             forall n :: n in file.topology.value[d].entries["interfaces"].entries && n !in b.topology[d] ==>
               n in ifs && ifs[n] == file.topology.value[d].entries["interfaces"].entries[n]))
  {
    if file.topology.Some? {
      MergeTopologySpec(file.topology.value, b.topology, order);
    }
  }

  /** `create_yaml_dict` after the testbed is complete: `credentials` is the
      credential dictionary taken from the file, which is not part of this
      model. */
  function CreateYaml(tb: Testbed, file: TestbedYaml, credentials: Node): Result<TestbedYaml>
    requires tb.Valid()
  {
    match BuildAll(tb, file.devices, credentials, tb.devices.keys)
    case Err(e) => Err(e)
    case Ok(b) =>
      BuildAllKeys(tb, file.devices, credentials, tb.devices.keys);
      Merge(file, b, tb.devices.keys)
  }

  /** The merged file fails exactly when the first new device has no
      connection, naming that device, or when a testbed device already has
      a topology entry the merge cannot update. */
  lemma CreateYamlOk(tb: Testbed, file: TestbedYaml, credentials: Node)
    requires tb.Valid()
    ensures var r := CreateYaml(tb, file, credentials);
      (r.Ok? <==> FirstNewConnected(tb, file.devices, tb.devices.keys) &&
                  (file.topology.Some? ==> forall d :: d in tb.devices.values && d in file.topology.value ==> Mergeable(file.topology.value[d]))) &&
      (!FirstNewConnected(tb, file.devices, tb.devices.keys) ==>
         var nn := NewNames(tb.devices.keys, file.devices);
         nn != [] && r == Err(UnboundConnection(nn[0])))
  {
    var keys := tb.devices.keys;
    BuildAllOk(tb, file.devices, credentials, keys);
    BuildAllKeys(tb, file.devices, credentials, keys);
    var bo := BuildAll(tb, file.devices, credentials, keys);
    if bo.Ok? {
      assert forall d :: d in keys <==> d in tb.devices.values;
      MergeSpec(file, bo.value, keys);
    }
  }

  /** Every device entry of the file is kept as it was and every new device
      of the testbed is added; a new device with connections is written with
      its own type, OS and connections, the given credentials, and a
      `defaults` entry naming its last connection. */
  lemma CreateYamlDevices(tb: Testbed, file: TestbedYaml, credentials: Node)
    requires tb.Valid()
    ensures var r := CreateYaml(tb, file, credentials);
      r.Ok? ==>
        (forall k :: k in r.value.devices <==> k in file.devices || k in tb.devices.values) &&
        (forall k :: k in file.devices ==> r.value.devices[k] == file.devices[k]) &&
        forall k :: k in tb.devices.values && k !in file.devices && tb.devices.values[k].connections.keys != [] ==>
          var d := tb.devices.values[k];
          r.value.devices[k] == DeviceNode(tb, d, credentials, d.connections.keys[|d.connections.keys| - 1])
  {
    var keys := tb.devices.keys;
    BuildAllKeys(tb, file.devices, credentials, keys);
    BuildAllDevices(tb, file.devices, credentials, keys);
    var bo := BuildAll(tb, file.devices, credentials, keys);
    if bo.Ok? {
      var b := bo.value;
      assert forall d :: d in keys <==> d in tb.devices.values;
      MergeSpec(file, b, keys);
      assert NewEntries(tb, credentials, b.devices);
      var m := MergeDevices(file.devices, b.devices);
      assert forall k :: k in m <==> k in file.devices || k in tb.devices.values;
    }
  }

  /** Every testbed device has a topology entry the merge can update, whose
      `interfaces` hold the testbed's entry for each of its interfaces, next
      to the other interface entries the file had for it. */
  lemma CreateYamlTopology(tb: Testbed, file: TestbedYaml, credentials: Node)
    requires tb.Valid()
    ensures var r := CreateYaml(tb, file, credentials);
      r.Ok? ==>
        r.value.topology.Some? &&
        forall d :: d in tb.devices.values ==>
          d in r.value.topology.value && Mergeable(r.value.topology.value[d]) &&
          var ifs := r.value.topology.value[d].entries["interfaces"].entries;
          var dev := tb.devices.values[d];
          (forall n :: n in dev.interfaces ==> n in ifs && ifs[n] == InterfaceNode(tb, tb.interfaces[dev.interfaces[n]])) &&
          (file.topology.Some? && d in file.topology.value && Mergeable(file.topology.value[d]) ==>
             forall n :: n in file.topology.value[d].entries["interfaces"].entries && n !in dev.interfaces ==>
               n in ifs && ifs[n] == file.topology.value[d].entries["interfaces"].entries[n])
  {
    var keys := tb.devices.keys;
    BuildAllKeys(tb, file.devices, credentials, keys);
    var bo := BuildAll(tb, file.devices, credentials, keys);
    if bo.Ok? {
      assert forall d :: d in keys <==> d in tb.devices.values;
      MergeSpec(file, bo.value, keys);
    }
  }

  // ---------------------------------------------------------------------
  // The loops of create_yaml_dict

  /** The entries of the first `i` connections of `d`. */
  ghost function ConnectionsUpTo(tb: Testbed, d: Device, i: nat): map<string, Node>
    requires tb.DeviceOk(d) && i <= |d.connections.keys|
  {
    map k | k in d.connections.keys[..i] :: ConnectionNode(tb, d.connections.values[k])
  }

  /** One more connection adds its own entry. */
  lemma ConnectionsUpToNext(tb: Testbed, d: Device, i: nat)
    requires tb.DeviceOk(d) && i < |d.connections.keys|
    ensures var k := d.connections.keys[i];
      ConnectionsUpTo(tb, d, i + 1) == ConnectionsUpTo(tb, d, i)[k := ConnectionNode(tb, d.connections.values[k])]
  {
    var ks := d.connections.keys;
    assert ks[..i + 1] == ks[..i] + [ks[i]];
  }

  /** All the connections give `ConnectionEntries`. */
  lemma ConnectionsUpToAll(tb: Testbed, d: Device)
    requires tb.DeviceOk(d)
    ensures ConnectionsUpTo(tb, d, |d.connections.keys|) == ConnectionEntries(tb, d)
  {
    assert d.connections.keys[..|d.connections.keys|] == d.connections.keys;
  }

  /** The loop over `device.connections`: `conn_dict` and the value the loop
      variable `connect` is left holding. */
  method WriteConnectionEntries(tb: Testbed, d: Device, connect: Option<string>)
    returns (entries: map<string, Node>, last: Option<string>)
    requires tb.DeviceOk(d)
    ensures entries == ConnectionEntries(tb, d)
    ensures last == LastConnection(d, connect)
  {
    var ks := d.connections.keys;
    entries, last := map[], connect;
    var i := 0;
    while i < |ks|
      invariant 0 <= i <= |ks|
      invariant entries == ConnectionsUpTo(tb, d, i)
      invariant last == if i == 0 then connect else Some(ks[i - 1])
    {
      ConnectionsUpToNext(tb, d, i);
      var c := d.connections.values[ks[i]];
      entries := entries[ks[i] := ConnectionNode(tb, c)];
      last := Some(ks[i]);
      i := i + 1;
    }
    ConnectionsUpToAll(tb, d);
  }

  /** The entries of the interfaces of `d` named in `done`. */
  ghost function InterfacesDone(tb: Testbed, d: Device, done: set<string>): map<string, Node>
    requires tb.Valid() && tb.DeviceOk(d) && done <= d.interfaces.Keys
  {
    map n | n in done :: InterfaceNode(tb, tb.interfaces[d.interfaces[n]])
  }

  /** One more interface adds its own entry. */
  lemma InterfacesDoneNext(tb: Testbed, d: Device, done: set<string>, n: string)
    requires tb.Valid() && tb.DeviceOk(d) && done <= d.interfaces.Keys && n in d.interfaces
    ensures InterfacesDone(tb, d, done + {n}) == InterfacesDone(tb, d, done)[n := InterfaceNode(tb, tb.interfaces[d.interfaces[n]])]
  {
  }

  /** The loop over `device.interfaces.values()`, each interface written
      under its own name. */
  method WriteInterfaceEntries(tb: Testbed, d: Device) returns (entries: map<string, Node>)
    requires tb.Valid() && tb.DeviceOk(d)
    ensures entries == InterfaceEntries(tb, d)
  {
    entries := map[];
    var left := d.interfaces.Keys;
    while left != {}
      invariant left <= d.interfaces.Keys
      invariant entries == InterfacesDone(tb, d, d.interfaces.Keys - left)
      decreases left
    {
      var n :| n in left;
      InterfacesDoneNext(tb, d, d.interfaces.Keys - left, n);
      assert (d.interfaces.Keys - left) + {n} == d.interfaces.Keys - (left - {n});
      var x := tb.interfaces[d.interfaces[n]];
      var node := map["type" := Str(x.ifType)];
      if x.link.Some? {
        node := node["link" := Str(tb.links[x.link.value].name)];
      }
      entries := entries[x.name := Map(node)];
      left := left - {n};
    }
    assert InterfacesDone(tb, d, d.interfaces.Keys) == InterfaceEntries(tb, d);
  }

  /** The body of the loop over `testbed.devices.values()`. */
  method WriteDeviceEntry(tb: Testbed, known: map<string, Node>, credentials: Node, b: Built, name: string)
    returns (r: Result<Built>)
    requires tb.Valid() && name in tb.devices.values
    ensures r == BuildStep(tb, known, credentials, b, name)
  {
    var d := tb.devices.values[name];
    var devices, connect := b.devices, b.connect;
    if d.name !in known {
      var conns, last := WriteConnectionEntries(tb, d, connect);
      if last.None? {
        return Err(UnboundConnection(d.name));
      }
      connect := last;
      var node := map["type" := Str(d.devType), "os" := OptStr(d.os), "credentials" := credentials,
                      "connections" := Map(conns["defaults" := Map(map["via" := Str(last.value)])])];
      devices := devices[d.name := Map(node)];
    }
    var ifs := WriteInterfaceEntries(tb, d);
    r := Ok(Built(devices, b.topology[d.name := ifs], connect));
  }

  lemma {:induction false} BuildAllSticky(tb: Testbed, known: map<string, Node>, credentials: Node, names: seq<string>, i: nat)
    requires tb.Valid() && (forall n :: n in names ==> n in tb.devices.values)
    requires i <= |names| && BuildAll(tb, known, credentials, names[..i]).Err?
    ensures BuildAll(tb, known, credentials, names) == BuildAll(tb, known, credentials, names[..i])
    decreases |names| - i
  {
    if i < |names| {
      assert names[..i + 1][..i] == names[..i];
      BuildAllSticky(tb, known, credentials, names, i + 1);
    } else {
      assert names[..i] == names;
    }
  }

  lemma BuildAllNext(tb: Testbed, known: map<string, Node>, credentials: Node, names: seq<string>, i: nat, b: Built)
    requires tb.Valid() && (forall n :: n in names ==> n in tb.devices.values)
    requires i < |names| && BuildAll(tb, known, credentials, names[..i]) == Ok(b)
    ensures BuildAll(tb, known, credentials, names[..i + 1]) == BuildStep(tb, known, credentials, b, names[i])
  {
    assert names[..i + 1][..i] == names[..i];
  }

  /** The loop that writes `yaml_dict`. */
  method BuildYamlDict(tb: Testbed, known: map<string, Node>, credentials: Node) returns (r: Result<Built>)
    requires tb.Valid()
    ensures r == BuildAll(tb, known, credentials, tb.devices.keys)
  {
    var ks := tb.devices.keys;
    var b := Built(map[], map[], None);
    var i := 0;
    while i < |ks|
      invariant 0 <= i <= |ks|
      invariant BuildAll(tb, known, credentials, ks[..i]) == Ok(b)
    {
      BuildAllNext(tb, known, credentials, ks, i, b);
      var step := WriteDeviceEntry(tb, known, credentials, b, ks[i]);
      if step.Err? {
        BuildAllSticky(tb, known, credentials, ks, i + 1);
        return step;
      }
      b := step.value;
      i := i + 1;
    }
    assert ks[..i] == ks;
    return Ok(b);
  }

  lemma {:induction false} MergeTopologySticky(existing: map<string, Node>, built: map<string, map<string, Node>>, order: seq<string>, i: nat)
    requires (forall d :: d in order ==> d in built) && i <= |order|
    requires MergeTopology(existing, built, order[..i]).Err?
    ensures MergeTopology(existing, built, order) == MergeTopology(existing, built, order[..i])
    decreases |order| - i
  {
    if i < |order| {
      assert order[..i + 1][..i] == order[..i];
      MergeTopologySticky(existing, built, order, i + 1);
    } else {
      assert order[..i] == order;
    }
  }
}
