/** Turning newly discovered hosts into testbed devices (topology.py lines
    424-455 and 600-683): each new host gets one ssh connection per known
    proxy, a connection through the device that found it, and an interface
    per port it was seen on; a host that is already a device gets the ports
    it lacks. */
module Devices {
  import opened Wrappers
  import opened Text
  import opened OMaps
  import opened Names
  import opened Accumulators
  import opened Testbeds
  import opened Merger

  // ---------------------------------------------------------------------
  // write_proxy_chain

  /** The connection the proxy search stops at: not the `defaults` entry, an
      ssh protocol, and a proxy. */
  predicate SshWithProxy(key: string, c: Connection) {
    key != "defaults" && c.protocol == Some("ssh") && c.proxy.Some?
  }

  /** The first key of `keys`, in order, whose connection is `SshWithProxy`. */
  function FirstSshProxy(keys: seq<string>, conns: map<string, Connection>): (r: Option<string>)
    ensures r.Some? ==> r.value in keys && r.value in conns && SshWithProxy(r.value, conns[r.value])
    decreases |keys|
  {
    if keys == [] then None
    else if keys[0] in conns && SshWithProxy(keys[0], conns[keys[0]]) then Some(keys[0])
    else FirstSshProxy(keys[1..], conns)
  }

  /** The search finds the first matching connection, and finds nothing only
      when no connection matches. */
  lemma {:induction false} FirstSshProxySpec(keys: seq<string>, conns: map<string, Connection>)
    ensures var r := FirstSshProxy(keys, conns);
      (r.None? <==> forall k :: k in keys && k in conns ==> !SshWithProxy(k, conns[k])) &&
      (r.Some? ==> exists i :: 0 <= i < |keys| && keys[i] == r.value &&
                     forall j :: 0 <= j < i && keys[j] in conns ==> !SshWithProxy(keys[j], conns[keys[j]]))
    decreases |keys|
  {
    if keys != [] {
      FirstSshProxySpec(keys[1..], conns);
      assert keys == [keys[0]] + keys[1..];
      var r := FirstSshProxy(keys, conns);
      if r.Some? && !(keys[0] in conns && SshWithProxy(keys[0], conns[keys[0]])) {
        var i :| 0 <= i < |keys[1..]| && keys[1..][i] == r.value &&
                 forall j :: 0 <= j < i && keys[1..][j] in conns ==> !SshWithProxy(keys[1..][j], conns[keys[1..][j]]);
        assert keys[i + 1] == r.value;
        forall j | 0 <= j < i + 1 && keys[j] in conns ensures !SshWithProxy(keys[j], conns[keys[j]]) {
          if j > 0 { assert keys[j] == keys[1..][j - 1]; }
        }
      }
    }
  }

  /** The text `format` gives an address: the address, or `None`. */
  function AddressText(ip: Option<string>): string {
    if ip.Some? then ip.value else "None"
  }

  /** `'ssh {user}@{ip}'`. */
  function SshCommand(user: string, ip: string): string {
    "ssh " + user + "@" + ip
  }

  /** `credentials['default']['username']`. */
  function DefaultUser(device: string, credentials: Credentials): (r: Result<string>)
    ensures r.Ok? <==> "default" in credentials && "username" in credentials["default"]
    ensures r.Ok? ==> r.value == credentials["default"]["username"]
    ensures r.Err? ==> r.error == MissingCredential(device)
  {
    if "default" in credentials && "username" in credentials["default"] then Ok(credentials["default"]["username"])
    else Err(MissingCredential(device))
  }

  /** A proxy list extended for one more jump: its last hop now logs in to
      the connection address, and a hop from the finder to `ip` follows.
      This is the list primitive of `write_proxy_chain`; its ensures describe the
      new list, and the properties of the chain are `ProxyChainForResult`
      and `ProxyChainTwice`. */
  function ExtendChain(hops: seq<Hop>, finderName: string, user: string, connIp: Option<string>, ip: string): (r: seq<Hop>)
    requires hops != []
    ensures |r| == |hops| + 1
    ensures r[..|hops| - 1] == hops[..|hops| - 1]
    ensures r[|hops| - 1] == Hop(hops[|hops| - 1].device, SshCommand(user, AddressText(connIp)))
    ensures r[|hops|] == Hop(finderName, SshCommand(user, ip))
  {
    hops[..|hops| - 1] + [hops[|hops| - 1].(command := SshCommand(user, AddressText(connIp)))] + [Hop(finderName, SshCommand(user, ip))]
  }

  /** `write_proxy_chain`: the proxy for reaching a host the finder reported
      at `ip`. Without an ssh proxy on the finder it is the finder's name; a
      proxy list on the finder is extended in place (every holder of the
      list sees the change) and returned; a proxy name gives a new two-hop
      list. */
  function ProxyChainFor(finderName: string, tb: Testbed, credentials: Credentials, ip: string): (r: Result<(Testbed, Proxy)>)
    requires tb.Valid()
  {
    match tb.DeviceNamed(finderName)
    case Err(e) => Err(e)
    case Ok(finder) =>
      match DefaultUser(finderName, credentials)
      case Err(e) => Err(e)
      case Ok(user) =>
        match FirstSshProxy(finder.connections.keys, finder.connections.values)
        case None => Ok((tb, ProxyName(finderName)))
        case Some(c) =>
          var conn := finder.connections.values[c];
          match conn.proxy.value
          case ProxyChain(id) =>
            if tb.proxies[id] == [] then Err(EmptyProxyList(finderName))
            else
              var hops := ExtendChain(tb.proxies[id], finderName, user, conn.ip, ip);
              Ok((tb.(proxies := tb.proxies[id := hops]), ProxyChain(id)))
          case ProxyName(name) =>
            var hops := [Hop(name, "ssh " + AddressText(conn.ip)), Hop(finderName, SshCommand(user, ip))];
            Ok((tb.(proxies := tb.proxies + [hops]), ProxyChain(|tb.proxies|)))
  }

  /** `write_proxy_chain` leaves the devices, interfaces and links as they
      were, keeps the testbed well-formed, and adds at most one proxy
      list. */
  lemma ProxyChainForSpec(finderName: string, tb: Testbed, credentials: Credentials, ip: string)
    requires tb.Valid()
    ensures var r := ProxyChainFor(finderName, tb, credentials, ip);
      r.Ok? ==>
        var (t, px) := r.value;
        t.Valid() && t.devices == tb.devices && t.interfaces == tb.interfaces && t.links == tb.links &&
        |tb.proxies| <= |t.proxies| <= |tb.proxies| + 1
  {
    var r := ProxyChainFor(finderName, tb, credentials, ip);
    if r.Ok? {
      ProxiesGrowValid(tb, r.value.0.proxies);
    }
  }

  /** The proxy arena only changes by the list the result names: a proxy
      list is extended where it is and ends with the hop from the finder to
      `ip`, a proxy name's list is added at the end, and without a proxy the
      result is the finder's name and nothing changes. */
  lemma ProxyChainForResult(finderName: string, tb: Testbed, credentials: Credentials, ip: string)
    requires tb.Valid()
    ensures var r := ProxyChainFor(finderName, tb, credentials, ip);
      r.Ok? ==>
        var (t, px) := r.value;
        (px.ProxyChain? ==> px.id < |t.proxies| && |t.proxies[px.id]| >= 2 &&
                            t.proxies[px.id][|t.proxies[px.id]| - 1] == Hop(finderName, SshCommand(credentials["default"]["username"], ip))) &&
        (px.ProxyName? ==> px.name == finderName && t == tb) &&
        forall k :: 0 <= k < |tb.proxies| && (px.ProxyChain? ==> k != px.id) ==> k < |t.proxies| && t.proxies[k] == tb.proxies[k]
  {
  }

  /** The error cases: an unknown finder, a finder without a default user,
      or a proxy list with no hop to rewrite. */
  lemma ProxyChainForErr(finderName: string, tb: Testbed, credentials: Credentials, ip: string)
    requires tb.Valid()
    ensures var r := ProxyChainFor(finderName, tb, credentials, ip);
      r.Err? ==> r.error in {UnknownDevice(finderName), MissingCredential(finderName), EmptyProxyList(finderName)}
    ensures finderName !in tb.devices.values ==> ProxyChainFor(finderName, tb, credentials, ip) == Err(UnknownDevice(finderName))
  {
  }

  /** A finder whose connections have no ssh proxy is itself the proxy, and
      nothing changes. */
  lemma ProxyChainWithoutProxy(finderName: string, tb: Testbed, credentials: Credentials, ip: string)
    requires tb.Valid() && finderName in tb.devices.values
    requires "default" in credentials && "username" in credentials["default"]
    requires var conns := tb.devices.values[finderName].connections;
      forall k :: k in conns.keys && k in conns.values ==> !SshWithProxy(k, conns.values[k])
    ensures ProxyChainFor(finderName, tb, credentials, ip) == Ok((tb, ProxyName(finderName)))
  {
    var conns := tb.devices.values[finderName].connections;
    FirstSshProxySpec(conns.keys, conns.values);
  }

  /** The proxy list is shared: asking twice for the same finder extends the
      same list twice, and the hop the first call appended is rewritten by
      the second one to log in to the finder's connection address. */
  lemma ProxyChainTwice(finderName: string, tb: Testbed, credentials: Credentials, ip1: string, ip2: string)
    requires tb.Valid()
    requires var r1 := ProxyChainFor(finderName, tb, credentials, ip1);
      r1.Ok? && r1.value.1.ProxyChain? && r1.value.1.id < |tb.proxies|
    ensures var r1 := ProxyChainFor(finderName, tb, credentials, ip1);
      var r2 := ProxyChainFor(finderName, r1.value.0, credentials, ip2);
      var id := r1.value.1.id;
      var n := |tb.proxies[id]|;
      r2.Ok? && r2.value.1 == ProxyChain(id) && |r2.value.0.proxies[id]| == n + 2 &&
      r2.value.0.proxies[id][n].device == finderName &&
      r2.value.0.proxies[id][n + 1] == Hop(finderName, SshCommand(credentials["default"]["username"], ip2))
  {
    ProxyChainForSpec(finderName, tb, credentials, ip1);
    var r1 := ProxyChainFor(finderName, tb, credentials, ip1);
    assert r1.value.0.devices == tb.devices;
  }

  /** The `for ... else` search of `write_proxy_chain` over the finder's
      connections, in order. */
  method FindSshProxy(keys: seq<string>, conns: map<string, Connection>) returns (found: Option<string>)
    ensures found == FirstSshProxy(keys, conns)
  {
    var i := 0;
    while i < |keys|
      invariant 0 <= i <= |keys|
      invariant FirstSshProxy(keys, conns) == FirstSshProxy(keys[i..], conns)
    {
      var c := keys[i];
      assert keys[i..][1..] == keys[i + 1..];
      if c != "defaults" && c in conns && conns[c].protocol == Some("ssh") && conns[c].proxy.Some? {
        return Some(c);
      }
      i := i + 1;
    }
    return None;
  }

  // ---------------------------------------------------------------------
  // _write_devices_into_testbed

  /** `xs` lists the elements of `s`, each once: an iteration order of `s`. */
  ghost predicate Enumerates<T(!new)>(xs: seq<T>, s: set<T>) {
    (forall i, j :: 0 <= i < j < |xs| ==> xs[i] != xs[j]) && forall x :: x in xs <==> x in s
  }

  /** Iterates over a set: Python's order is fixed by hashing, which this
      model does not follow, so any order may come out. */
  method Enumerate<T(!new)>(s: set<T>) returns (xs: seq<T>)
    ensures Enumerates(xs, s)
  {
    xs := [];
    var rest := s;
    while rest != {}
      invariant forall x :: x in s <==> x in xs || x in rest
      invariant forall x :: x in xs ==> x !in rest
      invariant forall i, j :: 0 <= i < j < |xs| ==> xs[i] != xs[j]
      decreases |rest|
    {
      var x :| x in rest;
      xs := xs + [x];
      rest := rest - {x};
    }
  }

  /** The order in which the loops of `_write_devices_into_testbed` visit the
      three sets of one `device_list` entry. */
  datatype Orders = Orders(ips: seq<Option<string>>, ports: seq<string>, addresses: seq<string>)

  ghost predicate OrdersOf(o: Orders, rec: DeviceRecord) {
    Enumerates(o.ips, rec.ip) && Enumerates(o.ports, rec.ports) && Enumerates(o.addresses, rec.finder.addresses)
  }

  /** `str(addresses)` for a non-empty set of strings: `{'a', 'b'}`, in the
      iteration order. Assumes no address holds a quote or a backslash. */
  function SetRepr(order: seq<string>): string {
    "{" + QuotedList(order) + "}"
  }

  function QuotedList(xs: seq<string>): string
    decreases |xs|
  {
    if xs == [] then ""
    else if |xs| == 1 then "'" + xs[0] + "'"
    else QuotedList(xs[..|xs| - 1]) + ", '" + xs[|xs| - 1] + "'"
  }

  /** The connection `connections['ssh' + proxy]` for an address. */
  function SshVia(ip: Option<string>, proxy: string): Connection {
    Connection(Some("ssh"), ip, Some(ProxyName(proxy)))
  }

  /** The inner loop over the proxies for one address. */
  function PutProxies(c: OMap<string, Connection>, ip: Option<string>, proxies: seq<string>): (r: OMap<string, Connection>)
    ensures c.Valid() ==> r.Valid()
    decreases |proxies|
  {
    if proxies == [] then c
    else
      var p := proxies[|proxies| - 1];
      PutProxies(c, ip, proxies[..|proxies| - 1]).Put("ssh" + p, SshVia(ip, p))
  }

  /** The two nested loops: every address, and for each every proxy. */
  function SshConnections(ips: seq<Option<string>>, proxies: seq<string>): (r: OMap<string, Connection>)
    ensures r.Valid()
    decreases |ips|
  {
    if ips == [] then Empty()
    else PutProxies(SshConnections(ips[..|ips| - 1], proxies), ips[|ips| - 1], proxies)
  }

  /** The keys the proxy loop writes. */
  function SshKeys(proxies: seq<string>): set<string> {
    set p | p in proxies :: "ssh" + p
  }

  lemma SshKeyInjective(p: string, q: string)
    requires "ssh" + p == "ssh" + q
    ensures p == q
  {
    assert p == ("ssh" + p)[3..];
  }

  /** The proxy loop for one address adds a key per proxy. */
  lemma {:induction false} PutProxiesKeys(c: OMap<string, Connection>, ip: Option<string>, proxies: seq<string>)
    ensures PutProxies(c, ip, proxies).values.Keys == c.values.Keys + SshKeys(proxies)
    decreases |proxies|
  {
    if proxies != [] {
      var pre := proxies[..|proxies| - 1];
      var p := proxies[|proxies| - 1];
      PutProxiesKeys(c, ip, pre);
      assert proxies == pre + [p];
      assert SshKeys(proxies) == SshKeys(pre) + {"ssh" + p};
    }
  }

  /** Each key of a proxy holds that address. */
  lemma {:induction false} PutProxiesValues(c: OMap<string, Connection>, ip: Option<string>, proxies: seq<string>)
    ensures var r := PutProxies(c, ip, proxies);
      forall p :: p in proxies ==> "ssh" + p in r.values && r.values["ssh" + p] == SshVia(ip, p)
    decreases |proxies|
  {
    if proxies != [] {
      var pre := proxies[..|proxies| - 1];
      var p := proxies[|proxies| - 1];
      PutProxiesValues(c, ip, pre);
      var r := PutProxies(c, ip, proxies);
      forall q | q in proxies ensures "ssh" + q in r.values && r.values["ssh" + q] == SshVia(ip, q) {
        if "ssh" + q == "ssh" + p {
          SshKeyInjective(q, p);
        } else {
          assert q in pre by {
            assert proxies == pre + [p];
          }
        }
      }
    }
  }

  /** Every other key is left as it was. */
  lemma {:induction false} PutProxiesKeeps(c: OMap<string, Connection>, ip: Option<string>, proxies: seq<string>)
    ensures var r := PutProxies(c, ip, proxies);
      forall k :: k in c.values && k !in SshKeys(proxies) ==> k in r.values && r.values[k] == c.values[k]
    decreases |proxies|
  {
    if proxies != [] {
      var pre := proxies[..|proxies| - 1];
      var p := proxies[|proxies| - 1];
      PutProxiesKeeps(c, ip, pre);
      assert proxies == pre + [p];
      assert SshKeys(proxies) == SshKeys(pre) + {"ssh" + p};
    }
  }

  /** The proxy loop for one address adds a key per proxy, each holding that
      address, and leaves every other key as it was. */
  lemma PutProxiesSpec(c: OMap<string, Connection>, ip: Option<string>, proxies: seq<string>)
    ensures var r := PutProxies(c, ip, proxies);
      r.values.Keys == c.values.Keys + SshKeys(proxies) &&
      (forall p :: p in proxies ==> r.values["ssh" + p] == SshVia(ip, p)) &&
      forall k :: k in c.values && k !in SshKeys(proxies) ==> r.values[k] == c.values[k]
  {
    PutProxiesKeys(c, ip, proxies);
    PutProxiesValues(c, ip, proxies);
    PutProxiesKeeps(c, ip, proxies);
  }

  /** Without an address there is no ssh connection; otherwise there is one
      per proxy, and every one of them holds the last address of the
      iteration, because each address overwrites the ones before it. */
  lemma {:induction false} SshConnectionsSpec(ips: seq<Option<string>>, proxies: seq<string>)
    ensures var r := SshConnections(ips, proxies);
      (ips == [] ==> r.values.Keys == {}) &&
      (ips != [] ==> r.values.Keys == SshKeys(proxies) &&
                     forall p :: p in proxies ==> r.values["ssh" + p] == SshVia(ips[|ips| - 1], p))
    decreases |ips|
  {
    if ips != [] {
      var pre := ips[..|ips| - 1];
      SshConnectionsSpec(pre, proxies);
      PutProxiesSpec(SshConnections(pre, proxies), ips[|ips| - 1], proxies);
    }
  }

  /** The interfaces of a new device, one per port in iteration order; a port
      without a type aborts the run. */
  function NewInterfaces(tb: Testbed, dev: Device, ports: seq<string>): (r: Result<(Testbed, Device)>)
    ensures r.Ok? ==> var (t, d) := r.value;
      t.devices == tb.devices && t.links == tb.links && t.proxies == tb.proxies && tb.interfaces <= t.interfaces &&
      d == dev.(interfaces := d.interfaces) &&
      (tb.Valid() ==> t.Valid()) && (tb.DeviceOk(dev) ==> t.DeviceOk(d)) &&
      (forall e :: tb.DeviceOk(e) ==> t.DeviceOk(e))
    decreases |ports|
  {
    if ports == [] then Ok((tb, dev))
    else
      match NewInterfaces(tb, dev, ports[..|ports| - 1])
      case Err(e) => Err(e)
      case Ok((t, d)) =>
        match InterfaceType(ports[|ports| - 1])
        case Err(e) => Err(e)
        case Ok(ty) => Ok(t.NewInterface(d, ports[|ports| - 1], ty))
  }

  /** Building the interfaces fails exactly when a port has no type. */
  lemma {:induction false} NewInterfacesOk(tb: Testbed, dev: Device, ports: seq<string>)
    ensures NewInterfaces(tb, dev, ports).Ok? <==> forall p :: p in ports ==> InterfaceType(p).Ok?
    decreases |ports|
  {
    if ports != [] {
      var pre := ports[..|ports| - 1];
      NewInterfacesOk(tb, dev, pre);
      assert ports == pre + [ports[|ports| - 1]];
    }
  }

  /** The port `p` is an interface of `d` in `t`: registered under its name,
      on the device, with the type its name gives, and without a link. */
  ghost predicate PortBuilt(t: Testbed, d: Device, p: string) {
    p in d.interfaces && d.interfaces[p] < |t.interfaces| &&
    var i := t.interfaces[d.interfaces[p]];
    i.name == p && i.device == d.name && InterfaceType(p) == Ok(i.ifType) && i.link.None?
  }

  /** A new device has exactly its ports as interfaces, each built from its
      name. */
  lemma {:induction false} NewInterfacesSpec(tb: Testbed, dev: Device, ports: seq<string>)
    requires dev.interfaces == map[]
    ensures var r := NewInterfaces(tb, dev, ports);
      r.Ok? ==> var (t, d) := r.value;
        d.interfaces.Keys == (set p | p in ports) && forall p :: p in ports ==> PortBuilt(t, d, p)
    decreases |ports|
  {
    if ports != [] {
      var pre := ports[..|ports| - 1];
      var p := ports[|ports| - 1];
      NewInterfacesSpec(tb, dev, pre);
      assert ports == pre + [p];
      var r0 := NewInterfaces(tb, dev, pre);
      if r0.Ok? && InterfaceType(p).Ok? {
        var (t, d) := r0.value;
        var (t', d') := t.NewInterface(d, p, InterfaceType(p).value);
        forall q | q in ports ensures PortBuilt(t', d', q) {
          if q != p {
            assert PortBuilt(t, d, q);
            assert t'.interfaces[d'.interfaces[q]] == t.interfaces[d.interfaces[q]];
          }
        }
      }
    }
  }
  /** One `device_list` entry, with the iteration order of its sets. */
  datatype Discovered = Discovered(name: string, record: DeviceRecord, orders: Orders)

  /** The entries of the device list in its order. */
  function Entries(dl: DeviceList, orders: map<string, Orders>): (r: seq<Discovered>)
    requires forall h :: h in dl.keys ==> h in dl.values && h in orders
    ensures |r| == |dl.keys|
    ensures forall i :: 0 <= i < |r| ==> r[i] == Discovered(dl.keys[i], dl.values[dl.keys[i]], orders[dl.keys[i]])
  {
    seq(|dl.keys|, i requires 0 <= i < |dl.keys| => Discovered(dl.keys[i], dl.values[dl.keys[i]], orders[dl.keys[i]]))
  }

  /** What the loop of `_write_devices_into_testbed` carries: `new_devices`,
      the testbed (its interface and proxy arenas change), and the loop
      variable `ip`, which keeps its last value from one entry to the next
      (`None` until it is first bound). */
  datatype Written = Written(newDevices: OMap<string, Device>, testbed: Testbed, ip: Option<Option<string>>)

  /** The `finder_proxy` connection, added when the finder reported interface
      addresses: its proxy comes from `write_proxy_chain` and its address is
      whatever `ip` holds at that point. */
  function FinderConnection(tb: Testbed, name: string, finder: Finder, credentials: Credentials, addresses: seq<string>,
                            ip: Option<Option<string>>, conns: OMap<string, Connection>): (r: Result<(Testbed, OMap<string, Connection>)>)
    requires tb.Valid()
    ensures r.Ok? ==> var (t, cs) := r.value;
      t.Valid() && t.devices == tb.devices && t.interfaces == tb.interfaces && t.links == tb.links &&
      |tb.proxies| <= |t.proxies|
  {
    if finder.addresses == {} then Ok((tb, conns))
    else
      ProxyChainForSpec(finder.name, tb, credentials, SetRepr(addresses));
      match ProxyChainFor(finder.name, tb, credentials, SetRepr(addresses))
      case Err(e) => Err(e)
      case Ok((t, px)) =>
        if ip.None? then Err(UnboundAddress(name))
        else Ok((t, conns.Put("finder_proxy", Connection(Some("ssh"), ip.value, Some(px)))))
  }

  /** No connection of `cs` holds a proxy list beyond the first `n` of the
      arena. */
  ghost predicate ProxiesBelow(cs: OMap<string, Connection>, n: nat) {
    forall c :: c in cs.values && cs.values[c].proxy.Some? && cs.values[c].proxy.value.ProxyChain? ==>
      cs.values[c].proxy.value.id < n
  }

  /** The connections keep their shape: well-formed, and every proxy list
      they hold is in the arena; `finder_proxy` is the only connection
      added. */
  lemma FinderConnectionConns(tb: Testbed, name: string, finder: Finder, credentials: Credentials, addresses: seq<string>,
                              ip: Option<Option<string>>, conns: OMap<string, Connection>)
    requires tb.Valid()
    ensures var r := FinderConnection(tb, name, finder, credentials, addresses, ip, conns);
      r.Ok? ==> var (t, cs) := r.value;
        (conns.Valid() ==> cs.Valid()) &&
        (ProxiesBelow(conns, |tb.proxies|) ==> ProxiesBelow(cs, |t.proxies|))
  {
    if finder.addresses != {} {
      ProxyChainForResult(finder.name, tb, credentials, SetRepr(addresses));
    }
  }

  /** The ssh connections name their proxies; none holds a proxy list. */
  lemma SshConnectionsNameProxies(ips: seq<Option<string>>, proxies: seq<string>)
    ensures ProxiesBelow(SshConnections(ips, proxies), 0)
  {
    SshConnectionsSpec(ips, proxies);
  }

  /** The device `Device(new_dev, ...)` builds before its interfaces. */
  function NewDevice(name: string, rec: DeviceRecord, credentials: Credentials, conns: OMap<string, Connection>): Device {
    Device(name, rec.os, credentials, "device", conns, map[])
  }

  /** The new-device branch of one iteration: the connections, the
      `finder_proxy` connection, the device and its interfaces, and the value
      `ip` has afterwards. */
  function BuildDevice(proxies: seq<string>, w: Written, e: Discovered): (r: Result<(Testbed, Device, Option<Option<string>>)>)
    requires w.testbed.Valid()
    ensures r.Ok? ==> r.value.0.Valid()
  {
    match w.testbed.DeviceNamed(e.record.finder.name)
    case Err(err) => Err(err)
    case Ok(finder) =>
      var ip := if e.orders.ips == [] then w.ip else Some(e.orders.ips[|e.orders.ips| - 1]);
      var conns := SshConnections(e.orders.ips, proxies);
      match FinderConnection(w.testbed, e.name, e.record.finder, finder.credentials, e.orders.addresses, ip, conns)
      case Err(err) => Err(err)
      case Ok((t, cs)) =>
        match NewInterfaces(t, NewDevice(e.name, e.record, finder.credentials, cs), e.orders.ports)
        case Err(err) => Err(err)
        case Ok((t', dev)) => Ok((t', dev, ip))
  }

  /** The built device is named after the entry, has exactly its ports as
      interfaces and fits the testbed, whose devices and links are as they
      were and whose arenas have only grown. */
  lemma BuildDeviceSpec(proxies: seq<string>, w: Written, e: Discovered)
    requires w.testbed.Valid()
    ensures var r := BuildDevice(proxies, w, e);
      r.Ok? ==> var (t, dev, ip) := r.value;
        t.devices == w.testbed.devices && t.links == w.testbed.links &&
        w.testbed.interfaces <= t.interfaces && |w.testbed.proxies| <= |t.proxies| &&
        t.DeviceOk(dev) && dev.name == e.name && dev.interfaces.Keys == (set p | p in e.orders.ports)
  {
    var r := BuildDevice(proxies, w, e);
    if r.Ok? {
      var finder := w.testbed.devices.values[e.record.finder.name];
      var ip := if e.orders.ips == [] then w.ip else Some(e.orders.ips[|e.orders.ips| - 1]);
      var conns := SshConnections(e.orders.ips, proxies);
      SshConnectionsNameProxies(e.orders.ips, proxies);
      var (t, cs) := FinderConnection(w.testbed, e.name, e.record.finder, finder.credentials, e.orders.addresses, ip, conns).value;
      FinderConnectionConns(w.testbed, e.name, e.record.finder, finder.credentials, e.orders.addresses, ip, conns);
      var dev0 := NewDevice(e.name, e.record, finder.credentials, cs);
      assert t.DeviceOk(dev0);
      NewInterfacesSpec(t, dev0, e.orders.ports);
    }
  }

  /** One iteration of `_write_devices_into_testbed`. */
  function WriteEntry(proxies: seq<string>, w: Written, e: Discovered): (r: Result<Written>)
    requires w.testbed.Valid()
    ensures r.Ok? ==> r.value.testbed.Valid()
  {
    if e.name in w.testbed.devices.values then
      match AddMissingInterfaces(w.testbed, e.name, e.orders.ports)
      case Err(err) => Err(err)
      case Ok(t) => Ok(w.(testbed := t))
    else
      match BuildDevice(proxies, w, e)
      case Err(err) => Err(err)
      case Ok((t, dev, ip)) => Ok(Written(w.newDevices.Put(e.name, dev), t, ip))
  }

  /** `_write_devices_into_testbed` over the entries, in order. */
  function WriteAll(proxies: seq<string>, w0: Written, es: seq<Discovered>): (r: Result<Written>)
    requires w0.testbed.Valid()
    ensures r.Ok? ==> r.value.testbed.Valid()
    decreases |es|
  {
    if es == [] then Ok(w0)
    else
      match WriteAll(proxies, w0, es[..|es| - 1])
      case Err(err) => Err(err)
      case Ok(w) => WriteEntry(proxies, w, es[|es| - 1])
  }

  // Properties of the loop.

  /** What the loop keeps: the testbed is well-formed, has the devices it
      started with, each keeping its interfaces, and the same links; every
      new device is keyed by its name, is not a testbed device, and fits the
      testbed's arenas. */
  ghost predicate WrittenOk(tb0: Testbed, w: Written) {
    w.testbed.Valid() && w.newDevices.Valid() &&
    w.testbed.devices.keys == tb0.devices.keys && w.testbed.devices.values.Keys == tb0.devices.values.Keys &&
    w.testbed.links == tb0.links && KeepsInterfaces(tb0, w.testbed) &&
    forall n :: n in w.newDevices.values ==>
      w.newDevices.values[n].name == n && n !in w.testbed.devices.values && w.testbed.DeviceOk(w.newDevices.values[n])
  }

  /** The entry `name` is a device, in the testbed or among the new ones,
      with every port as an interface. */
  ghost predicate Placed(w: Written, name: string, ports: seq<string>) {
    (name in w.testbed.devices.values && forall p :: p in ports ==> p in w.testbed.devices.values[name].interfaces) ||
    (name in w.newDevices.values && forall p :: p in ports ==> p in w.newDevices.values[name].interfaces)
  }

  /** From `w` to `w'` nothing of another entry is lost: testbed devices keep
      their interfaces and the other new devices are unchanged. */
  ghost predicate Extends(w: Written, w': Written, name: string) {
    KeepsInterfaces(w.testbed, w'.testbed) &&
    forall n :: n in w.newDevices.values && n != name ==> n in w'.newDevices.values && w'.newDevices.values[n] == w.newDevices.values[n]
  }

  lemma GrowsKeeps(tb: Testbed, t: Testbed, device: string)
    requires Grows(tb, t, device)
    ensures KeepsInterfaces(tb, t)
  {
  }

  /** After one iteration the entry is placed and nothing of the other
      entries is lost. */
  lemma WriteEntryPlaced(proxies: seq<string>, w: Written, e: Discovered)
    requires w.testbed.Valid()
    ensures var r := WriteEntry(proxies, w, e);
      r.Ok? ==> Extends(w, r.value, e.name) && Placed(r.value, e.name, e.orders.ports)
  {
    if e.name in w.testbed.devices.values {
      AddMissingInterfacesSpec(w.testbed, e.name, e.orders.ports);
      var r := WriteEntry(proxies, w, e);
      if r.Ok? {
        GrowsKeeps(w.testbed, r.value.testbed, e.name);
      }
    } else {
      var b := BuildDevice(proxies, w, e);
      BuildDeviceSpec(proxies, w, e);
      if b.Ok? {
        var (t, dev, ip) := b.value;
        PutNewDevicePlaced(w, t, dev, ip, e);
      }
    }
  }

  /** An entry for a testbed device only adds the ports it lacks. */
  lemma WriteEntryExisting(tb0: Testbed, proxies: seq<string>, w: Written, e: Discovered)
    requires WrittenOk(tb0, w) && e.name in w.testbed.devices.values
    ensures var r := WriteEntry(proxies, w, e);
      r.Ok? ==> WrittenOk(tb0, r.value) && r.value.newDevices == w.newDevices
  {
    var r := WriteEntry(proxies, w, e);
    AddMissingInterfacesSpec(w.testbed, e.name, e.orders.ports);
    if r.Ok? {
      var t := r.value.testbed;
      GrowsKeeps(w.testbed, t, e.name);
      KeepsInterfacesTransitive(tb0, w.testbed, t);
      forall n | n in w.newDevices.values ensures t.DeviceOk(w.newDevices.values[n]) {
        DeviceOkGrow(w.testbed, t, w.newDevices.values[n]);
      }
    }
  }

  /** Adding a device that fits the grown testbed keeps `WrittenOk`. */
  lemma PutNewDeviceOk(tb0: Testbed, w: Written, t: Testbed, dev: Device, ip: Option<Option<string>>)
    requires WrittenOk(tb0, w) && dev.name !in w.testbed.devices.values
    requires t.Valid() && t.devices == w.testbed.devices && t.links == w.testbed.links
    requires w.testbed.interfaces <= t.interfaces && |w.testbed.proxies| <= |t.proxies| && t.DeviceOk(dev)
    ensures WrittenOk(tb0, Written(w.newDevices.Put(dev.name, dev), t, ip))
  {
    forall n | n in w.newDevices.values ensures t.DeviceOk(w.newDevices.values[n]) {
      DeviceOkGrow(w.testbed, t, w.newDevices.values[n]);
    }
  }

  /** Adding the device of an entry places the entry and loses nothing. */
  lemma PutNewDevicePlaced(w: Written, t: Testbed, dev: Device, ip: Option<Option<string>>, e: Discovered)
    requires t.devices == w.testbed.devices && dev.name == e.name
    requires dev.interfaces.Keys == (set p | p in e.orders.ports)
    ensures var w' := Written(w.newDevices.Put(dev.name, dev), t, ip);
      Extends(w, w', e.name) && Placed(w', e.name, e.orders.ports)
  {
  }

  /** An entry for a host outside the testbed adds it as a new device. */
  lemma WriteEntryNew(tb0: Testbed, proxies: seq<string>, w: Written, e: Discovered)
    requires WrittenOk(tb0, w) && e.name !in w.testbed.devices.values
    ensures var r := WriteEntry(proxies, w, e);
      r.Ok? ==> WrittenOk(tb0, r.value)
  {
    var b := BuildDevice(proxies, w, e);
    BuildDeviceSpec(proxies, w, e);
    if b.Ok? {
      var (t, dev, ip) := b.value;
      assert WriteEntry(proxies, w, e) == Ok(Written(w.newDevices.Put(dev.name, dev), t, ip));
      PutNewDeviceOk(tb0, w, t, dev, ip);
    }
  }

  /** One iteration keeps `WrittenOk`. */
  lemma WriteEntryOk(tb0: Testbed, proxies: seq<string>, w: Written, e: Discovered)
    requires WrittenOk(tb0, w)
    ensures var r := WriteEntry(proxies, w, e);
      r.Ok? ==> WrittenOk(tb0, r.value)
  {
    if e.name in w.testbed.devices.values {
      WriteEntryExisting(tb0, proxies, w, e);
    } else {
      WriteEntryNew(tb0, proxies, w, e);
    }
  }

  /** The loop keeps `WrittenOk`. */
  lemma {:induction false} WriteAllOk(tb0: Testbed, proxies: seq<string>, w0: Written, es: seq<Discovered>)
    requires WrittenOk(tb0, w0)
    ensures var r := WriteAll(proxies, w0, es);
      r.Ok? ==> WrittenOk(tb0, r.value)
    decreases |es|
  {
    if es != [] {
      var pre := es[..|es| - 1];
      WriteAllOk(tb0, proxies, w0, pre);
      var r0 := WriteAll(proxies, w0, pre);
      if r0.Ok? {
        WriteEntryOk(tb0, proxies, r0.value, es[|es| - 1]);
      }
    }
  }

  /** Every entry of `es` is placed in `w`. */
  ghost predicate AllPlaced(w: Written, es: seq<Discovered>) {
    forall i :: 0 <= i < |es| ==> Placed(w, es[i].name, es[i].orders.ports)
  }

  /** Placing an entry keeps the other entries placed. */
  lemma PlacedStep(w: Written, w': Written, pre: seq<Discovered>, e: Discovered)
    requires Extends(w, w', e.name) && Placed(w', e.name, e.orders.ports)
    requires forall i :: 0 <= i < |pre| ==> pre[i].name != e.name
    requires AllPlaced(w, pre)
    ensures AllPlaced(w', pre + [e])
  {
    forall i | 0 <= i < |pre + [e]| ensures Placed(w', (pre + [e])[i].name, (pre + [e])[i].orders.ports) {
      if i < |pre| {
        assert (pre + [e])[i] == pre[i];
        assert Placed(w, pre[i].name, pre[i].orders.ports);
      }
    }
  }

  /** Every entry ends up placed, as a testbed device or a new device, with
      each of its ports as an interface; the testbed devices keep their
      interfaces. */
  lemma {:induction false} WriteAllPlaced(proxies: seq<string>, w0: Written, es: seq<Discovered>)
    requires w0.testbed.Valid()
    requires forall i, j :: 0 <= i < j < |es| ==> es[i].name != es[j].name
    ensures var r := WriteAll(proxies, w0, es);
      r.Ok? ==> AllPlaced(r.value, es) && KeepsInterfaces(w0.testbed, r.value.testbed)
    decreases |es|
  {
    if es != [] {
      var pre := es[..|es| - 1];
      var e := es[|es| - 1];
      assert es == pre + [e];
      WriteAllPlaced(proxies, w0, pre);
      var r0 := WriteAll(proxies, w0, pre);
      if r0.Ok? {
        WriteEntryPlaced(proxies, r0.value, e);
        var r := WriteEntry(proxies, r0.value, e);
        if r.Ok? {
          assert forall i :: 0 <= i < |pre| ==> pre[i].name != e.name by {
            forall i | 0 <= i < |pre| ensures pre[i].name != e.name {
              assert pre[i] == es[i];
            }
          }
          PlacedStep(r0.value, r.value, pre, e);
          KeepsInterfacesTransitive(w0.testbed, r0.value.testbed, r.value.testbed);
        }
      }
    }
  }

  /** The testbed hosts of `w` are those of `tb0`, and `new_devices` is a
      well-formed dictionary. */
  ghost predicate SameHosts(tb0: Testbed, w: Written) {
    w.testbed.devices.values.Keys == tb0.devices.values.Keys && w.newDevices.Valid()
  }

  lemma WriteEntryHosts(tb0: Testbed, proxies: seq<string>, w: Written, e: Discovered)
    requires w.testbed.Valid() && SameHosts(tb0, w)
    ensures var r := WriteEntry(proxies, w, e);
      r.Ok? ==> SameHosts(tb0, r.value)
  {
    BuildDeviceSpec(proxies, w, e);
  }

  lemma {:induction false} WriteAllHosts(tb0: Testbed, proxies: seq<string>, w0: Written, es: seq<Discovered>)
    requires w0.testbed.Valid() && SameHosts(tb0, w0)
    ensures var r := WriteAll(proxies, w0, es);
      r.Ok? ==> SameHosts(tb0, r.value)
    decreases |es|
  {
    if es != [] {
      var pre := es[..|es| - 1];
      WriteAllHosts(tb0, proxies, w0, pre);
      var r0 := WriteAll(proxies, w0, pre);
      if r0.Ok? {
        WriteEntryHosts(tb0, proxies, r0.value, es[|es| - 1]);
      }
    }
  }

  /** The names of the entries for hosts outside `known`, in entry order. */
  function NewOrder(es: seq<Discovered>, known: set<string>): (r: seq<string>)
    decreases |es|
  {
    if es == [] then []
    else
      var e := es[|es| - 1];
      NewOrder(es[..|es| - 1], known) + (if e.name in known then [] else [e.name])
  }

  /** `NewOrder` lists exactly the names of the entries outside `known`. */
  lemma {:induction false} NewOrderMembers(es: seq<Discovered>, known: set<string>, x: string)
    ensures x in NewOrder(es, known) <==> x !in known && exists i :: 0 <= i < |es| && es[i].name == x
    decreases |es|
  {
    if es != [] {
      var pre := es[..|es| - 1];
      NewOrderMembers(pre, known, x);
      if exists i :: 0 <= i < |es| && es[i].name == x {
        var i :| 0 <= i < |es| && es[i].name == x;
        if i < |pre| { assert pre[i].name == x; }
      }
      if exists i :: 0 <= i < |pre| && pre[i].name == x {
        var i :| 0 <= i < |pre| && pre[i].name == x;
        assert es[i].name == x;
      }
    }
  }

  /** For an entry that is not yet a new device, `new_devices` grows by its
      name exactly when it is outside the testbed. */
  lemma WriteEntryKeys(tb0: Testbed, proxies: seq<string>, w: Written, e: Discovered)
    requires w.testbed.Valid() && SameHosts(tb0, w) && e.name !in w.newDevices.values
    ensures var r := WriteEntry(proxies, w, e);
      r.Ok? ==> r.value.newDevices.keys == w.newDevices.keys + (if e.name in tb0.devices.values then [] else [e.name])
  {
  }

  /** A name outside the entries that came before is not a new device
      yet. */
  lemma NotYetNew(known: set<string>, before: OMap<string, Device>, w: Written, pre: seq<Discovered>, e: Discovered)
    requires w.newDevices.Valid() && e.name !in before.values && before.Valid()
    requires w.newDevices.keys == before.keys + NewOrder(pre, known)
    requires forall i :: 0 <= i < |pre| ==> pre[i].name != e.name
    ensures e.name !in w.newDevices.values
  {
    NewOrderMembers(pre, known, e.name);
  }

  /** The step of `WriteAllKeys`: one more entry extends the new-device
      order by its name when it is outside the testbed. */
  lemma WriteEntryKeysStep(tb0: Testbed, proxies: seq<string>, before: OMap<string, Device>, w: Written,
                           pre: seq<Discovered>, e: Discovered)
    requires w.testbed.Valid() && SameHosts(tb0, w) && before.Valid() && e.name !in before.values
    requires w.newDevices.keys == before.keys + NewOrder(pre, tb0.devices.values.Keys)
    requires forall i :: 0 <= i < |pre| ==> pre[i].name != e.name
    ensures var r := WriteEntry(proxies, w, e);
      r.Ok? ==> r.value.newDevices.keys == before.keys + NewOrder(pre + [e], tb0.devices.values.Keys)
  {
    var K := tb0.devices.values.Keys;
    NotYetNew(K, before, w, pre, e);
    WriteEntryKeys(tb0, proxies, w, e);
    NewOrderSnoc(pre, e, K);
    AppendAssoc(before.keys, NewOrder(pre, K), if e.name in K then [] else [e.name]);
  }

  lemma NewOrderSnoc(pre: seq<Discovered>, e: Discovered, known: set<string>)
    ensures NewOrder(pre + [e], known) == NewOrder(pre, known) + (if e.name in known then [] else [e.name])
  {
    assert (pre + [e])[..|pre|] == pre;
  }

  lemma AppendAssoc<T>(a: seq<T>, b: seq<T>, c: seq<T>)
    ensures (a + b) + c == a + (b + c)
  {
  }

  /** `new_devices` holds the entries for hosts outside the testbed, in
      entry order. */
  lemma {:induction false} WriteAllKeys(tb0: Testbed, proxies: seq<string>, w0: Written, es: seq<Discovered>)
    requires w0.testbed.Valid() && SameHosts(tb0, w0)
    requires forall i, j :: 0 <= i < j < |es| ==> es[i].name != es[j].name
    requires forall i :: 0 <= i < |es| ==> es[i].name !in w0.newDevices.values
    ensures var r := WriteAll(proxies, w0, es);
      r.Ok? ==> r.value.newDevices.keys == w0.newDevices.keys + NewOrder(es, tb0.devices.values.Keys)
    decreases |es|
  {
    if es != [] {
      var pre := es[..|es| - 1];
      var e := es[|es| - 1];
      assert forall i :: 0 <= i < |pre| ==> pre[i] == es[i];
      assert es == pre + [e];
      WriteAllKeys(tb0, proxies, w0, pre);
      WriteAllHosts(tb0, proxies, w0, pre);
      var r0 := WriteAll(proxies, w0, pre);
      if r0.Ok? {
        WriteEntryKeysStep(tb0, proxies, w0.newDevices, r0.value, pre, e);
      }
    }
  }

  // ---------------------------------------------------------------------
  // Adding the new devices, and the whole pass

  /** `for device in new_devices.values(): testbed.add_device(device)`. */
  function AddDevices(tb: Testbed, nd: map<string, Device>, keys: seq<string>): (r: Testbed)
    requires forall k :: k in keys ==> k in nd
    ensures r.interfaces == tb.interfaces && r.links == tb.links && r.proxies == tb.proxies
    decreases |keys|
  {
    if keys == [] then tb
    else AddDevices(tb, nd, keys[..|keys| - 1]).AddDevice(nd[keys[|keys| - 1]])
  }

  /** One more key adds one more device. */
  lemma AddDevicesNext(tb: Testbed, nd: map<string, Device>, keys: seq<string>, i: nat)
    requires i < |keys| && forall k :: k in keys ==> k in nd
    ensures AddDevices(tb, nd, keys[..i + 1]) == AddDevices(tb, nd, keys[..i]).AddDevice(nd[keys[i]])
  {
    assert keys[..i + 1][..i] == keys[..i];
  }

  /** Adding devices that fit the arenas keeps the testbed well-formed. */
  lemma {:induction false} AddDevicesValid(tb: Testbed, nd: map<string, Device>, keys: seq<string>)
    requires tb.Valid()
    requires forall k :: k in keys ==> k in nd && tb.DeviceOk(nd[k])
    ensures AddDevices(tb, nd, keys).Valid()
    decreases |keys|
  {
    if keys != [] {
      AddDevicesValid(tb, nd, keys[..|keys| - 1]);
      AddDeviceStep(tb, AddDevices(tb, nd, keys[..|keys| - 1]), nd[keys[|keys| - 1]]);
    }
  }

  /** Adding devices keyed by their names, none of them a testbed device
      yet, puts each under its name at the end of the device order and
      leaves the testbed devices as they were. */
  lemma {:induction false} AddDevicesOrder(tb: Testbed, nd: map<string, Device>, keys: seq<string>)
    requires forall i, j :: 0 <= i < j < |keys| ==> keys[i] != keys[j]
    requires forall k :: k in keys ==> k in nd && nd[k].name == k && k !in tb.devices.values
    ensures var r := AddDevices(tb, nd, keys);
      r.devices.keys == tb.devices.keys + keys &&
      r.devices.values.Keys == tb.devices.values.Keys + (set k | k in keys) &&
      (forall k :: k in keys ==> r.devices.values[k] == nd[k]) &&
      forall n :: n in tb.devices.values ==> r.devices.values[n] == tb.devices.values[n]
    decreases |keys|
  {
    if keys != [] {
      var pre := keys[..|keys| - 1];
      var k := keys[|keys| - 1];
      AddDevicesOrder(tb, nd, pre);
      assert k !in pre;
    }
  }

  /** A device that fits the arenas of `tb` fits them in a testbed that
      only added devices to `tb`. */
  lemma AddDeviceStep(tb: Testbed, t: Testbed, d: Device)
    requires t.Valid() && tb.DeviceOk(d) && t.interfaces == tb.interfaces && t.proxies == tb.proxies
    ensures t.DeviceOk(d) && t.AddDevice(d).Valid()
  {
  }

  /** The pass `_write_devices_into_testbed` makes over `device_list`, with
      the set orders `orders` gives. */
  function WriteDevices(dl: DeviceList, proxies: seq<string>, tb: Testbed, orders: map<string, Orders>): (r: Result<Written>)
    requires tb.Valid()
    requires forall h :: h in dl.keys ==> h in dl.values && h in orders
    ensures r.Ok? ==> r.value.testbed.Valid()
  {
    WriteAll(proxies, Written(Empty(), tb, None), Entries(dl, orders))
  }

  /** The testbed once the new devices are added. */
  function AddWritten(w: Written): (r: Testbed)
    requires forall k :: k in w.newDevices.keys ==> k in w.newDevices.values
  {
    AddDevices(w.testbed, w.newDevices.values, w.newDevices.keys)
  }

  /** The orders cover the device list, each an iteration order of its
      entry's sets. */
  ghost predicate OrdersCover(dl: DeviceList, orders: map<string, Orders>) {
    forall h :: h in dl.values ==> h in orders && OrdersOf(orders[h], dl.values[h])
  }

  /** After the pass and `add_device`: every host of the device list is a
      device of the testbed with each port it was seen on as an interface;
      the devices are the old ones and the hosts, the new ones after the old
      ones in device-list order; old devices keep their interfaces and the
      links are untouched. */
  lemma WriteDevicesSpec(dl: DeviceList, proxies: seq<string>, tb: Testbed, orders: map<string, Orders>)
    requires tb.Valid() && dl.Valid() && OrdersCover(dl, orders)
    ensures var r := WriteDevices(dl, proxies, tb, orders);
      r.Ok? ==>
        (forall k :: k in r.value.newDevices.keys ==> k in r.value.newDevices.values) &&
        var t := AddWritten(r.value);
        t.Valid() && t.links == tb.links && KeepsInterfaces(tb, t) &&
        t.devices.keys == tb.devices.keys + NewOrder(Entries(dl, orders), tb.devices.values.Keys) &&
        t.devices.values.Keys == tb.devices.values.Keys + dl.values.Keys &&
        forall h, p :: h in dl.values && p in dl.values[h].ports ==> p in t.devices.values[h].interfaces
  {
    var es := Entries(dl, orders);
    var w0 := Written(Empty(), tb, None);
    var r := WriteDevices(dl, proxies, tb, orders);
    assert WrittenOk(tb, w0);
    WriteAllOk(tb, proxies, w0, es);
    WriteAllPlaced(proxies, w0, es);
    WriteAllKeys(tb, proxies, w0, es);
    if r.Ok? {
      var w := r.value;
      AddDevicesValid(w.testbed, w.newDevices.values, w.newDevices.keys);
      AddDevicesOrder(w.testbed, w.newDevices.values, w.newDevices.keys);
      KeepsAfterAdd(tb, w.testbed, AddWritten(w));
      WriteDevicesHosts(dl, tb, orders, w, AddWritten(w));
    }
  }

  lemma KeepsAfterAdd(tb: Testbed, t: Testbed, t': Testbed)
    requires KeepsInterfaces(tb, t)
    requires forall n :: n in t.devices.values ==> n in t'.devices.values && t'.devices.values[n] == t.devices.values[n]
    ensures KeepsInterfaces(tb, t')
  {
  }

  /** The position of a host among the entries. */
  lemma EntryIndex(dl: DeviceList, orders: map<string, Orders>, h: string) returns (i: nat)
    requires dl.Valid() && OrdersCover(dl, orders) && h in dl.values
    ensures i < |dl.keys| && Entries(dl, orders)[i] == Discovered(h, dl.values[h], orders[h])
  {
    i :| 0 <= i < |dl.keys| && dl.keys[i] == h;
  }

  /** Every host of the device list is placed, with the ports of its record. */
  lemma HostsPlaced(dl: DeviceList, orders: map<string, Orders>, w: Written, h: string)
    requires dl.Valid() && OrdersCover(dl, orders) && AllPlaced(w, Entries(dl, orders)) && h in dl.values
    ensures Placed(w, h, orders[h].ports)
    ensures forall p :: p in dl.values[h].ports <==> p in orders[h].ports
  {
    var i := EntryIndex(dl, orders, h);
    var es := Entries(dl, orders);
    assert Placed(w, es[i].name, es[i].orders.ports);
  }

  /** Every new device is a host of the device list. */
  lemma NewHostsListed(dl: DeviceList, tb: Testbed, orders: map<string, Orders>, keys: seq<string>)
    requires dl.Valid() && OrdersCover(dl, orders) && keys == NewOrder(Entries(dl, orders), tb.devices.values.Keys)
    ensures forall x :: x in keys ==> x in dl.values
  {
    forall x | x in keys ensures x in dl.values {
      NewOrderMembers(Entries(dl, orders), tb.devices.values.Keys, x);
    }
  }

  /** The closing step of `WriteDevicesSpec`: from what the loop keeps to the
      devices and interfaces of the final testbed. */
  lemma WriteDevicesHosts(dl: DeviceList, tb: Testbed, orders: map<string, Orders>, w: Written, t: Testbed)
    requires dl.Valid() && OrdersCover(dl, orders)
    requires w.testbed.devices.values.Keys == tb.devices.values.Keys && w.newDevices.Valid()
    requires AllPlaced(w, Entries(dl, orders)) && w.newDevices.keys == NewOrder(Entries(dl, orders), tb.devices.values.Keys)
    requires t.devices.values.Keys == w.testbed.devices.values.Keys + (set k | k in w.newDevices.keys)
    requires forall k :: k in w.newDevices.keys ==> k in w.newDevices.values && t.devices.values[k] == w.newDevices.values[k]
    requires forall n :: n in w.testbed.devices.values ==> t.devices.values[n] == w.testbed.devices.values[n]
    ensures t.devices.values.Keys == tb.devices.values.Keys + dl.values.Keys
    ensures forall h, p :: h in dl.values && p in dl.values[h].ports ==> p in t.devices.values[h].interfaces
  {
    forall h | h in dl.values
      ensures h in t.devices.values && forall p :: p in dl.values[h].ports ==> p in t.devices.values[h].interfaces
    {
      HostFinal(dl, orders, w, t, h);
    }
    NewHostsListed(dl, tb, orders, w.newDevices.keys);
    HostsKeys(tb.devices.values.Keys, dl.values.Keys, w.newDevices.keys, t.devices.values.Keys);
  }

  lemma HostsKeys(old_: set<string>, hosts: set<string>, added: seq<string>, final: set<string>)
    requires final == old_ + (set k | k in added)
    requires forall x :: x in added ==> x in hosts
    requires forall h :: h in hosts ==> h in final
    ensures final == old_ + hosts
  {
  }

  lemma HostFinal(dl: DeviceList, orders: map<string, Orders>, w: Written, t: Testbed, h: string)
    requires dl.Valid() && OrdersCover(dl, orders) && w.newDevices.Valid() && AllPlaced(w, Entries(dl, orders))
    requires h in dl.values
    requires t.devices.values.Keys == w.testbed.devices.values.Keys + (set k | k in w.newDevices.keys)
    requires forall k :: k in w.newDevices.keys ==> k in w.newDevices.values && t.devices.values[k] == w.newDevices.values[k]
    requires forall n :: n in w.testbed.devices.values ==> t.devices.values[n] == w.testbed.devices.values[n]
    ensures h in t.devices.values && forall p :: p in dl.values[h].ports ==> p in t.devices.values[h].interfaces
  {
    HostsPlaced(dl, orders, w, h);
    PlacedAfterAdd(w, t, h, orders[h].ports);
  }

  /** A placed entry is a device of the testbed once the new devices are
      added. */
  lemma PlacedAfterAdd(w: Written, t: Testbed, h: string, ports: seq<string>)
    requires Placed(w, h, ports) && w.newDevices.Valid()
    requires t.devices.values.Keys == w.testbed.devices.values.Keys + (set k | k in w.newDevices.keys)
    requires forall k :: k in w.newDevices.keys ==> k in w.newDevices.values && t.devices.values[k] == w.newDevices.values[k]
    requires forall n :: n in w.testbed.devices.values ==> t.devices.values[n] == w.testbed.devices.values[n]
    ensures h in t.devices.values && forall p :: p in ports ==> p in t.devices.values[h].interfaces
  {
  }

  // ---------------------------------------------------------------------
  // What a new device looks like, and when writing one fails

  lemma FinderKeyNotSsh(p: string)
    ensures "ssh" + p != "finder_proxy"
  {
    assert ("ssh" + p)[0] == 's';
  }

  /** The device built for a new host has the OS the host reported, the
      finder's credentials and type `device`; afterwards `ip` holds the last
      address of the host, or its old value when the host has none. */
  lemma BuildDeviceShape(proxies: seq<string>, w: Written, e: Discovered)
    requires w.testbed.Valid()
    ensures var r := BuildDevice(proxies, w, e);
      r.Ok? ==> var (t, dev, ip) := r.value;
        var fname := e.record.finder.name;
        fname in w.testbed.devices.values &&
        dev.os == e.record.os && dev.credentials == w.testbed.devices.values[fname].credentials &&
        dev.devType == "device" &&
        ip == (if e.orders.ips == [] then w.ip else Some(e.orders.ips[|e.orders.ips| - 1]))
  {
  }

  /** The connections of a new device: one `ssh<proxy>` per known proxy when
      the host has an address, all at the iteration's last address, and
      `finder_proxy` when the finder reported interface addresses. */
  lemma BuildDeviceConnections(proxies: seq<string>, w: Written, e: Discovered)
    requires w.testbed.Valid()
    ensures var r := BuildDevice(proxies, w, e);
      r.Ok? ==>
        var ips := e.orders.ips;
        var cs := r.value.1.connections.values;
        cs.Keys == (if ips == [] then {} else SshKeys(proxies)) +
                   (if e.record.finder.addresses == {} then {} else {"finder_proxy"}) &&
        (ips != [] ==> forall p :: p in proxies ==> cs["ssh" + p] == SshVia(ips[|ips| - 1], p))
  {
    var r := BuildDevice(proxies, w, e);
    if r.Ok? {
      var finder := w.testbed.devices.values[e.record.finder.name];
      var ip := if e.orders.ips == [] then w.ip else Some(e.orders.ips[|e.orders.ips| - 1]);
      var conns := SshConnections(e.orders.ips, proxies);
      BuildDeviceParts(proxies, w, e);
      SshConnectionsSpec(e.orders.ips, proxies);
      forall p | p in proxies { FinderKeyNotSsh(p); }
      FinderConnectionShape(w.testbed, e.name, e.record.finder, finder.credentials, e.orders.addresses, ip, conns);
    }
  }

  /** When the finder reported interface addresses, the new device's
      `finder_proxy` connection holds whatever `ip` holds then, through the
      proxy `write_proxy_chain` returns. */
  lemma BuildDeviceFinderProxy(proxies: seq<string>, w: Written, e: Discovered)
    requires w.testbed.Valid()
    ensures var r := BuildDevice(proxies, w, e);
      r.Ok? && e.record.finder.addresses != {} ==>
        var (t, dev, ip) := r.value;
        var fname := e.record.finder.name;
        fname in w.testbed.devices.values && ip.Some? &&
        var px := ProxyChainFor(fname, w.testbed, w.testbed.devices.values[fname].credentials, SetRepr(e.orders.addresses));
        px.Ok? && dev.connections.values["finder_proxy"] == Connection(Some("ssh"), ip.value, Some(px.value.1))
  {
    var r := BuildDevice(proxies, w, e);
    if r.Ok? {
      var finder := w.testbed.devices.values[e.record.finder.name];
      var ip := if e.orders.ips == [] then w.ip else Some(e.orders.ips[|e.orders.ips| - 1]);
      var conns := SshConnections(e.orders.ips, proxies);
      BuildDeviceParts(proxies, w, e);
      FinderConnectionShape(w.testbed, e.name, e.record.finder, finder.credentials, e.orders.addresses, ip, conns);
    }
  }

  /** A built device holds the connections `FinderConnection` returns. */
  lemma BuildDeviceParts(proxies: seq<string>, w: Written, e: Discovered)
    requires w.testbed.Valid()
    ensures var r := BuildDevice(proxies, w, e);
      r.Ok? ==>
        var fname := e.record.finder.name;
        fname in w.testbed.devices.values &&
        var ip := if e.orders.ips == [] then w.ip else Some(e.orders.ips[|e.orders.ips| - 1]);
        var fc := FinderConnection(w.testbed, e.name, e.record.finder, w.testbed.devices.values[fname].credentials,
                                   e.orders.addresses, ip, SshConnections(e.orders.ips, proxies));
        fc.Ok? && r.value.1.connections == fc.value.1 && r.value.2 == ip
  {
  }

  /** `finder_proxy` is the only connection `FinderConnection` adds, and only
      when the finder reported interface addresses. */
  lemma FinderConnectionShape(tb: Testbed, name: string, finder: Finder, credentials: Credentials, addresses: seq<string>,
                              ip: Option<Option<string>>, conns: OMap<string, Connection>)
    requires tb.Valid()
    ensures var r := FinderConnection(tb, name, finder, credentials, addresses, ip, conns);
      r.Ok? ==> var cs := r.value.1.values;
        cs.Keys == conns.values.Keys + (if finder.addresses == {} then {} else {"finder_proxy"}) &&
        (forall k :: k in conns.values && k != "finder_proxy" ==> cs[k] == conns.values[k]) &&
        (finder.addresses != {} ==>
           ip.Some? &&
           var px := ProxyChainFor(finder.name, tb, credentials, SetRepr(addresses));
           px.Ok? && cs["finder_proxy"] == Connection(Some("ssh"), ip.value, Some(px.value.1)))
  {
  }

  /** The error cases of a new host: a finder that is not a device, a
      `finder_proxy` connection before any address was bound, and a port
      without a type. */
  lemma BuildDeviceErr(proxies: seq<string>, w: Written, e: Discovered)
    requires w.testbed.Valid()
    ensures e.record.finder.name !in w.testbed.devices.values ==>
      BuildDevice(proxies, w, e) == Err(UnknownDevice(e.record.finder.name))
    ensures var finder := e.record.finder.name;
      finder in w.testbed.devices.values && e.record.finder.addresses != {} && e.orders.ips == [] && w.ip.None? &&
      ProxyChainFor(finder, w.testbed, w.testbed.devices.values[finder].credentials, SetRepr(e.orders.addresses)).Ok? ==>
        BuildDevice(proxies, w, e) == Err(UnboundAddress(e.name))
    ensures BuildDevice(proxies, w, e).Ok? ==> forall p :: p in e.orders.ports ==> InterfaceType(p).Ok?
  {
    var r := BuildDevice(proxies, w, e);
    if r.Ok? {
      var finder := w.testbed.devices.values[e.record.finder.name];
      var ip := if e.orders.ips == [] then w.ip else Some(e.orders.ips[|e.orders.ips| - 1]);
      var conns := SshConnections(e.orders.ips, proxies);
      var (t, cs) := FinderConnection(w.testbed, e.name, e.record.finder, finder.credentials, e.orders.addresses, ip, conns).value;
      NewInterfacesOk(t, NewDevice(e.name, e.record, finder.credentials, cs), e.orders.ports);
    }
  }

  // ---------------------------------------------------------------------
  // The loops of _write_devices_into_testbed

  /** The two nested loops that fill `connections`; `ip` is the loop
      variable of the outer one, left at its last value. */
  method BuildSshConnections(ips: seq<Option<string>>, proxies: seq<string>, ip0: Option<Option<string>>)
    returns (conns: OMap<string, Connection>, ip: Option<Option<string>>)
    ensures conns == SshConnections(ips, proxies)
    ensures ip == if ips == [] then ip0 else Some(ips[|ips| - 1])
  {
    conns := Empty();
    ip := ip0;
    var i := 0;
    while i < |ips|
      invariant 0 <= i <= |ips|
      invariant conns == SshConnections(ips[..i], proxies)
      invariant ip == if i == 0 then ip0 else Some(ips[i - 1])
    {
      ip := Some(ips[i]);
      var c := conns;
      var j := 0;
      while j < |proxies|
        invariant 0 <= j <= |proxies|
        invariant c == PutProxies(conns, ips[i], proxies[..j])
      {
        assert proxies[..j + 1][..j] == proxies[..j];
        c := c.Put("ssh" + proxies[j], SshVia(ips[i], proxies[j]));
        j := j + 1;
      }
      assert proxies[..j] == proxies;
      assert ips[..i + 1][..i] == ips[..i];
      conns := c;
      i := i + 1;
    }
    assert ips[..i] == ips;
  }

  /** Once building the interfaces has failed, the later ports do not
      matter. */
  lemma {:induction false} NewInterfacesSticky(tb: Testbed, dev: Device, ports: seq<string>, i: nat)
    requires i <= |ports|
    requires NewInterfaces(tb, dev, ports[..i]).Err?
    ensures NewInterfaces(tb, dev, ports) == NewInterfaces(tb, dev, ports[..i])
    decreases |ports|
  {
    if i < |ports| {
      var pre := ports[..|ports| - 1];
      assert pre[..i] == ports[..i];
      NewInterfacesSticky(tb, dev, pre, i);
    } else {
      assert ports[..i] == ports;
    }
  }

  /** Once the pass has failed, the later entries do not matter. */
  lemma {:induction false} WriteAllSticky(proxies: seq<string>, w0: Written, es: seq<Discovered>, i: nat)
    requires w0.testbed.Valid() && i <= |es|
    requires WriteAll(proxies, w0, es[..i]).Err?
    ensures WriteAll(proxies, w0, es) == WriteAll(proxies, w0, es[..i])
    decreases |es|
  {
    if i < |es| {
      var pre := es[..|es| - 1];
      assert pre[..i] == es[..i];
      WriteAllSticky(proxies, w0, pre, i);
    } else {
      assert es[..i] == es;
    }
  }

  /** One iteration of the pass: the prefix grows by one entry, and an error
      there is the result of the whole pass. */
  lemma WriteAllNext(proxies: seq<string>, w0: Written, es: seq<Discovered>, i: nat, w: Written)
    requires w0.testbed.Valid() && i < |es| && WriteAll(proxies, w0, es[..i]) == Ok(w)
    ensures w.testbed.Valid()
    ensures WriteAll(proxies, w0, es[..i + 1]) == WriteEntry(proxies, w, es[i])
    ensures WriteEntry(proxies, w, es[i]).Err? ==> WriteAll(proxies, w0, es) == WriteEntry(proxies, w, es[i])
  {
    assert es[..i + 1][..i] == es[..i];
    if WriteEntry(proxies, w, es[i]).Err? {
      WriteAllSticky(proxies, w0, es, i + 1);
    }
  }

  /** An iteration order for each set of an entry. */
  method EnumerateOrders(rec: DeviceRecord) returns (o: Orders)
    ensures OrdersOf(o, rec)
  {
    var ips := Enumerate(rec.ip);
    var ports := Enumerate(rec.ports);
    var addresses := Enumerate(rec.finder.addresses);
    o := Orders(ips, ports, addresses);
  }

  /** The iteration orders `_write_devices_into_testbed` follows for the
      sets of each entry of `device_list` (Python set order is not part of
      this model, so any orders may come out). */
  method ChooseOrders(dl: DeviceList) returns (orders: map<string, Orders>)
    requires dl.Valid()
    ensures OrdersCover(dl, orders)
  {
    orders := map[];
    var k := 0;
    while k < |dl.keys|
      invariant 0 <= k <= |dl.keys|
      invariant forall j :: 0 <= j < k ==> dl.keys[j] in orders && OrdersOf(orders[dl.keys[j]], dl.values[dl.keys[j]])
    {
      var o := EnumerateOrders(dl.values[dl.keys[k]]);
      orders := orders[dl.keys[k] := o];
      k := k + 1;
    }
    assert OrdersCover(dl, orders) by {
      forall h | h in dl.values ensures h in orders && OrdersOf(orders[h], dl.values[h]) {
        var j :| 0 <= j < |dl.keys| && dl.keys[j] == h;
      }
    }
  }
}
