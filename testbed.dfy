/** The genie objects the creator builds and updates: a testbed of devices,
    each with its connections and interfaces, and links between interfaces.

    Genie objects refer to each other (an interface knows its link, a link
    its interfaces, a connection may hold a proxy list that the creator
    later changes in place). The model keeps every interface, link and proxy
    list in an arena addressed by position, so that two holders of the same
    object hold the same position. The genie behaviour the model relies on is
    written out where it is used: assigning `interface.device` registers the
    interface on that device under its name, and creating a link or
    connecting an interface to one sets that interface's link. */
module Testbeds {
  import opened Wrappers
  import opened OMaps

  /** One step of a proxy chain: `{'device': ..., 'command': ...}`. */
  datatype Hop = Hop(device: string, command: string)

  /** The value of a connection's `proxy` key: a device name, or a list of
      hops held by reference. */
  datatype Proxy = ProxyName(name: string) | ProxyChain(id: nat)

  /** A connection's `protocol`, `ip` and `proxy`; `None` where the key is
      absent. */
  datatype Connection = Connection(protocol: Option<string>, ip: Option<string>, proxy: Option<Proxy>)

  /** `credentials`: credential name to its fields (`username`, ...). */
  type Credentials = map<string, map<string, string>>

  datatype Device = Device(
    name: string,
    os: Option<string>,
    credentials: Credentials,
    devType: string,
    connections: OMap<string, Connection>,
    interfaces: map<string, nat>)

  datatype Interface = Interface(name: string, device: string, ifType: string, link: Option<nat>)

  datatype Link = Link(name: string, members: seq<nat>)

  datatype Testbed = Testbed(
    devices: OMap<string, Device>,
    interfaces: seq<Interface>,
    links: seq<Link>,
    proxies: seq<seq<Hop>>)
  {
    /** The interfaces of `d` are in the arena under their own name and
        device, and its proxy lists exist. */
    ghost predicate DeviceOk(d: Device) {
      d.connections.Valid() &&
      (forall n :: n in d.interfaces ==>
         d.interfaces[n] < |interfaces| && interfaces[d.interfaces[n]].name == n &&
         interfaces[d.interfaces[n]].device == d.name) &&
      (forall c :: c in d.connections.values && d.connections.values[c].proxy.Some? &&
                   d.connections.values[c].proxy.value.ProxyChain? ==>
         d.connections.values[c].proxy.value.id < |proxies|)
    }

    /** Every device is filed under its own name and fits the arenas. */
    ghost predicate DevicesOk() {
      forall n :: n in devices.values ==> devices.values[n].name == n && DeviceOk(devices.values[n])
    }

    /** Every link an interface names exists. */
    ghost predicate LinksOk() {
      forall i :: 0 <= i < |interfaces| && interfaces[i].link.Some? ==> interfaces[i].link.value < |links|
    }

    /** Every member of a link is an interface of the arena. */
    ghost predicate MembersOk() {
      forall l, k :: 0 <= l < |links| && 0 <= k < |links[l].members| ==> links[l].members[k] < |interfaces|
    }

    ghost predicate Valid() {
      devices.Valid() && DevicesOk() && LinksOk() && MembersOk()
    }

    /** `testbed.devices[name]`. */
    function DeviceNamed(name: string): (r: Result<Device>)
      ensures r.Ok? <==> name in devices.values
      ensures r.Ok? ==> r.value == devices.values[name]
      ensures r.Err? ==> r.error == UnknownDevice(name)
    {
      if name in devices.values then Ok(devices.values[name]) else Err(UnknownDevice(name))
    }

    /** `testbed.devices[device].interfaces[name]`, as an arena position. */
    function InterfaceOf(device: string, name: string): (r: Result<nat>)
      requires Valid()
      ensures r.Ok? <==> device in devices.values && name in devices.values[device].interfaces
      ensures r.Ok? ==> r.value < |interfaces| && interfaces[r.value].name == name && interfaces[r.value].device == device
      ensures r.Err? ==> r.error == (if device in devices.values then UnknownInterface(device, name) else UnknownDevice(device))
    {
      if device !in devices.values then Err(UnknownDevice(device))
      else if name !in devices.values[device].interfaces then Err(UnknownInterface(device, name))
      else Ok(devices.values[device].interfaces[name])
    }

    /** `Interface(name, type=ifType)` followed by `interface.device = d`
        for a device `d` of the testbed: a new interface without a link,
        registered on `d` under its name. */
    function AddInterface(device: string, name: string, ifType: string): (r: Testbed)
      requires device in devices.values
      ensures Valid() ==> r.Valid()
      ensures r.interfaces == interfaces + [Interface(name, device, ifType, None)]
      ensures r.links == links && r.proxies == proxies && r.devices.keys == devices.keys
      ensures r.devices.values.Keys == devices.values.Keys
      ensures r.devices.values[device] ==
              devices.values[device].(interfaces := devices.values[device].interfaces[name := |interfaces|])
      ensures forall n :: n in devices.values && n != device ==> r.devices.values[n] == devices.values[n]
    {
      var d := devices.values[device];
      var d' := d.(interfaces := d.interfaces[name := |interfaces|]);
      var r := Testbed(devices.Put(device, d'), interfaces + [Interface(name, device, ifType, None)], links, proxies);
      assert Valid() ==> r.Valid() by {
        if Valid() {
          AddInterfaceValid(device, name, ifType);
        }
      }
      r
    }

    /** The testbed `AddInterface` builds from this one is valid: the new
        interface is the last of the arena and only its device refers to it. */
    lemma AddInterfaceValid(device: string, name: string, ifType: string)
      requires Valid() && device in devices.values
      ensures var d := devices.values[device];
        Testbed(devices.Put(device, d.(interfaces := d.interfaces[name := |interfaces|])),
                interfaces + [Interface(name, device, ifType, None)], links, proxies).Valid()
    {
      var d := devices.values[device];
      var d' := d.(interfaces := d.interfaces[name := |interfaces|]);
      var r := Testbed(devices.Put(device, d'), interfaces + [Interface(name, device, ifType, None)], links, proxies);
      assert r.DevicesOk() by {
        forall n | n in r.devices.values ensures r.devices.values[n].name == n && r.DeviceOk(r.devices.values[n]) {
          if n == device {
            RegisteredDeviceOk(this, r, d, name, ifType);
          } else {
            DeviceOkGrow(this, r, devices.values[n]);
          }
        }
      }
      assert r.LinksOk() by {
        forall i | 0 <= i < |r.interfaces| && r.interfaces[i].link.Some? ensures r.interfaces[i].link.value < |r.links| {
          if i < |interfaces| {
            assert r.interfaces[i] == interfaces[i];
          }
        }
      }
      assert r.MembersOk();
      assert r.devices.Valid();
    }

    /** `Interface(name, type=ifType)` followed by `interface.device = d`
        for a device `d` that is not in the testbed yet: the interface goes
        to the end of the arena and is registered on `d` only. */
    function NewInterface(d: Device, name: string, ifType: string): (r: (Testbed, Device))
      ensures r.0 == this.(interfaces := interfaces + [Interface(name, d.name, ifType, None)])
      ensures r.1 == d.(interfaces := d.interfaces[name := |interfaces|])
      ensures Valid() ==> r.0.Valid()
      ensures DeviceOk(d) ==> r.0.DeviceOk(r.1)
      ensures forall e :: DeviceOk(e) ==> r.0.DeviceOk(e)
    {
      var t := this.(interfaces := interfaces + [Interface(name, d.name, ifType, None)]);
      assert forall e :: DeviceOk(e) ==> t.DeviceOk(e) by {
        forall e | DeviceOk(e) ensures t.DeviceOk(e) {
          forall n | n in e.interfaces ensures t.interfaces[e.interfaces[n]] == interfaces[e.interfaces[n]] { }
        }
      }
      (t, d.(interfaces := d.interfaces[name := |interfaces|]))
    }

    /** `testbed.add_device(d)`. */
    function AddDevice(d: Device): (r: Testbed)
      ensures r == this.(devices := devices.Put(d.name, d))
      ensures Valid() && DeviceOk(d) ==> r.Valid()
    {
      var r := this.(devices := devices.Put(d.name, d));
      assert Valid() && DeviceOk(d) ==> r.Valid() by {
        if Valid() && DeviceOk(d) {
          forall n | n in r.devices.values ensures r.devices.values[n].name == n && r.DeviceOk(r.devices.values[n]) {
            if n != d.name {
              assert devices.values[n] == r.devices.values[n];
            }
          }
        }
      }
      r
    }
  }

  /** Every device of `tb` is in `t` and keeps the interfaces it had, under
      the same arena positions. */
  ghost predicate KeepsInterfaces(tb: Testbed, t: Testbed) {
    forall d :: d in tb.devices.values ==>
      d in t.devices.values &&
      forall n :: n in tb.devices.values[d].interfaces ==>
        n in t.devices.values[d].interfaces &&
        t.devices.values[d].interfaces[n] == tb.devices.values[d].interfaces[n]
  }

  lemma KeepsInterfacesTransitive(a: Testbed, b: Testbed, c: Testbed)
    requires KeepsInterfaces(a, b) && KeepsInterfaces(b, c)
    ensures KeepsInterfaces(a, c)
  {
  }

  /** A device still fits once an interface registered on it under `name`
      is appended to the arena. */
  lemma RegisteredDeviceOk(t: Testbed, t': Testbed, d: Device, name: string, ifType: string)
    requires t.DeviceOk(d) && t'.proxies == t.proxies
    requires t'.interfaces == t.interfaces + [Interface(name, d.name, ifType, None)]
    ensures t'.DeviceOk(d.(interfaces := d.interfaces[name := |t.interfaces|]))
  {
    var d' := d.(interfaces := d.interfaces[name := |t.interfaces|]);
    forall m | m in d'.interfaces
      ensures d'.interfaces[m] < |t'.interfaces| && t'.interfaces[d'.interfaces[m]].name == m &&
              t'.interfaces[d'.interfaces[m]].device == d'.name
    {
      if m != name {
        assert t'.interfaces[d.interfaces[m]] == t.interfaces[d.interfaces[m]];
      }
    }
  }

  /** A device that fits a testbed still fits once the arenas have grown. */
  lemma DeviceOkGrow(t: Testbed, t': Testbed, d: Device)
    requires t.DeviceOk(d) && t.interfaces <= t'.interfaces && |t.proxies| <= |t'.proxies|
    ensures t'.DeviceOk(d)
  {
    forall n | n in d.interfaces ensures t'.interfaces[d.interfaces[n]] == t.interfaces[d.interfaces[n]] { }
  }

  /** Growing or rewriting the proxy arena, without shrinking it, keeps a
      testbed well-formed. */
  lemma ProxiesGrowValid(tb: Testbed, proxies: seq<seq<Hop>>)
    requires tb.Valid() && |tb.proxies| <= |proxies|
    ensures tb.(proxies := proxies).Valid()
  {
    var t := tb.(proxies := proxies);
    forall n | n in t.devices.values ensures t.DeviceOk(t.devices.values[n]) {
      assert tb.DeviceOk(tb.devices.values[n]);
    }
  }
}
