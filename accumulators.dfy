/** The two dictionaries a discovery round fills (topology.py lines
    457-515).

    `device_list` maps each neighbour host to what is known about it: the
    ports it was seen on, its management addresses, its OS, and the device
    that found it with the interface addresses it reported. `connection_dict`
    maps each local interface of the visited device to the neighbour ports
    behind it, in the order they were found. */
module Accumulators {
  import opened Wrappers
  import opened OMaps

  /** `{'dest_host': ..., 'dest_port': ...}`. */
  datatype Peer = Peer(destHost: string, destPort: string)

  /** Local interface name to the peers behind it. */
  type ConnectionDict = OMap<string, seq<Peer>>

  /** `finder`: the device that discovered the host, and the interface
      addresses it reported for it that are not management addresses. */
  datatype Finder = Finder(name: string, addresses: set<string>)

  /** One `device_list` entry. A management address is `None` when an LLDP
      neighbour reports none. */
  datatype DeviceRecord = DeviceRecord(ports: set<string>, ip: set<Option<string>>, os: Option<string>, finder: Finder)

  type DeviceList = OMap<string, DeviceRecord>

  /** `int_address.difference_update(mgmt_address)`. */
  function WithoutManagement(ints: set<string>, mgmt: set<Option<string>>): (r: set<string>)
    ensures forall a :: a in r <==> a in ints && Some(a) !in mgmt
  {
    set a | a in ints && Some(a) !in mgmt
  }

  /** `add_to_device_list`. */
  function AddToDeviceList(dl: DeviceList, destHost: string, destPort: string, ints: set<string>,
                           mgmt: set<Option<string>>, os: Option<string>, discoverName: string): (r: DeviceList)
    ensures dl.Valid() ==> r.Valid()
    ensures r.keys == if destHost in dl.values then dl.keys else dl.keys + [destHost]
    ensures r.values.Keys == dl.values.Keys + {destHost}
    ensures forall h :: h in dl.values && h != destHost ==> r.values[h] == dl.values[h]
    ensures destHost !in dl.values ==>
      r.values[destHost] == DeviceRecord({destPort}, mgmt, os, Finder(discoverName, WithoutManagement(ints, mgmt)))
    ensures destHost in dl.values ==>
      var old_ := dl.values[destHost];
      var new_ := r.values[destHost];
      new_.ports == old_.ports + {destPort} && new_.ip == old_.ip + mgmt &&
      new_.os == (if old_.os.None? then os else old_.os) && new_.finder == old_.finder
  {
    if destHost !in dl.values then
      dl.Put(destHost, DeviceRecord({destPort}, mgmt, os, Finder(discoverName, WithoutManagement(ints, mgmt))))
    else
      var e := dl.values[destHost];
      dl.Put(destHost, e.(ports := e.ports + {destPort}, ip := e.ip + mgmt, os := if e.os.None? then os else e.os))
  }

  /** Recording the same sighting twice is recording it once. */
  lemma AddToDeviceListIdempotent(dl: DeviceList, destHost: string, destPort: string, ints: set<string>,
                                  mgmt: set<Option<string>>, os: Option<string>, discoverName: string)
    requires dl.Valid()
    ensures var once := AddToDeviceList(dl, destHost, destPort, ints, mgmt, os, discoverName);
      AddToDeviceList(once, destHost, destPort, ints, mgmt, os, discoverName) == once
  {
    var once := AddToDeviceList(dl, destHost, destPort, ints, mgmt, os, discoverName);
    var twice := AddToDeviceList(once, destHost, destPort, ints, mgmt, os, discoverName);
    assert twice.values[destHost] == once.values[destHost];
    assert twice.values == once.values;
  }

  // ---------------------------------------------------------------------
  // add_to_connection_dict

  /** The peers behind an interface after `p` has been seen there: unchanged
      when `p` is already listed, otherwise `p` at the end. */
  function AppendNew(peers: seq<Peer>, p: Peer): (r: seq<Peer>)
  {
    if p in peers then peers else peers + [p]
  }

  /** No peer is listed twice. */
  predicate Distinct(peers: seq<Peer>) {
    forall i, j :: 0 <= i < j < |peers| ==> peers[i] != peers[j]
  }

  /** The dictionary after `add_to_connection_dict(..., p, iface, ...)`. */
  function ConnectionAdd(cd: ConnectionDict, p: Peer, iface: string): (r: ConnectionDict)
    ensures cd.Valid() ==> r.Valid()
  {
    cd.Put(iface, if iface in cd.values then AppendNew(cd.values[iface], p) else [p])
  }

  /** Every interface lists at least one peer, and none twice. */
  ghost predicate WellFormed(cd: ConnectionDict) {
    cd.Valid() && forall k :: k in cd.values ==> |cd.values[k]| > 0 && Distinct(cd.values[k])
  }

  /** After the call the peer is listed exactly once under the interface, it
      went to the end if it was new, the interface went to the end of the
      key order if it was new, and nothing else changed. */
  lemma ConnectionAddSpec(cd: ConnectionDict, p: Peer, iface: string)
    requires WellFormed(cd)
    ensures var r := ConnectionAdd(cd, p, iface);
      WellFormed(r) &&
      multiset(r.values[iface])[p] == 1 &&
      r.keys == (if iface in cd.values then cd.keys else cd.keys + [iface]) &&
      (iface in cd.values && p in cd.values[iface] ==> r.values[iface] == cd.values[iface]) &&
      (iface in cd.values && p !in cd.values[iface] ==> r.values[iface] == cd.values[iface] + [p]) &&
      (iface !in cd.values ==> r.values[iface] == [p]) &&
      forall k :: k in cd.values && k != iface ==> k in r.values && r.values[k] == cd.values[k]
  {
    if iface in cd.values {
      var s := cd.values[iface];
      if p in s {
        DistinctCount(s, p);
      } else {
        assert multiset(s)[p] == 0;
        assert multiset(s + [p]) == multiset(s) + multiset{p};
      }
    }
  }

  /** In a list without repeats, a listed peer occurs once. */
  lemma {:induction false} DistinctCount(s: seq<Peer>, p: Peer)
    requires Distinct(s) && p in s
    ensures multiset(s)[p] == 1
  {
    if s[0] == p {
      assert p !in s[1..];
      assert s == [s[0]] + s[1..];
      assert multiset(s) == multiset{s[0]} + multiset(s[1..]);
    } else {
      DistinctCount(s[1..], p);
      assert s == [s[0]] + s[1..];
      assert multiset(s) == multiset{s[0]} + multiset(s[1..]);
    }
  }

  /** A second identical call changes nothing. */
  lemma ConnectionAddIdempotent(cd: ConnectionDict, p: Peer, iface: string)
    requires cd.Valid()
    ensures ConnectionAdd(ConnectionAdd(cd, p, iface), p, iface) == ConnectionAdd(cd, p, iface)
  {
    var once := ConnectionAdd(cd, p, iface);
    assert p in once.values[iface];
    assert once.values[iface := once.values[iface]] == once.values;
  }
}
