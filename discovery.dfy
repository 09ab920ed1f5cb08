/** One discovery round up to the merge (topology.py lines 181-223): the
    testbed devices not visited yet are marked visited and queried, and the
    report of each is merged by `get_device_connections`. */
module Discovery {
  import opened Wrappers
  import opened OMaps
  import opened Accumulators
  import opened Testbeds
  import opened Merger

  // ---------------------------------------------------------------------
  // The frontier.

  /** The names of `order` that are not in `visited`, in their order. */
  function Unvisited(order: seq<string>, visited: set<string>): seq<string>
    decreases |order|
  {
    if order == [] then []
    else
      var d := order[|order| - 1];
      Unvisited(order[..|order| - 1], visited) + (if d in visited then [] else [d])
  }

  /** A device is queued exactly when it is a testbed device not visited. */
  lemma {:induction false} UnvisitedMembers(order: seq<string>, visited: set<string>, d: string)
    ensures d in Unvisited(order, visited) <==> d in order && d !in visited
    decreases |order|
  {
    if order != [] {
      var pre := order[..|order| - 1];
      UnvisitedMembers(pre, visited, d);
      assert order == pre + [order[|order| - 1]];
    }
  }

  predicate NoRepeats(s: seq<string>) {
    forall i, j :: 0 <= i < j < |s| ==> s[i] != s[j]
  }

  /** Devices are distinct names, so no device is queued twice. */
  lemma {:induction false} UnvisitedNoRepeats(order: seq<string>, visited: set<string>)
    requires NoRepeats(order)
    ensures NoRepeats(Unvisited(order, visited))
    decreases |order|
  {
    if order != [] {
      var pre := order[..|order| - 1];
      var d := order[|order| - 1];
      UnvisitedNoRepeats(pre, visited);
      UnvisitedMembers(pre, visited, d);
      assert d !in pre by {
        forall i | 0 <= i < |pre| ensures pre[i] != d {
          assert pre[i] == order[i];
        }
      }
    }
  }

  /** The queue keeps the testbed order: the queue of a concatenation is the
      queue of its first part followed by that of its second. */
  lemma {:induction false} UnvisitedAppend(a: seq<string>, b: seq<string>, visited: set<string>)
    ensures Unvisited(a + b, visited) == Unvisited(a, visited) + Unvisited(b, visited)
    decreases |b|
  {
    if b == [] {
      assert a + b == a;
    } else {
      var b' := b[..|b| - 1];
      assert (a + b)[..|a + b| - 1] == a + b';
      assert (a + b)[|a + b| - 1] == b[|b| - 1];
      UnvisitedAppend(a, b', visited);
    }
  }

  /** After a round, the same devices queue nothing: every device is
      queried in one round only. */
  lemma AfterRoundNothingQueued(order: seq<string>, visited: set<string>)
    ensures Unvisited(order, visited + set d | d in order) == []
  {
    var v := visited + set d | d in order;
    var q := Unvisited(order, v);
    if q != [] {
      UnvisitedMembers(order, v, q[0]);
    }
  }

  // ---------------------------------------------------------------------
  // The merge of the collected reports.

  /** What the round has gathered: `conn_dict` (visited device to its
      `connection_dict`), `device_list` and the testbed. */
  datatype Gathered = Gathered(connections: OMap<string, ConnectionDict>, devices: DeviceList, testbed: Testbed)

  /** `conn_dict[device] = self.get_device_connections(...)`. */
  function ReportStep(f: Filters, g: Gathered, report: (string, NeighborData)): (r: Result<Gathered>)
    ensures r.Ok? ==>
      r.value.connections.keys == (if report.0 in g.connections.values then g.connections.keys else g.connections.keys + [report.0]) &&
      r.value.connections.values.Keys == g.connections.values.Keys + {report.0}
  {
    var (device, data) := report;
    match DeviceConnections(data, device, f, g.devices, g.testbed)
    case Err(e) => Err(e)
    case Ok(o) => Ok(Gathered(g.connections.Put(device, o.connections), o.devices, o.testbed))
  }

  function ReportStepFn(f: Filters): (Gathered, (string, NeighborData)) -> Result<Gathered> {
    (g, report) => ReportStep(f, g, report)
  }

  /** The reports `pcall(get_neighbor_info, ...)` collects for the queue, in
      queue order; each holds the key-value pairs of one result dictionary.
      `fetch` is the device query, which is not part of this model. */
  function Collect(queue: seq<string>, fetch: string -> seq<(string, NeighborData)>): (r: seq<seq<(string, NeighborData)>>)
    ensures |r| == |queue| && forall i :: 0 <= i < |r| ==> r[i] == fetch(queue[i])
  {
    seq(|queue|, i requires 0 <= i < |queue| => fetch(queue[i]))
  }

  /** `process_neigbor_data` on its own terms: the frontier, then every pair of
      every collected result, in order. */
  function NeighborData(tb: Testbed, visited: set<string>, dl: DeviceList, f: Filters,
                        fetch: string -> seq<(string, NeighborData)>): Result<Gathered>
  {
    Fold(ReportStepFn(f), Gathered(Empty(), dl, tb), Flatten(Collect(Unvisited(tb.devices.keys, visited), fetch)))
  }

  /** The accumulators and the testbed are well-formed, every interface a
      connection is recorded under exists on its device, and every peer is a
      device-list host seen on that port. */
  ghost predicate GatheredOk(g: Gathered) {
    g.connections.Valid() && g.devices.Valid() && g.testbed.Valid() &&
    forall d :: d in g.connections.values ==>
      g.connections.values[d].Valid() && PeersListed(g.connections.values[d], g.devices) &&
      (g.connections.values[d].keys != [] ==> d in g.testbed.devices.values) &&
      forall n :: n in g.connections.values[d].values ==> n in g.testbed.devices.values[d].interfaces
  }

  /** One merged report keeps `GatheredOk`. */
  lemma ReportStepOk(f: Filters, g: Gathered, report: (string, NeighborData))
    requires GatheredOk(g)
    ensures var r := ReportStep(f, g, report);
      r.Ok? ==> GatheredOk(r.value) && KeepsInterfaces(g.testbed, r.value.testbed) && r.value.testbed.links == g.testbed.links &&
                PortsGrow(g.devices, r.value.devices)
  {
    var (device, data) := report;
    DeviceConnectionsSpec(data, device, f, g.devices, g.testbed);
    DeviceConnectionsListed(data, device, f, g.devices, g.testbed);
    var r := ReportStep(f, g, report);
    if r.Ok? {
      var o := DeviceConnections(data, device, f, g.devices, g.testbed).value;
      assert Grows(g.testbed, o.testbed, device);
      forall d | d in r.value.connections.values
        ensures r.value.connections.values[d].Valid()
        ensures PeersListed(r.value.connections.values[d], r.value.devices)
        ensures r.value.connections.values[d].keys != [] ==> d in r.value.testbed.devices.values
        ensures forall n :: n in r.value.connections.values[d].values ==> n in r.value.testbed.devices.values[d].interfaces
      {
        if d != device {
          assert r.value.connections.values[d] == g.connections.values[d];
          PeersListedGrow(g.connections.values[d], g.devices, r.value.devices);
        }
      }
    }
  }

  /** A merge over any reports keeps `GatheredOk`, keeps the interfaces the
      testbed had and adds no link. */
  lemma {:induction false} ReportsOk(f: Filters, g0: Gathered, reports: seq<(string, NeighborData)>)
    requires GatheredOk(g0)
    ensures var r := Fold(ReportStepFn(f), g0, reports);
      r.Ok? ==> GatheredOk(r.value) && KeepsInterfaces(g0.testbed, r.value.testbed) && r.value.testbed.links == g0.testbed.links &&
                PortsGrow(g0.devices, r.value.devices)
    decreases |reports|
  {
    if reports != [] {
      var pre := reports[..|reports| - 1];
      ReportsOk(f, g0, pre);
      var r0 := Fold(ReportStepFn(f), g0, pre);
      if r0.Ok? {
        ReportStepOk(f, r0.value, reports[|reports| - 1]);
        var r := ReportStep(f, r0.value, reports[|reports| - 1]);
        if r.Ok? {
          KeepsInterfacesTransitive(g0.testbed, r0.value.testbed, r.value.testbed);
          PortsGrowTransitive(g0.devices, r0.value.devices, r.value.devices);
        }
      }
    }
  }

  /** The devices of a sequence of reports. */
  function Reporters(reports: seq<(string, NeighborData)>): set<string> {
    set p | p in reports :: p.0
  }

  /** The devices `conn_dict` holds are those it held and the devices the
      reports are about. */
  lemma {:induction false} ReportsKeys(f: Filters, g0: Gathered, reports: seq<(string, NeighborData)>)
    ensures var r := Fold(ReportStepFn(f), g0, reports);
      r.Ok? ==> r.value.connections.values.Keys == g0.connections.values.Keys + Reporters(reports)
    decreases |reports|
  {
    if reports != [] {
      var pre := reports[..|reports| - 1];
      var last := reports[|reports| - 1];
      ReportsKeys(f, g0, pre);
      assert reports == pre + [last];
      assert Reporters(reports) == Reporters(pre) + {last.0};
    }
  }

  /** `process_neigbor_data` from an empty `conn_dict`: on success both
      accumulators and the testbed are well-formed, the recorded local
      interfaces all exist, no link was added, and `conn_dict` holds exactly
      the reporting devices. */
  lemma NeighborDataSpec(tb: Testbed, visited: set<string>, dl: DeviceList, f: Filters,
                         fetch: string -> seq<(string, NeighborData)>)
    requires tb.Valid() && dl.Valid()
    ensures var r := NeighborData(tb, visited, dl, f, fetch);
      var reports := Flatten(Collect(Unvisited(tb.devices.keys, visited), fetch));
      r.Ok? ==> GatheredOk(r.value) && KeepsInterfaces(tb, r.value.testbed) && r.value.testbed.links == tb.links &&
                PortsGrow(dl, r.value.devices) && r.value.connections.values.Keys == Reporters(reports)
  {
    var g0 := Gathered(Empty(), dl, tb);
    var reports := Flatten(Collect(Unvisited(tb.devices.keys, visited), fetch));
    ReportsOk(f, g0, reports);
    ReportsKeys(f, g0, reports);
  }
}
