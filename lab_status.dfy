/**
 * The `/lab_status` command: read the inventory, then probe every host of
 * `[windows_lab]` one by one (`ansible <host> -m win_ping`) in sorted order and
 * report each host as online or offline with the totals.
 */
module LabStatus {
  import opened Process
  import opened Ordering
  import Inventory

  /** How one host is shown: online, offline, offline by timeout, offline by error. */
  datatype HostState = Online | Offline | OfflineTimeout | OfflineError

  datatype HostRow = HostRow(name: string, address: string, state: HostState)

  /** The structure of the `/lab_status` reply. */
  datatype StatusReply =
    | InventoryError(reason: string)                   // reading the inventory file raised
    | NoHosts                                          // "no PC found in the inventory"
    | Status(rows: seq<HostRow>, online: seq<string>, offline: seq<string>, total: nat)

  /** How a probe's outcome is shown; only exit status 0 is online. */
  function StateOf(probe: RunOutcome): (s: HostState)
    ensures s == Online <==> ExitedZero(probe)
    ensures s == OfflineTimeout <==> probe.TimedOut?
    ensures s == OfflineError <==> probe.Crashed?
  {
    match probe
    case Completed(code, _, _) => if code == 0 then Online else Offline
    case TimedOut => OfflineTimeout
    case Crashed(_) => OfflineError
  }

  function Names(rows: seq<HostRow>): seq<string>
  {
    seq(|rows|, i requires 0 <= i < |rows| => rows[i].name)
  }

  /** The names of `names`, in order, whose probe did (`up`) or did not (`!up`) exit with status 0. */
  function Keep(names: seq<string>, probe: string -> RunOutcome, up: bool): seq<string>
    decreases |names|
  {
    if |names| == 0 then []
    else
      var last := names[|names| - 1];
      Keep(names[..|names| - 1], probe, up) + (if ExitedZero(probe(last)) == up then [last] else [])
  }

  lemma KeepNext(names: seq<string>, probe: string -> RunOutcome, i: int)
    requires 0 <= i < |names|
    ensures forall up :: (Keep(names[..i + 1], probe, up) ==
      Keep(names[..i], probe, up) + (if ExitedZero(probe(names[i])) == up then [names[i]] else []))
  {
    assert names[..i + 1][..i] == names[..i];
  }

  lemma {:induction false} KeepMembers(names: seq<string>, probe: string -> RunOutcome, up: bool, h: string)
    ensures h in Keep(names, probe, up) <==> h in names && ExitedZero(probe(h)) == up
    decreases |names|
  {
    if |names| > 0 {
      var n := |names| - 1;
      KeepMembers(names[..n], probe, up, h);
      assert names == names[..n] + [names[n]];
    }
  }

  /** The two lists split the names: together they are exactly as long. */
  lemma {:induction false} KeepSplits(names: seq<string>, probe: string -> RunOutcome)
    ensures |Keep(names, probe, true)| + |Keep(names, probe, false)| == |names|
    decreases |names|
  {
    if |names| > 0 {
      KeepSplits(names[..|names| - 1], probe);
    }
  }

  /** Keeping some names of a strictly sorted list keeps it strictly sorted. */
  lemma {:induction false} KeepSorted(names: seq<string>, probe: string -> RunOutcome, up: bool)
    requires StrictlySorted(names)
    ensures StrictlySorted(Keep(names, probe, up))
    decreases |names|
  {
    if |names| > 0 {
      var n := |names| - 1;
      var p := names[..n];
      assert StrictlySorted(p);
      KeepSorted(p, probe, up);
      var kept := Keep(p, probe, up);
      forall x | x in kept ensures Less(x, names[n]) {
        KeepMembers(p, probe, up, x);
        var k :| 0 <= k < n && p[k] == x;
      }
      AppendSorted(kept, names[n]);
    }
  }

  /** Every name of `names` is a host of `hosts`. */
  predicate AllHosts(names: seq<string>, hosts: map<string, string>)
  {
    forall n :: n in names ==> n in hosts
  }

  /** The rows of the reply for `names`, in order: name, address and shown state. */
  function Rows(names: seq<string>, hosts: map<string, string>, probe: string -> RunOutcome): seq<HostRow>
    requires AllHosts(names, hosts)
    decreases |names|
  {
    if |names| == 0 then []
    else
      var last := names[|names| - 1];
      assert AllHosts(names[..|names| - 1], hosts);
      Rows(names[..|names| - 1], hosts, probe) + [HostRow(last, hosts[last], StateOf(probe(last)))]
  }

  lemma {:induction false} RowsMeaning(names: seq<string>, hosts: map<string, string>, probe: string -> RunOutcome)
    requires AllHosts(names, hosts)
    ensures |Rows(names, hosts, probe)| == |names|
    ensures Names(Rows(names, hosts, probe)) == names
    ensures forall i :: 0 <= i < |names| ==>
      Rows(names, hosts, probe)[i] == HostRow(names[i], hosts[names[i]], StateOf(probe(names[i])))
    decreases |names|
  {
    if |names| > 0 {
      var p := names[..|names| - 1];
      assert AllHosts(p, hosts);
      RowsMeaning(p, hosts, probe);
      assert names == p + [names[|names| - 1]];
    }
  }

  lemma RowsNext(names: seq<string>, hosts: map<string, string>, probe: string -> RunOutcome, i: int)
    requires AllHosts(names, hosts) && 0 <= i < |names|
    ensures AllHosts(names[..i], hosts) && AllHosts(names[..i + 1], hosts)
    ensures Rows(names[..i + 1], hosts, probe) ==
      Rows(names[..i], hosts, probe) + [HostRow(names[i], hosts[names[i]], StateOf(probe(names[i])))]
  {
    assert names[..i + 1][..i] == names[..i];
  }

  /** What the probing loop's result means once every sorted host name has been probed. */
  lemma ScanMeaning(hosts: map<string, string>, probe: string -> RunOutcome)
    ensures AllHosts(SortedKeys(hosts.Keys), hosts)
    ensures var names := SortedKeys(hosts.Keys);
      var rows := Rows(names, hosts, probe);
      var online := Keep(names, probe, true);
      var offline := Keep(names, probe, false);
      && Names(rows) == names
      && (forall i :: 0 <= i < |rows| ==>
           rows[i].name in hosts && rows[i].address == hosts[rows[i].name]
           && rows[i].state == StateOf(probe(rows[i].name)))
      && (forall h :: h in online <==> h in hosts && ExitedZero(probe(h)))
      && (forall h :: h in offline <==> h in hosts && !ExitedZero(probe(h)))
      && |online| + |offline| == |hosts|
      && StrictlySorted(online) && StrictlySorted(offline)
  {
    var names := SortedKeys(hosts.Keys);
    RowsMeaning(names, hosts, probe);
    forall h ensures (h in Keep(names, probe, true) <==> h in hosts && ExitedZero(probe(h)))
                 && (h in Keep(names, probe, false) <==> h in hosts && !ExitedZero(probe(h))) {
      KeepMembers(names, probe, true, h);
      KeepMembers(names, probe, false, h);
    }
    KeepSplits(names, probe);
    KeepSorted(names, probe, true);
    KeepSorted(names, probe, false);
  }

  /**
   * The probing loop: every inventory host, in sorted order, lands in exactly
   * one of the two lists, online iff its probe exited with status 0.
   */
  method ScanHosts(hosts: map<string, string>, probe: string -> RunOutcome)
    returns (rows: seq<HostRow>, online: seq<string>, offline: seq<string>)
    ensures Names(rows) == SortedKeys(hosts.Keys)
    ensures forall i :: 0 <= i < |rows| ==>
      rows[i].name in hosts && rows[i].address == hosts[rows[i].name] && rows[i].state == StateOf(probe(rows[i].name))
    ensures forall h :: h in online <==> h in hosts && ExitedZero(probe(h))
    ensures forall h :: h in offline <==> h in hosts && !ExitedZero(probe(h))
    ensures |online| + |offline| == |hosts|
    ensures StrictlySorted(online) && StrictlySorted(offline)
  {
    var names := SortedKeys(hosts.Keys);
    ScanMeaning(hosts, probe);
    rows, online, offline := [], [], [];
    var i := 0;
    while i < |names|
      invariant 0 <= i <= |names|
      invariant AllHosts(names[..i], hosts)
      invariant rows == Rows(names[..i], hosts, probe)
      invariant online == Keep(names[..i], probe, true)
      invariant offline == Keep(names[..i], probe, false)
    {
      var name := names[i];
      KeepNext(names, probe, i);
      RowsNext(names, hosts, probe, i);
      var state := StateOf(probe(name));
      if state == Online {
        online := online + [name];
      } else {
        offline := offline + [name];
      }
      rows := rows + [HostRow(name, hosts[name], state)];
      i := i + 1;
    }
    assert names[..i] == names;
  }

  /**
   * A status reply lists exactly the given hosts, sorted, each row with its
   * inventory address and shown state, and splits them by their probes.
   */
  ghost predicate Reports(reply: StatusReply, hosts: map<string, string>, probe: string -> RunOutcome)
    requires reply.Status?
  {
    && reply.total == |hosts| == |reply.online| + |reply.offline|
    && Names(reply.rows) == SortedKeys(hosts.Keys)
    && (forall i :: 0 <= i < |reply.rows| ==>
          reply.rows[i].name in hosts && reply.rows[i].address == hosts[reply.rows[i].name]
          && reply.rows[i].state == StateOf(probe(reply.rows[i].name)))
    && (forall h :: h in reply.online <==> h in hosts && ExitedZero(probe(h)))
    && (forall h :: h in reply.offline <==> h in hosts && !ExitedZero(probe(h)))
    && StrictlySorted(reply.online) && StrictlySorted(reply.offline)
  }

  /** The whole `/lab_status` reply, given the inventory file's lines (or a read failure) and the probes. */
  method LabStatus(inventory: ReadOutcome, probe: string -> RunOutcome) returns (reply: StatusReply)
    ensures reply.InventoryError? <==> inventory.ReadFailed?
    ensures reply.InventoryError? ==> reply.reason == inventory.reason
    ensures inventory.ReadLines? ==> (reply == NoHosts <==> Inventory.Hosts(inventory.lines) == map[])
    ensures reply.Status? ==> inventory.ReadLines? && Reports(reply, Inventory.Hosts(inventory.lines), probe)
  {
    if inventory.ReadFailed? {
      return InventoryError(inventory.reason);
    }
    var hosts := Inventory.ReadInventory(inventory.lines);
    if hosts == map[] {
      reply := NoHosts;
    } else {
      var rows, online, offline := ScanHosts(hosts, probe);
      reply := Status(rows, online, offline, |hosts|);
    }
  }
}
