/**
 * The `/windows_ping` command: one `ansible windows_lab -m win_ping --one-line`
 * run, whose exit status decides between parsing its output and a failure
 * report, and the classifier of its one-line output, which `/install_software`
 * reuses to find the hosts that answered.
 */
module Ping {
  import opened Text
  import opened Process
  import opened Ordering
  import opened Lines

  const SUCCESS: string := "SUCCESS"
  const UNREACHABLE: string := "UNREACHABLE"

  /** The host name of a one-line report: the text before the first `|`, stripped. */
  function HostField(line: string): (name: string)
    ensures var f := Split(line, '|')[0];
      && '|' !in f && line[..|f|] == f && (|f| == |line| || line[|f|] == '|')
      && name == Strip(f)
    ensures '|' !in name
    ensures NoSpaceEdges(name)
  {
    var f := Split(line, '|')[0];
    SplitFirst(line, '|');
    StripInside(f);
    Strip(f)
  }

  /** Stripping only removes characters, so a character missing before is missing after. */
  lemma StripInside(s: string)
    ensures forall c :: c !in s ==> c !in Strip(s)
  {
    var r := Strip(s);
    var i, j :| StrippedAt(s, r, i, j);
    forall c | c in r ensures c in s {
      var k :| 0 <= k < |r| && r[k] == c;
      assert s[i + k] == c;
    }
  }

  /** The line reports a host as reachable. */
  predicate IsUp(line: string)
  {
    Contains(line, SUCCESS)
  }

  /** The line reports a host as unreachable; a `SUCCESS` on the same line wins. */
  predicate IsDown(line: string)
  {
    !Contains(line, SUCCESS) && Contains(line, UNREACHABLE)
  }

  /** The line reports a host as reachable (`up`) or as unreachable (`!up`). */
  predicate Announces(line: string, up: bool)
  {
    if up then IsUp(line) else IsDown(line)
  }

  /** What one line adds to the online (`up`) or offline list. */
  function Entry(line: string, up: bool): seq<string>
  {
    if Announces(line, up) then [HostField(line)] else []
  }

  /** The host names of the lines that report hosts up, in line order. */
  function Online(lines: seq<string>): seq<string>
  {
    Collect(lines, line => Entry(line, true))
  }

  /** The host names of the lines that report hosts down, in line order. */
  function Offline(lines: seq<string>): seq<string>
  {
    Collect(lines, line => Entry(line, false))
  }

  /** A name is online iff some line contains `SUCCESS` and carries it. */
  lemma OnlineMembers(lines: seq<string>, name: string)
    ensures name in Online(lines) <==>
      exists i :: 0 <= i < |lines| && Contains(lines[i], SUCCESS) && HostField(lines[i]) == name
  {
    CollectMembers(lines, line => Entry(line, true), name);
    if name in Online(lines) {
      var i :| 0 <= i < |lines| && name in Entry(lines[i], true);
      assert Contains(lines[i], SUCCESS) && HostField(lines[i]) == name;
    }
    if exists i :: 0 <= i < |lines| && Contains(lines[i], SUCCESS) && HostField(lines[i]) == name {
      var i :| 0 <= i < |lines| && Contains(lines[i], SUCCESS) && HostField(lines[i]) == name;
      assert name in Entry(lines[i], true);
    }
  }

  /** A name is offline iff some line contains `UNREACHABLE` but not `SUCCESS` and carries it. */
  lemma OfflineMembers(lines: seq<string>, name: string)
    ensures name in Offline(lines) <==>
      exists i :: 0 <= i < |lines| && !Contains(lines[i], SUCCESS) && Contains(lines[i], UNREACHABLE)
                  && HostField(lines[i]) == name
  {
    CollectMembers(lines, line => Entry(line, false), name);
    if name in Offline(lines) {
      var i :| 0 <= i < |lines| && name in Entry(lines[i], false);
      assert IsDown(lines[i]) && HostField(lines[i]) == name;
    }
    if exists i :: 0 <= i < |lines| && !Contains(lines[i], SUCCESS) && Contains(lines[i], UNREACHABLE)
                   && HostField(lines[i]) == name {
      var i :| 0 <= i < |lines| && !Contains(lines[i], SUCCESS) && Contains(lines[i], UNREACHABLE)
               && HostField(lines[i]) == name;
      assert name in Entry(lines[i], false);
    }
  }

  /** Both lists follow the output: two pieces of output give their lists one after the other. */
  lemma ListsAppend(a: seq<string>, b: seq<string>)
    ensures Online(a + b) == Online(a) + Online(b)
    ensures Offline(a + b) == Offline(a) + Offline(b)
  {
    CollectAppend(a, b, line => Entry(line, true));
    CollectAppend(a, b, line => Entry(line, false));
  }

  /** A line that says both `SUCCESS` and `UNREACHABLE` counts as online only. */
  lemma SuccessWins(line: string)
    requires Contains(line, SUCCESS) && Contains(line, UNREACHABLE)
    ensures Online([line]) == [HostField(line)]
    ensures Offline([line]) == []
  {
    CollectNext([line], l => Entry(l, true), 0);
    CollectNext([line], l => Entry(l, false), 0);
    assert [line][..1] == [line];
  }

  /** No line is counted twice: each line adds at most one name to at most one list. */
  lemma {:induction false} HostsCount(lines: seq<string>)
    ensures |Online(lines)| + |Offline(lines)| <= |lines|
    decreases |lines|
  {
    if |lines| > 0 {
      var n := |lines| - 1;
      HostsCount(lines[..n]);
      CollectNext(lines, line => Entry(line, true), n);
      CollectNext(lines, line => Entry(line, false), n);
      assert lines[..n + 1] == lines;
    }
  }

  /** The classifying loop over the output's lines. */
  method ParsePingOutput(stdout: string) returns (online: seq<string>, offline: seq<string>)
    ensures online == Online(Split(stdout, '\n'))
    ensures offline == Offline(Split(stdout, '\n'))
  {
    var lines := Split(stdout, '\n');
    online, offline := [], [];
    var i := 0;
    while i < |lines|
      invariant 0 <= i <= |lines|
      invariant online == Online(lines[..i])
      invariant offline == Offline(lines[..i])
    {
      var line := lines[i];
      CollectNext(lines, line => Entry(line, true), i);
      CollectNext(lines, line => Entry(line, false), i);
      if Contains(line, SUCCESS) {
        online := online + [HostField(line)];
      } else if Contains(line, UNREACHABLE) {
        offline := offline + [HostField(line)];
      }
      i := i + 1;
    }
    assert lines[..i] == lines;
  }

  /** The exit statuses after which the output is parsed: 0, and 4 (some hosts unreachable). */
  predicate Parsed(code: int)
  {
    code == 0 || code == 4
  }

  /** The structure of the `/windows_ping` reply. */
  datatype PingReply =
    | PingTimeout                                  // the run took more than 60 seconds
    | PingError(reason: string)                    // the run raised
    | PingFailed(code: int)                        // any exit status other than 0 and 4
    | PingReport(online: seq<string>, offline: seq<string>, total: nat)  // lists as shown, sorted

  /** The reply of `/windows_ping`, given the outcome of the ping run. */
  method WindowsPing(result: RunOutcome) returns (reply: PingReply)
    ensures reply == PingTimeout <==> result.TimedOut?
    ensures reply.PingError? <==> result.Crashed?
    ensures reply.PingError? ==> reply.reason == result.reason
    ensures reply.PingFailed? <==> result.Completed? && !Parsed(result.code)
    ensures reply.PingFailed? ==> reply.code == result.code
    ensures reply.PingReport? <==> result.Completed? && Parsed(result.code)
    ensures reply.PingReport? ==>
      var lines := Split(result.stdout, '\n');
      && Sorted(reply.online) && multiset(reply.online) == multiset(Online(lines))
      && Sorted(reply.offline) && multiset(reply.offline) == multiset(Offline(lines))
      && reply.total == |Online(lines)| + |Offline(lines)| <= |lines|
  {
    match result
    case TimedOut => reply := PingTimeout;
    case Crashed(e) => reply := PingError(e);
    case Completed(code, stdout, _) =>
      if code == 0 || code == 4 {
        var online, offline := ParsePingOutput(stdout);
        HostsCount(Split(stdout, '\n'));
        reply := PingReport(Sort(online), Sort(offline), |online| + |offline|);
      } else {
        reply := PingFailed(code);
      }
  }
}
