/**
 * The `/install_software` command: check that the playbook exists, probe the
 * lab with one `win_ping` run, run `ansible-playbook --limit <online hosts>`
 * only when some host answered, and turn the playbook's exit status and
 * output into the reply and the admin notification.
 */
module Install {
  import opened Text
  import opened Process
  import opened Lines
  import Ping

  /** The software table, in its declared order: task key and display name. */
  const SOFTWARE: seq<(string, string)> := [
    ("googlechrome", "Google Chrome"),
    ("firefox", "Firefox"),
    ("vscode", "VS Code"),
    ("vlc", "VLC"),
    ("notepadplusplus", "Notepad++"),
    ("7zip", "7-Zip"),
    ("python", "Python"),
    ("git", "Git")
  ]

  /** The display names of `table`, in table order. */
  function DisplayNames(table: seq<(string, string)>): (names: seq<string>)
    ensures |names| == |table|
    ensures forall j :: 0 <= j < |table| ==> names[j] == table[j].1
  {
    seq(|table|, j requires 0 <= j < |table| => table[j].1)
  }

  /** The software a fully successful run reports installed, as written out in its message. */
  const INSTALLED_ALL: seq<string> :=
    ["Google Chrome", "Firefox", "VS Code", "VLC", "Notepad++", "7-Zip", "Python", "Git"]

  /** The success message lists exactly the table's display names, in table order. */
  lemma SuccessListIsTable()
    ensures INSTALLED_ALL == DisplayNames(SOFTWARE)
  {
  }

  // ---------------------------------------------------------------------------
  // Which online hosts the playbook targets
  // ---------------------------------------------------------------------------

  /**
   * The hosts the probe found online: parsed only after exit status 0 or 4,
   * and only from lines containing `SUCCESS`.
   */
  function Targets(ping: RunOutcome): seq<string>
  {
    if ping.Completed? && Ping.Parsed(ping.code) then Ping.Online(Split(ping.stdout, '\n')) else []
  }

  /** The probing loop of `/install_software`; like the ping parser, but it keeps only the online list. */
  method OnlineTargets(ping: RunOutcome) returns (online: seq<string>)
    requires ping.Completed?
    ensures online == Targets(ping)
  {
    online := [];
    if ping.code == 0 || ping.code == 4 {
      var lines := Split(ping.stdout, '\n');
      var i := 0;
      while i < |lines|
        invariant 0 <= i <= |lines|
        invariant online == Ping.Online(lines[..i])
      {
        var line := lines[i];
        CollectNext(lines, l => Ping.Entry(l, true), i);
        if Contains(line, Ping.SUCCESS) {
          online := online + [Ping.HostField(line)];
        }
        i := i + 1;
      }
      assert lines[..i] == lines;
    }
  }

  /** Every target is a host some line of the probe output reported with `SUCCESS`. */
  lemma TargetsAnswered(ping: RunOutcome, name: string)
    requires name in Targets(ping)
    ensures ping.Completed? && Ping.Parsed(ping.code)
    ensures exists i :: 0 <= i < |Split(ping.stdout, '\n')| && Contains(Split(ping.stdout, '\n')[i], Ping.SUCCESS)
                        && Ping.HostField(Split(ping.stdout, '\n')[i]) == name
  {
    Ping.OnlineMembers(Split(ping.stdout, '\n'), name);
  }

  /**
   * The `--limit` argument names exactly the targets: splitting it at `,`
   * gives them back, in order, when no host name holds a comma.
   */
  lemma LimitNamesTargets(targets: seq<string>)
    requires |targets| >= 1
    requires forall k :: 0 <= k < |targets| ==> ',' !in targets[k]
    ensures Split(Join(targets, ','), ',') == targets
  {
    SplitJoin(targets, ',');
  }

  // ---------------------------------------------------------------------------
  // The recap of a partly failed run (exit status 4)
  // ---------------------------------------------------------------------------

  datatype Verdict = Installed | Failed | Unmarked

  /**
   * What one output line says about one software key: it counts only when it
   * holds both `Install <key>` and `ok=`; `changed=1` means installed, and
   * otherwise `failed=` without `failed=0` means failed.
   */
  function VerdictOf(line: string, key: string): Verdict
  {
    if Contains(line, "Install " + key) && Contains(line, "ok=") then
      if Contains(line, "changed=1") then Installed
      else if Contains(line, "failed=") && !Contains(line, "failed=0") then Failed
      else Unmarked
    else Unmarked
  }

  /** The display names of `table`, in table order, whose key gets verdict `v` on `line`. */
  function Picked(line: string, table: seq<(string, string)>, v: Verdict): seq<string>
    decreases |table|
  {
    if |table| == 0 then []
    else
      var last := table[|table| - 1];
      Picked(line, table[..|table| - 1], v) + (if VerdictOf(line, last.0) == v then [last.1] else [])
  }

  /** The recap lists: line by line, and within a line in table order; a name may repeat. */
  function Recap(lines: seq<string>, v: Verdict): seq<string>
  {
    Collect(lines, line => Picked(line, SOFTWARE, v))
  }

  lemma PickedNext(line: string, table: seq<(string, string)>, v: Verdict, j: int)
    requires 0 <= j < |table|
    ensures Picked(line, table[..j + 1], v) ==
      Picked(line, table[..j], v) + (if VerdictOf(line, table[j].0) == v then [table[j].1] else [])
  {
    assert table[..j + 1][..j] == table[..j];
  }

  lemma {:induction false} PickedMembers(line: string, table: seq<(string, string)>, v: Verdict, name: string)
    ensures name in Picked(line, table, v) <==>
      exists j :: 0 <= j < |table| && table[j].1 == name && VerdictOf(line, table[j].0) == v
    decreases |table|
  {
    if |table| > 0 {
      var n := |table| - 1;
      var p := table[..n];
      PickedMembers(line, p, v, name);
      if name in Picked(line, p, v) {
        var j :| 0 <= j < |p| && p[j].1 == name && VerdictOf(line, p[j].0) == v;
        assert table[j] == p[j];
      }
      if exists j :: 0 <= j < |table| && table[j].1 == name && VerdictOf(line, table[j].0) == v {
        var j :| 0 <= j < |table| && table[j].1 == name && VerdictOf(line, table[j].0) == v;
        if j < n {
          assert p[j] == table[j];
        }
      }
    }
  }

  /** A line gives each key at most one verdict, so it adds at most one name per key to the two lists. */
  lemma {:induction false} PickedCount(line: string, table: seq<(string, string)>)
    ensures |Picked(line, table, Installed)| + |Picked(line, table, Failed)| <= |table|
    decreases |table|
  {
    if |table| > 0 {
      PickedCount(line, table[..|table| - 1]);
    }
  }

  /** A name is in a recap list iff some line gives some key of that name that verdict. */
  lemma RecapMembers(lines: seq<string>, v: Verdict, name: string)
    ensures name in Recap(lines, v) <==>
      exists i, j :: 0 <= i < |lines| && 0 <= j < |SOFTWARE| && SOFTWARE[j].1 == name
                     && VerdictOf(lines[i], SOFTWARE[j].0) == v
  {
    CollectMembers(lines, line => Picked(line, SOFTWARE, v), name);
    if name in Recap(lines, v) {
      var i :| 0 <= i < |lines| && name in Picked(lines[i], SOFTWARE, v);
      PickedMembers(lines[i], SOFTWARE, v, name);
    }
    if exists i, j :: 0 <= i < |lines| && 0 <= j < |SOFTWARE| && SOFTWARE[j].1 == name
                      && VerdictOf(lines[i], SOFTWARE[j].0) == v {
      var i, j :| 0 <= i < |lines| && 0 <= j < |SOFTWARE| && SOFTWARE[j].1 == name
                  && VerdictOf(lines[i], SOFTWARE[j].0) == v;
      PickedMembers(lines[i], SOFTWARE, v, name);
      assert name in Picked(lines[i], SOFTWARE, v);
    }
  }

  /** Both lists together hold at most one entry per line and table key. */
  lemma {:induction false} RecapCount(lines: seq<string>)
    ensures |Recap(lines, Installed)| + |Recap(lines, Failed)| <= |lines| * |SOFTWARE|
    decreases |lines|
  {
    if |lines| > 0 {
      var n := |lines| - 1;
      RecapCount(lines[..n]);
      CollectNext(lines, line => Picked(line, SOFTWARE, Installed), n);
      CollectNext(lines, line => Picked(line, SOFTWARE, Failed), n);
      PickedCount(lines[n], SOFTWARE);
      assert lines[..n + 1] == lines;
    }
  }

  /** The recap follows the output: two pieces of output give their lists one after the other. */
  lemma RecapAppend(a: seq<string>, b: seq<string>, v: Verdict)
    ensures Recap(a + b, v) == Recap(a, v) + Recap(b, v)
  {
    CollectAppend(a, b, line => Picked(line, SOFTWARE, v));
  }

  /** The inner loop: one output line against every table entry, in table order. */
  method ScanLine(line: string, installed0: seq<string>, failed0: seq<string>)
    returns (installed: seq<string>, failed: seq<string>)
    ensures installed == installed0 + Picked(line, SOFTWARE, Installed)
    ensures failed == failed0 + Picked(line, SOFTWARE, Failed)
  {
    installed, failed := installed0, failed0;
    var j := 0;
    while j < |SOFTWARE|
      invariant 0 <= j <= |SOFTWARE|
      invariant installed == installed0 + Picked(line, SOFTWARE[..j], Installed)
      invariant failed == failed0 + Picked(line, SOFTWARE[..j], Failed)
    {
      var key, name := SOFTWARE[j].0, SOFTWARE[j].1;
      PickedNext(line, SOFTWARE, Installed, j);
      PickedNext(line, SOFTWARE, Failed, j);
      if Contains(line, "Install " + key) && Contains(line, "ok=") {
        if Contains(line, "changed=1") {
          installed := installed + [name];
        } else if Contains(line, "failed=") && !Contains(line, "failed=0") {
          failed := failed + [name];
        }
      }
      j := j + 1;
    }
    assert SOFTWARE[..j] == SOFTWARE;
  }

  /** The nested loop over output lines and table entries. */
  method ParseRecap(stdout: string) returns (installed: seq<string>, failed: seq<string>)
    ensures installed == Recap(Split(stdout, '\n'), Installed)
    ensures failed == Recap(Split(stdout, '\n'), Failed)
  {
    var lines := Split(stdout, '\n');
    installed, failed := [], [];
    var i := 0;
    while i < |lines|
      invariant 0 <= i <= |lines|
      invariant installed == Recap(lines[..i], Installed)
      invariant failed == Recap(lines[..i], Failed)
    {
      CollectNext(lines, l => Picked(l, SOFTWARE, Installed), i);
      CollectNext(lines, l => Picked(l, SOFTWARE, Failed), i);
      installed, failed := ScanLine(lines[i], installed, failed);
      i := i + 1;
    }
    assert lines[..i] == lines;
  }

  // ---------------------------------------------------------------------------
  // The chocolatey hint of a failed run
  // ---------------------------------------------------------------------------

  /** The failure report suggests a missing Chocolatey when stderr, lowered, mentions it. */
  predicate ChocoHint(stderr: string)
  {
    Contains(Lower(stderr), "choco") || Contains(Lower(stderr), "chocolatey")
  }

  /** The second test adds nothing: "chocolatey" contains "choco". */
  lemma ChocoHintIff(stderr: string)
    ensures ChocoHint(stderr) <==> Contains(Lower(stderr), "choco")
  {
    assert StartsWith("chocolatey", "choco");
    if Contains(Lower(stderr), "chocolatey") {
      ContainsTransitive(Lower(stderr), "chocolatey", "choco");
    }
  }

  /** The test ignores case: any spelling of "choco" in any case gives the hint. */
  lemma ChocoAnyCase(stderr: string, word: string)
    requires Contains(stderr, word) && Lower(word) == "choco"
    ensures ChocoHint(stderr)
  {
    LowerContains(stderr, word);
  }

  // ---------------------------------------------------------------------------
  // The whole command
  // ---------------------------------------------------------------------------

  /** The structure of the `/install_software` reply. */
  datatype InstallReply =
    | PlaybookMissing                                  // the playbook file does not exist
    | NoOnline                                         // no host answered the probe
    | InstallTimeout                                   // the probe or the playbook timed out
    | InstallError(reason: string)                     // the probe or the playbook run raised
    | AllInstalled(targets: nat, software: seq<string>) // exit status 0
    | Partial(targets: nat, installed: seq<string>, failed: seq<string>)  // exit status 4
    | InstallFailed(targets: nat, code: int, chocolatey: bool)            // any other status

  /** The notification sent to the admin chat. */
  datatype Notice = SuccessNotice | IssuesNotice(code: int) | TimeoutNotice | ErrorNotice(reason: string)

  /** The reply, notification and playbook run of a finished playbook with exit status `code`. */
  function Finish(code: int, stdout: string, stderr: string, targets: nat): (r: (InstallReply, Notice))
    ensures r.1 == SuccessNotice <==> code == 0
    ensures r.1 != SuccessNotice ==> r.1 == IssuesNotice(code)
    ensures code == 0 <==> r.0.AllInstalled?
    ensures code == 4 <==> r.0.Partial?
    ensures code != 0 && code != 4 <==> r.0.InstallFailed?
    ensures r.0.AllInstalled? ==> r.0 == AllInstalled(targets, INSTALLED_ALL)
    ensures r.0.Partial? ==>
      r.0 == Partial(targets, Recap(Split(stdout, '\n'), Installed), Recap(Split(stdout, '\n'), Failed))
    ensures r.0.InstallFailed? ==> r.0 == InstallFailed(targets, code, Contains(Lower(stderr), "choco"))
  {
    ChocoHintIff(stderr);
    if code == 0 then (AllInstalled(targets, INSTALLED_ALL), SuccessNotice)
    else if code == 4 then
      (Partial(targets, Recap(Split(stdout, '\n'), Installed), Recap(Split(stdout, '\n'), Failed)), IssuesNotice(code))
    else (InstallFailed(targets, code, ChocoHint(stderr)), IssuesNotice(code))
  }

  /** How a run that timed out or raised is reported. */
  function Aborted(run: RunOutcome): (r: (InstallReply, Notice))
    requires !run.Completed?
    ensures run.TimedOut? ==> r == (InstallTimeout, TimeoutNotice)
    ensures run.Crashed? ==> r == (InstallError(run.reason), ErrorNotice(run.reason))
  {
    if run.TimedOut? then (InstallTimeout, TimeoutNotice) else (InstallError(run.reason), ErrorNotice(run.reason))
  }

  /**
   * The whole command, given whether the playbook exists, the probe's outcome
   * and the playbook run's outcome; `limit` is the `--limit` argument of the
   * playbook run when it is started, `notice` the notification when one is sent.
   */
  method InstallSoftware(playbookExists: bool, ping: RunOutcome, playbook: RunOutcome)
    returns (reply: InstallReply, limit: Option<string>, notice: Option<Notice>)
    ensures !playbookExists ==> reply == PlaybookMissing && limit == None && notice == None
    ensures playbookExists && !ping.Completed? ==>
      limit == None && notice.Some? && (reply, notice.value) == Aborted(ping)
    ensures reply == NoOnline <==> playbookExists && ping.Completed? && Targets(ping) == []
    ensures reply == NoOnline ==> limit == None && notice == None
    ensures limit.Some? <==> playbookExists && ping.Completed? && Targets(ping) != []
    ensures limit.Some? ==> limit.value == Join(Targets(ping), ',') && notice.Some?
    ensures limit.Some? && !playbook.Completed? ==> (reply, notice.value) == Aborted(playbook)
    ensures limit.Some? && playbook.Completed? ==>
      (reply, notice.value) == Finish(playbook.code, playbook.stdout, playbook.stderr, |Targets(ping)|)
  {
    limit, notice := None, None;
    if !playbookExists {
      return PlaybookMissing, limit, notice;
    }
    if !ping.Completed? {
      var (r, n) := Aborted(ping);
      return r, limit, Some(n);
    }
    var online := OnlineTargets(ping);
    if online == [] {
      return NoOnline, limit, notice;
    }
    limit := Some(Join(online, ','));
    if !playbook.Completed? {
      var (r, n) := Aborted(playbook);
      return r, limit, Some(n);
    }
    var installed, failed := [], [];
    if playbook.code == 4 {
      installed, failed := ParseRecap(playbook.stdout);
    }
    var r, n;
    if playbook.code == 0 {
      r, n := AllInstalled(|online|, INSTALLED_ALL), SuccessNotice;
    } else if playbook.code == 4 {
      r, n := Partial(|online|, installed, failed), IssuesNotice(playbook.code);
    } else {
      r, n := InstallFailed(|online|, playbook.code, ChocoHint(playbook.stderr)), IssuesNotice(playbook.code);
    }
    reply, notice := r, Some(n);
  }
}
