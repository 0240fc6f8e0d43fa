/**
 * The inventory reader of `lab_status`: it walks the lines of an INI-style
 * Ansible inventory and collects, for the hosts of the `[windows_lab]` group,
 * a host name -> address dictionary.
 */
module Inventory {
  import opened Text
  import opened Process

  const WINDOWS_HEADER := "[windows_lab]"
  const HOST_VAR := "ansible_host="
  const NO_ADDRESS := "N/A"

  /** What one raw inventory line is to the reader. */
  datatype LineKind =
    | WindowsHeader            // exactly `[windows_lab]` once stripped
    | OtherHeader              // any other line starting with `[`
    | Skipped                  // blank, or a `;` or `#` comment (or no words at all)
    | HostLine(host: string, address: string)

  function Kind(raw: string): LineKind
  {
    var line := Strip(raw);
    if line == WINDOWS_HEADER then WindowsHeader
    else if StartsWith(line, "[") then OtherHeader
    else if line == "" || StartsWith(line, ";") || StartsWith(line, "#") then Skipped
    else
      var parts := Words(line);
      if |parts| > 0 then HostLine(parts[0], AddressOf(parts)) else Skipped
  }

  /** `part.split('=')[1]` for a word that starts with `ansible_host=`. */
  function HostVarValue(part: string): string
    requires StartsWith(part, HOST_VAR)
  {
    assert part[|HOST_VAR| - 1] == '=';
    Split(part, '=')[1]
  }

  /** The value of `ansible_host=` is the text between the first and the second `=`. */
  lemma HostVarValueBetween(part: string)
    requires StartsWith(part, HOST_VAR)
    ensures var v := HostVarValue(part); var rest := part[|HOST_VAR|..];
      v == Split(rest, '=')[0] && |v| <= |rest| && rest[..|v|] == v && '=' !in v && (|v| == |rest| || rest[|v|] == '=')
  {
    var rest := part[|HOST_VAR|..];
    assert part == "ansible_host" + ['='] + rest;
    SplitAfterField("ansible_host", '=', rest);
    SplitFirst(rest, '=');
  }

  /** The address of a host line: from the first word starting with `ansible_host=`, else `N/A`. */
  function AddressOf(words: seq<string>): (a: string)
    ensures (forall k :: 0 <= k < |words| ==> !StartsWith(words[k], HOST_VAR)) ==> a == NO_ADDRESS
    ensures forall k :: (0 <= k < |words| && StartsWith(words[k], HOST_VAR)
              && forall m :: 0 <= m < k ==> !StartsWith(words[m], HOST_VAR)) ==> a == HostVarValue(words[k])
    decreases |words|
  {
    if |words| == 0 then NO_ADDRESS
    else if StartsWith(words[0], HOST_VAR) then HostVarValue(words[0])
    else
      var a := AddressOf(words[1..]);
      assert forall k :: 1 <= k < |words| ==> words[k] == words[1..][k - 1];
      a
  }

  predicate IsHeader(kind: LineKind)
  {
    kind.WindowsHeader? || kind.OtherHeader?
  }

  /** What a line's kind says about its text. */
  lemma KindMeaning(raw: string)
    ensures var line := Strip(raw);
      && (Kind(raw) == WindowsHeader <==> line == WINDOWS_HEADER)
      && (IsHeader(Kind(raw)) <==> StartsWith(line, "["))
      && (Kind(raw).HostLine? <==>
            line != "" && !StartsWith(line, "[") && !StartsWith(line, ";") && !StartsWith(line, "#"))
      && (Kind(raw).HostLine? ==>
            var h := Kind(raw).host;
            && h == TakeWord(line) && h != "" && NoSpace(h)
            && line[..|h|] == h && (|h| == |line| || IsSpace(line[|h|]))
            && Kind(raw).address == AddressOf(Words(line)))
  {
    assert StartsWith(WINDOWS_HEADER, "[");
  }

  /** The reader's state: the "in `[windows_lab]`" flag and the dictionary so far. */
  datatype Scan = Scan(inSection: bool, hosts: map<string, string>)

  /** One iteration of the reader loop, on the kind of the line. */
  function Step(st: Scan, kind: LineKind): Scan
  {
    match kind
    case WindowsHeader => Scan(true, st.hosts)
    case OtherHeader => Scan(false, st.hosts)
    case Skipped => st
    case HostLine(host, address) =>
      if st.inSection then Scan(st.inSection, st.hosts[host := address]) else st
  }

  /** The kinds of the lines, in order. */
  function Classify(lines: seq<string>): (kinds: seq<LineKind>)
    ensures |kinds| == |lines|
    ensures forall i :: 0 <= i < |lines| ==> kinds[i] == Kind(lines[i])
  {
    seq(|lines|, i requires 0 <= i < |lines| => Kind(lines[i]))
  }

  /** The reader's state after lines of the given kinds, from "outside any section, no hosts". */
  function Run(kinds: seq<LineKind>): Scan
    decreases |kinds|
  {
    if |kinds| == 0 then Scan(false, map[])
    else Step(Run(kinds[..|kinds| - 1]), kinds[|kinds| - 1])
  }

  /** The dictionary `lab_status` builds from the inventory lines. */
  function Hosts(lines: seq<string>): map<string, string>
  {
    Run(Classify(lines)).hosts
  }

  /** The inner `for part in parts ... break` loop of the reader. */
  method FindAddress(words: seq<string>) returns (ip: string)
    ensures ip == AddressOf(words)
  {
    ip := NO_ADDRESS;
    var i := 0;
    while i < |words|
      invariant 0 <= i <= |words|
      invariant forall m :: 0 <= m < i ==> !StartsWith(words[m], HOST_VAR)
      invariant ip == NO_ADDRESS
    {
      if StartsWith(words[i], HOST_VAR) {
        ip := HostVarValue(words[i]);
        return;
      }
      i := i + 1;
    }
  }

  /** The reader loop of `lab_status` over the lines of the inventory file. */
  method ReadInventory(lines: seq<string>) returns (hosts: map<string, string>)
    ensures hosts == Hosts(lines)
  {
    hosts := map[];
    var inSection := false;
    var i := 0;
    while i < |lines|
      invariant 0 <= i <= |lines|
      invariant Run(Classify(lines[..i])) == Scan(inSection, hosts)
    {
      RunNextLine(lines, i);
      var line := Strip(lines[i]);
      if line == WINDOWS_HEADER {
        inSection := true;
      } else if StartsWith(line, "[") {
        inSection := false;
      } else if inSection && line != "" && !StartsWith(line, ";") && !StartsWith(line, "#") {
        var parts := Words(line);
        if |parts| > 0 {
          var ip := FindAddress(parts);
          hosts := hosts[parts[0] := ip];
        }
      }
      i := i + 1;
    }
    assert lines[..i] == lines;
  }

  lemma RunNextLine(lines: seq<string>, i: int)
    requires 0 <= i < |lines|
    ensures Run(Classify(lines[..i + 1])) == Step(Run(Classify(lines[..i])), Kind(lines[i]))
  {
    var c := Classify(lines[..i + 1]);
    assert c[..i] == Classify(lines[..i]);
  }

  /** Before line `i` the section is open: some `[windows_lab]` line has no header after it. */
  ghost predicate OpenAt(kinds: seq<LineKind>, i: int)
    requires 0 <= i <= |kinds|
  {
    exists j :: 0 <= j < i && kinds[j] == WindowsHeader && forall m :: j < m < i ==> !IsHeader(kinds[m])
  }

  lemma OpenAtPrefix(kinds: seq<LineKind>, n: int, i: int)
    requires 0 <= i <= n <= |kinds|
    ensures OpenAt(kinds[..n], i) <==> OpenAt(kinds, i)
  {
    assert forall m :: 0 <= m < n ==> kinds[..n][m] == kinds[m];
  }

  /** The reader's flag is exactly "the last header line seen was `[windows_lab]`". */
  lemma {:induction false} InSectionIff(kinds: seq<LineKind>)
    ensures Run(kinds).inSection <==> OpenAt(kinds, |kinds|)
    decreases |kinds|
  {
    if |kinds| > 0 {
      var n := |kinds| - 1;
      InSectionIff(kinds[..n]);
      OpenAtPrefix(kinds, n, n);
      if kinds[n] == WindowsHeader {
        assert OpenAt(kinds, n + 1) by {
          assert kinds[n] == WindowsHeader;
        }
      } else if IsHeader(kinds[n]) {
        assert !OpenAt(kinds, |kinds|);
      } else {
        assert OpenAt(kinds, n + 1) <==> OpenAt(kinds, n);
      }
    }
  }

  /** Line `i` is a host line for `k` read while the section is open. */
  ghost predicate Contributes(kinds: seq<LineKind>, i: int, k: string)
  {
    0 <= i < |kinds| && OpenAt(kinds, i) && kinds[i].HostLine? && kinds[i].host == k
  }

  lemma ContributesPrefix(kinds: seq<LineKind>, n: int, i: int, k: string)
    requires 0 <= i < n <= |kinds|
    ensures Contributes(kinds[..n], i, k) <==> Contributes(kinds, i, k)
  {
    OpenAtPrefix(kinds, n, i);
  }

  /** The last line changes the dictionary exactly as its entry says, when the section is open. */
  lemma RunHosts(kinds: seq<LineKind>)
    requires |kinds| > 0
    ensures var n := |kinds| - 1; var e := kinds[n]; var before := Run(kinds[..n]).hosts;
      Run(kinds).hosts == if OpenAt(kinds, n) && e.HostLine? then before[e.host := e.address] else before
  {
    var n := |kinds| - 1;
    InSectionIff(kinds[..n]);
    OpenAtPrefix(kinds, n, n);
  }

  /** A host is in the dictionary iff some in-section host line names it. */
  lemma {:induction false} HostsAreSectionEntries(kinds: seq<LineKind>, k: string)
    ensures k in Run(kinds).hosts <==> exists i :: Contributes(kinds, i, k)
    decreases |kinds|
  {
    if |kinds| > 0 {
      var n := |kinds| - 1;
      HostsAreSectionEntries(kinds[..n], k);
      RunHosts(kinds);
      forall i | 0 <= i < n ensures Contributes(kinds[..n], i, k) <==> Contributes(kinds, i, k) {
        ContributesPrefix(kinds, n, i, k);
      }
      if k in Run(kinds).hosts && !Contributes(kinds, n, k) {
        var i :| Contributes(kinds[..n], i, k);
        assert Contributes(kinds, i, k);
      }
    }
  }

  /** A last line that does not name `k` in the open section keeps the address of `k`. */
  lemma KeepsHost(kinds: seq<LineKind>, k: string)
    requires |kinds| > 0 && !Contributes(kinds, |kinds| - 1, k)
    requires k in Run(kinds[..|kinds| - 1]).hosts
    ensures k in Run(kinds).hosts && Run(kinds).hosts[k] == Run(kinds[..|kinds| - 1]).hosts[k]
  {
    RunHosts(kinds);
  }

  /** A last line that names `k` in the open section sets the address of `k`. */
  lemma SetsHost(kinds: seq<LineKind>, k: string)
    requires |kinds| > 0 && Contributes(kinds, |kinds| - 1, k)
    ensures k in Run(kinds).hosts && Run(kinds).hosts[k] == kinds[|kinds| - 1].address
  {
    RunHosts(kinds);
  }

  lemma NoLaterInPrefix(kinds: seq<LineKind>, p: seq<LineKind>, i: int, k: string)
    requires 0 <= i < |kinds| - 1 && p == kinds[..|kinds| - 1]
    requires forall j :: i < j < |kinds| ==> !Contributes(kinds, j, k)
    ensures forall j :: i < j < |p| ==> !Contributes(p, j, k)
  {
    forall j | i < j < |p| ensures !Contributes(p, j, k) {
      ContributesPrefix(kinds, |kinds| - 1, j, k);
    }
  }

  /** The address kept for a host is the one from its last in-section host line. */
  lemma {:induction false} LastLineWins(kinds: seq<LineKind>, i: int, k: string)
    requires Contributes(kinds, i, k)
    requires forall j :: i < j < |kinds| ==> !Contributes(kinds, j, k)
    ensures k in Run(kinds).hosts && Run(kinds).hosts[k] == kinds[i].address
    decreases |kinds|
  {
    var n := |kinds| - 1;
    if i < n {
      ContributesPrefix(kinds, n, i, k);
      NoLaterInPrefix(kinds, kinds[..n], i, k);
      LastLineWins(kinds[..n], i, k);
      KeepsHost(kinds, k);
    } else {
      SetsHost(kinds, k);
    }
  }
}
