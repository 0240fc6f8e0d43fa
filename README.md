# Windows lab bot: the decision and parsing core

`scripts/telegram_bot.py` is a Telegram bot for a lab of Windows PCs managed
with Ansible. It has four commands: `/start`, `/lab_status`, `/windows_ping`
and `/install_software`. On top of that, `main` checks the configuration at
startup. The chat and process plumbing is not modelled. This project models
the deterministic logic inside the handlers, with every process result and
file content supplied as an input:

- **Inventory reader** (`inventory.dfy`). It reads the INI-style inventory
  line by line and tracks whether it is inside the `[windows_lab]` group. It
  builds the host → address dictionary. The address comes from the first
  `ansible_host=` word; without one it is `N/A`.
- **Lab status** (`lab_status.dfy`). It probes every inventory host in
  sorted order, then files each host as online or offline. A host is online
  exactly when its probe exits with status 0. A timeout or an error counts as
  offline. The reply also gives the totals.
- **Ping classifier** (`ping.dfy`). It turns the one-line `win_ping` output
  into the online list (lines with `SUCCESS`) and the offline list (lines
  with `UNREACHABLE` but no `SUCCESS`). The host name is the text before the
  first `|` of the line, stripped. The output is parsed only after exit
  status 0 or 4; any other status gives a failure report.
- **Software install** (`install.dfy`):
  - The playbook runs only when some host answered `SUCCESS`. Its
    `--limit` argument is those hosts joined with `,`.
  - The exit status is split three ways: 0 is success, 4 is partial, and
    anything else is failure.
  - After status 4, the output is matched line by line against the
    eight-entry software table. This gives the installed list and the
    failed list.
  - After a failure, the lower-cased stderr decides the Chocolatey hint.
  - The admin notification is the success notice for status 0, and an
    "issues" notice carrying the status otherwise, 4 included.
- **Startup check** (`startup.dfy`). The token must be non-empty and must not
  be the template placeholder. Then each required path must exist, checked
  in declared order.

The other files hold support code:

- `text.dfy`: the Python string operations the parsers use (`strip`,
  `split(c)`, `split()`, `c.join`, `in`, `startswith`, `lower`), written
  out with their laws.
- `ordering.dfy`: Python's string order and `sorted`.
- `lines.dfy`: the "walk the output lines and append" shape shared by the
  parsers.
- `process.dfy`: the result of a process run, which is completed with
  status, stdout and stderr, timed out, or crashed.

Each loop of the source becomes a `method` with that loop and its
invariants. The method is proved equal to a specification function over the
input. The source's promises are proved as lemmas about those functions.

## Model

| member | source | states |
|---|---|---|
| Text.Strip | scripts/telegram_bot.py:48 | `strip()` gives a slice `s[i..j]` of the text such that everything outside it is whitespace (Python's `isspace` set) and neither end of it is; text without edge whitespace is unchanged |
| Text.Split | scripts/telegram_bot.py:63 | `split(c)` gives at least one field; no field holds `c`; there is more than one field iff `c` occurs |
| Text.JoinSplit | scripts/telegram_bot.py:154 | joining the fields of `split(c)` with `c` gives back the original text |
| Text.SplitJoin | scripts/telegram_bot.py:230 | splitting the `c`-join of separator-free fields gives back those fields |
| Text.SplitFirst | scripts/telegram_bot.py:160 | the first field of `split(c)` is the prefix up to the first `c`, or all of the text |
| Text.Words | scripts/telegram_bot.py:57 | `split()` yields non-empty, whitespace-free words; a text starting with a non-space yields its leading run first |
| Text.WordsSingle | scripts/telegram_bot.py:57 | a single non-empty whitespace-free word splits into itself |
| Text.WordsAfterWord | scripts/telegram_bot.py:57 | a leading word ended by whitespace is the first word, followed by the words of the rest |
| Text.WordsSkipSpace | scripts/telegram_bot.py:57 | leading whitespace contributes nothing; with the two laws above and `split()` of `""` being empty, this fixes every result |
| Text.ContainsIff | scripts/telegram_bot.py:159 | the substring test `t in s` holds iff `t` occurs in `s` at some index |
| Text.ContainsTransitive | scripts/telegram_bot.py:293 | a substring of a substring is a substring |
| Text.LowerContains | scripts/telegram_bot.py:293 | if `t` occurs in `s`, then `t.lower()` occurs in `s.lower()` |
| Ordering.SortedKeys | scripts/telegram_bot.py:78 | `sorted` of a dictionary's keys lists each key exactly once, in strictly increasing Python string order |
| Ordering.Sort | scripts/telegram_bot.py:167-173 | `sorted` of a list is ordered and is a permutation of the list |
| Ordering.LessEqTransitive | scripts/telegram_bot.py:78 | Python's `<=` on strings is transitive (with `LessEqAntisymmetric` and `LessEqTotal` it is a total order) |
| Inventory.AddressOf | scripts/telegram_bot.py:60-64 | the address is the `ansible_host=` value of the first word with that prefix, and `N/A` when there is none |
| Inventory.HostVarValueBetween | scripts/telegram_bot.py:63 | `part.split('=')[1]` is the text between the first and the second `=` |
| Inventory.KindMeaning | scripts/telegram_bot.py:48-59 | a stripped line is the group header iff it is exactly `[windows_lab]`; it is a header iff it starts with `[`; it is a host line iff it is non-blank and starts with none of `[`, `;` or `#`; the host is its first word |
| Inventory.FindAddress | scripts/telegram_bot.py:60-64 | the inner loop, which stops at the first `ansible_host=` word, computes the address |
| Inventory.ReadInventory | scripts/telegram_bot.py:42-65 | the reading loop, with its section flag and dictionary updates, yields the dictionary of the line-by-line scan |
| Inventory.InSectionIff | scripts/telegram_bot.py:45-54 | the section flag is set iff the last header line so far was `[windows_lab]` |
| Inventory.HostsAreSectionEntries | scripts/telegram_bot.py:56-65 | a host is in the dictionary iff some host line names it while the `[windows_lab]` section is open |
| Inventory.LastLineWins | scripts/telegram_bot.py:65 | a host's address comes from its last in-section line; later lines overwrite earlier ones |
| Inventory.SetsHost | scripts/telegram_bot.py:65 | an in-section host line sets the address of its host |
| Inventory.KeepsHost | scripts/telegram_bot.py:56-65 | a line that is not an in-section entry for a host leaves that host's address as it was |
| LabStatus.StateOf | scripts/telegram_bot.py:89-105 | a host is shown online iff its probe exited with status 0; a timeout and an error are shown as such |
| LabStatus.KeepMembers | scripts/telegram_bot.py:89-105 | a name is on the online list iff it was probed and exited with status 0; it is on the offline list iff it was probed and did not |
| LabStatus.KeepSplits | scripts/telegram_bot.py:112-114 | the online and offline lists together are as long as the probed list, since each host goes to exactly one |
| LabStatus.KeepSorted | scripts/telegram_bot.py:78 | both lists keep the sorted visiting order |
| LabStatus.RowsMeaning | scripts/telegram_bot.py:78-105 | there is one row per visited host, in visiting order, with its inventory address and shown state |
| LabStatus.ScanMeaning | scripts/telegram_bot.py:75-114 | after the sorted scan: the rows name the sorted hosts, online holds exactly the hosts that exited with 0, offline all other hosts, online + offline = total, both lists sorted |
| LabStatus.ScanHosts | scripts/telegram_bot.py:75-114 | the probing loop yields the rows and the two lists that `ScanMeaning` describes |
| LabStatus.LabStatus | scripts/telegram_bot.py:40-128 | an unreadable inventory gives the error reply with the exception text; an empty dictionary gives the "no PC" reply; otherwise the status reply has one row per host in sorted order with its address and shown state, the two lists split by probe status and sorted, and the totals |
| Ping.HostField | scripts/telegram_bot.py:160 | the host name is the stripped text before the first `\|` of the line (all of it when there is none); it holds no `\|` and has no whitespace at either end |
| Ping.OnlineMembers | scripts/telegram_bot.py:158-161 | a name is online iff some output line contains `SUCCESS` and carries that name before its first `\|` |
| Ping.OfflineMembers | scripts/telegram_bot.py:162-164 | a name is offline iff some line contains `UNREACHABLE`, not `SUCCESS`, and carries that name |
| Ping.SuccessWins | scripts/telegram_bot.py:159-162 | a line with both `SUCCESS` and `UNREACHABLE` counts as online only |
| Ping.ListsAppend | scripts/telegram_bot.py:158 | both lists follow the order of the output lines |
| Ping.HostsCount | scripts/telegram_bot.py:175 | each line adds at most one name to at most one list, so the total is at most the number of lines |
| Ping.ParsePingOutput | scripts/telegram_bot.py:154-164 | the classifying loop over the lines yields the online and offline lists |
| Ping.WindowsPing | scripts/telegram_bot.py:153-190 | statuses 0 and 4 give a report whose lists are the sorted permutations of the parsed lists, with total = their lengths added; any other status gives a failure carrying that status; a timeout and an error give their own replies |
| Install.OnlineTargets | scripts/telegram_bot.py:215-220 | the probing loop keeps the `SUCCESS` hosts, and only after status 0 or 4 |
| Install.TargetsAnswered | scripts/telegram_bot.py:215-220 | every target was reported with `SUCCESS` by a probe that exited with 0 or 4 |
| Install.LimitNamesTargets | scripts/telegram_bot.py:230 | the `--limit` argument splits back into the targets, in order, when no name holds a comma |
| Install.PickedMembers | scripts/telegram_bot.py:269-274 | a name is picked from one line iff some table entry with that name gets that verdict on the line |
| Install.RecapMembers | scripts/telegram_bot.py:268-274 | a software name is listed as installed (failed) iff some output line gives its key that verdict |
| Install.RecapCount | scripts/telegram_bot.py:268-274 | the two lists together hold at most one entry per line and table key |
| Install.RecapAppend | scripts/telegram_bot.py:268 | the lists follow line order |
| Install.ScanLine | scripts/telegram_bot.py:269-274 | the inner loop appends, in table order, the names whose key line holds `Install <key>` and `ok=`: installed if it holds `changed=1`, failed if it holds `failed=` without `failed=0` |
| Install.ParseRecap | scripts/telegram_bot.py:253-274 | the nested loop yields the installed and failed recap lists |
| Install.ChocoHintIff | scripts/telegram_bot.py:293 | the hint test is the same as "`choco` occurs in the lowered stderr"; the `chocolatey` test is redundant |
| Install.ChocoAnyCase | scripts/telegram_bot.py:293 | any casing of `choco` in stderr triggers the hint |
| Install.SuccessListIsTable | scripts/telegram_bot.py:247 | the software list written out in the success message (line 247) is exactly the display names of the software table (lines 257-266), in table order |
| Install.Finish | scripts/telegram_bot.py:244-308 | status 0 is success with the success notice; 4 is partial with the recap lists; all else is failure with the code and the Chocolatey hint; the notice is the success text iff the status is 0, otherwise "issues" with the status |
| Install.Aborted | scripts/telegram_bot.py:310-315 | a timeout gives the timeout reply and notice; an error gives both with its text |
| Install.InstallSoftware | scripts/telegram_bot.py:197-315 | a missing playbook stops everything; the playbook runs iff the probe found a `SUCCESS` host; its `--limit` is their comma-join; the outcome and notice are as in `Finish` and `Aborted` |
| Startup.ValidateStartup | scripts/telegram_bot.py:348-361 | an empty or placeholder token is rejected first; then the first missing path, in declared order, is reported; otherwise the bot is ready |

## Left out

- Telegram I/O is not modelled: `reply_text`, `Bot`, `send_notification`, `Updater`, handler registration and polling. These are network calls into a library that is not part of this model. `/start` only sends a fixed menu, so it is left out too. The replies are modelled by their structure (outcome, counts, lists, code), not by their exact emoji and Markdown text.
- The `ansible` and `ansible-playbook` runs and their timeouts are inputs of type `RunOutcome`. Each is completed (status, stdout, stderr), timed out, or crashed with a reason. For `/lab_status` the per-host probe is an input function from host name to outcome.
- Reading the inventory file is an input: its lines, or the text of the exception raised while reading it. `os.path.exists` is an input predicate for `main` and a boolean for the playbook check.
- Wall-clock timing and the `:.1f` float formatting of execution times are left out.
- The module-level `config` import (lines 12-19), the logging setup (line 10) and `global_error_handler` (lines 325-344) are framework plumbing and are not modelled.
- The rest of `main` after the checks is not modelled: the Telegram connection test and the polling loop.
- `Text.Lower` lowers ASCII letters only, unlike Python's full Unicode `lower`. It is used only to look for `choco`, and no non-ASCII character lowers to one of those letters.
- Lines 289-290 are indented less than the `else:` above them, so the file as shown does not parse. The model follows the evident intent: a third "failure" branch for any status other than 0 and 4. That branch carries the status and the stderr-based Chocolatey hint of lines 293-298. The hint and the general-advice text of line 300 are shown only for that branch.
- In `Ping.WindowsPing` the reported lists are `sorted` copies. This is stated as "ordered and a permutation" of the parsed lists; that fixes them uniquely.
