# Instance-Logging: the reconciliation cycle, in Dafny

This project models the core of the Eucalyptus instance-logging daemon
(`eucalogd.py`, its twin `listener.py`, and the per-instance record in
`instance.py`) and proves properties of that model.

Each second, the daemon runs one **reconciliation cycle** over its table of
instances, a dictionary from instance id to `Instance`:

1. **Discovery.** Each path returned by `glob(EUCA_LIB_PATH + 'instances/*/i-*')`
   is split at `/`. The second-to-last segment is the owner and the last is the id.
   Paths under the reserved owner `logs` are skipped. An `Instance(owner, id, update=False)`
   is created only for an id not yet in the table.
2. **Hypervisor set.** The first line of the `virsh list | grep "i-"` text
   is dropped. Each remaining row contributes its second whitespace field,
   and a row without one is skipped.
3. **Per-record pass.** A record whose directory no longer exists is terminated.
   Otherwise, a record that holds a run state but whose id is missing from
   the hypervisor set is terminated. Otherwise, a record that is not
   terminated is updated from the `virsh` and host answers.

The daemon takes no actions of its own in the model. The glob result, the
`virsh list` text, the set of existing paths and the outputs `update` reads
(`Probe`) are all inputs.

Module layout:

- `Text.dfy` holds the three Python 2 string operations the daemon parses with:
  `split('/')`, `split()` and `splitlines()`. Each comes with round-trip
  lemmas. In Python 2, `split()` treats space, `\t`, `\n`, `\r`, `\v` and `\f`
  as whitespace, and `splitlines()` breaks at `\n`, `\r` and `\r\n`.
- `EucaInstance.dfy` models `instance.py`. The `Instance` class has `const`
  `username` and `instanceId` (there are no setters), a mutable `attrs` map
  and a `terminated` flag. `Refresh` is the pure specification of what
  `update` writes. `InstancePath` models `os.path.join` with POSIX rules.
- `Reconcile.dfy` holds the cycle shared by both scripts. The specification
  is `Cycle`, a function on `Record` snapshots: `Scan`, then `VirshIds`, then
  `ProcessAll`. The lemmas are stated about `Cycle`. The imperative steps
  (`DiscoverInstances`, `VirshInstanceIds`, `ProcessInstances`) work on live
  `Instance` objects and are proved against those functions.
- `Eucalogd.dfy` and `Listener.dfy` hold the loop body of
  `EucaLogDaemon.run` and of `listener.main`. The two sources are the same
  code line for line, so both methods compose the same three steps.
  `terminate_instance` (eucalogd.py:73-75, listener.py:59-61) is modelled
  once, as `Reconcile.TerminateInstance`.

### Choices where the code is broken or incomplete

- `instance.id`, `get_attr`, `terminated` and `mark_terminated` are used by
  the loop (eucalogd.py:64,67,74-75) but `instance.py` does not define them.
  As written, the per-record pass raises AttributeError on the first record it
  visits, whichever branch it takes: a record with an existing directory fails
  at `instance.id` (eucalogd.py:64), and a record whose directory is gone fails
  in `terminate_instance` at `instance.id` (eucalogd.py:74). The
  `mark_terminated` it calls next (eucalogd.py:75) does not exist either.
  The model adds:
  - the id accessor `GetInstanceId`;
  - `GetAttr`, which returns `None` for a missing key, as `dict.get` does;
  - a `terminated` flag that starts false;
  - `MarkTerminated`, which sets that flag.
- `get_instance_id` returns `self.instance_id`, which does not exist
  (instance.py:29). `GetInstanceId` returns the stored id.
- The hypervisor rule tests the truthiness of `get_attr(...)`. The model
  reads this as "the key is present and its value is not the empty string".
- The two defects listed under Findings are modelled as written, each
  beside its corrected form. The rest of the model uses the corrected forms:
  a set of hypervisor ids, and the key `libvirt_status`.
- The code applies the two termination branches to every record, terminated
  or not, and the model follows the code. Marking a terminated record again
  leaves its state unchanged, so `TerminatedRecordFrozen` still holds.
- Log preservation, change events, control-plane queries and a
  `last_updated` time do not appear in eucalogd.py, listener.py or
  instance.py, and are not modelled.
- In the code, a record discovered in a cycle is processed in that same
  cycle. When its directory exists, it is updated at once
  (`ConfirmedThenVanished`).
- `update` indexes line `[1]` of `virsh list | grep "<id>"` (instance.py:59)
  and of the filtered `dumpxml` output (instance.py:56). With the usual
  listing layout, the first filter leaves one line per instance, so that
  index raises IndexError. `Refresh` keeps the code's indexing, and `ProbeOk`
  states what the outputs must hold for `update` to finish.
- The cycle's `[1:]` slice (eucalogd.py:47) and `update`'s `[1]` index make
  the same assumption: `getoutput` returns one extra line ahead of the
  `grep` rows (a message merged in from stderr, say). The model keeps both
  as written: `VirshIds` drops the first line, and `ProbeOk` asks for a
  second one. Without that extra line, the first listed instance is missing
  from the hypervisor set (`LeadingLineIgnored`) and `update` raises.

## Model

| member | source | states |
|---|---|---|
| `Text.SplitOn` | eucalogd.py:32 | `split('/')` yields at least one segment, and at least two exactly when the path contains `/`, which is exactly when `[-2]` is defined |
| `Text.SplitOnSegmentsFree` | eucalogd.py:32-34 | no segment of `split('/')` contains `/` |
| `Text.JoinSplitOn` | eucalogd.py:32 | joining the segments with `/` gives back the path |
| `Text.SplitOnJoin` | listener.py:18 | splitting a `/`-join of `/`-free segments gives back those segments |
| `Text.SplitOnAppend` | listener.py:18-20 | appending `/` and a `/`-free segment to a path adds exactly that segment at the end |
| `Text.Fields` | eucalogd.py:54 | `split()`: every field is non-empty and whitespace-free, and the fields concatenate to the non-whitespace bytes of the row in order |
| `Text.FieldsOfPadded` | eucalogd.py:54 | `split()` breaks at maximal whitespace runs: words padded by any runs of whitespace, non-empty between words and possibly empty at either end, split into exactly those words |
| `Text.FieldsOfJoin` | listener.py:40 | `split()` of whitespace-free words joined by single spaces gives back the words |
| `Text.Lines` | eucalogd.py:47 | `splitlines()`: no line contains `\n` or `\r` |
| `Text.LinesOfJoin` | listener.py:33 | `splitlines()` of break-free lines joined by `\n` gives back the lines when the last one is non-empty |
| `EucaInstance.Refresh` | instance.py:37-65 | `update` adds or overwrites exactly the six keys host_name, host_ip, mac_address, libvirt_id, libvirt_status, console_log; it removes none and leaves every other key's value unchanged |
| `EucaInstance.RefreshConfirmsRunState` | instance.py:56-62 | after `update`: libvirt_status is field 2 and libvirt_id field 0 of the second `virsh list` line, both non-empty and whitespace-free, and libvirt_status a truthy run state; mac_address is the second `dumpxml` line and holds no line break; host_name, host_ip and console_log are the values read from the host and from `tail` |
| `EucaInstance.InstancePathLayout` | instance.py:9-35 | the property of `InstancePath`, the POSIX `os.path.join` of instance.py:35 built from `PathJoin`: for a non-empty owner with no leading or trailing `/` and a relative id, the path is `/var/lib/eucalyptus/instances/<owner>/<id>` |
| `EucaInstance.Instance.GetInstancePath` | instance.py:34-35 | the instance's path has that layout whenever its owner and id are of that form |
| `EucaInstance.Instance.GetAttr` | eucalogd.py:64 | the `get_attr` the loop calls: a value exactly when the key is present, and then the stored value |
| `EucaInstance.Instance.constructor` | instance.py:17-23 | owner and id are those given, and they are `const`; with `update=False` the attributes start empty, otherwise they are the result of one `update`; the record starts not terminated |
| `EucaInstance.Instance.Update` | instance.py:37-65 | writes key by key and ends with attributes equal to `Refresh` of the old ones; requires the two output lines and three fields it indexes |
| `EucaInstance.Instance.MarkTerminated` | eucalogd.py:73-75 | sets the terminated flag and modifies nothing else |
| `Reconcile.ScanPath` | eucalogd.py:32-34 | the owner (`[-2]`) and the id (`[-1]`) of a scanned path contain no `/` |
| `Reconcile.ScanPathShape` | listener.py:18-20 | the id is the text after the last `/`; the owner is the text between the last two `/` (or from the start of the path) |
| `Reconcile.ScanInstancePath` | eucalogd.py:28-34 | the owner and id split from the path of directory `<owner>/<id>` are that owner and id |
| `Reconcile.Discover` | eucalogd.py:32-41 | one turn of the scan loop never replaces a known record, adds at most the path's own id, and changes nothing for a path under `logs` |
| `Reconcile.Scan` | eucalogd.py:31-41 | the scan loop: a known id, terminated or not, keeps its record unchanged (no re-creation, no attribute reset); its other properties are `ScanKeys`, `ScanNewRecord`, `ScanWellKeyed`, `ScanSkipsReserved` and `ScanIdempotent` |
| `Reconcile.ScanKeys` | eucalogd.py:39-41 | after the scan, the ids are exactly the old ids plus the ids found under owners other than `logs` |
| `Reconcile.ScanNewRecord` | listener.py:25-27 | a new record takes the owner of the first path naming its id outside `logs`; it has no attributes and is not terminated |
| `Reconcile.ScanWellKeyed` | eucalogd.py:41 | the scan stores every record under its own id |
| `Reconcile.ScanSkipsReserved` | eucalogd.py:36-37 | inserting a path whose owner is `logs` anywhere in the glob result does not change the scan's result |
| `Reconcile.ScanIdempotent` | listener.py:25-27 | scanning the same paths a second time changes nothing |
| `Reconcile.RowIds` | listener.py:38-42 | the row loop: an id is collected exactly when some row has it as its second field |
| `Reconcile.RowIdsAfterFirst` | eucalogd.py:47-54 | after the `[1:]` slice, an id is collected exactly when some line other than the first has it as its second field |
| `Reconcile.VirshIds` | eucalogd.py:43-56 | the hypervisor set: an id is in it exactly when some line after the first of the `virsh list` text has it as its second field |
| `Reconcile.MalformedRowSkipped` | eucalogd.py:52-56 | a row with fewer than two fields contributes nothing, and the rows around it still count |
| `Reconcile.VirshInstanceIds` | eucalogd.py:43-56 | the loop returns `VirshIds`: the set of second fields of the lines after the first; lines with fewer than two fields are skipped |
| `Reconcile.ProcessRecord` | eucalogd.py:59-68 | the `if`/`elif` chain on one record: owner and id kept; terminated exactly when it was, its directory is gone or the hypervisor rule fires; a terminated record unchanged; attributes refreshed exactly when `update` is reached, untouched otherwise |
| `Reconcile.ProcessAll` | eucalogd.py:58-68 | the per-record pass adds and removes no record and leaves terminated records as they are |
| `Reconcile.Cycle` | eucalogd.py:26-68 | one cycle drops no record, and every record keeps its owner and id; `CycleKeepsRecords` gives its exact keys |
| `Reconcile.CycleKeepsRecords` | eucalogd.py:24-68 | no record is removed: after a cycle the ids are the old ids plus the discovered ids, and every record keeps its owner and id |
| `Reconcile.CycleWellKeyed` | listener.py:25-54 | a cycle keeps every record stored under its own id |
| `Reconcile.TerminatedRecordFrozen` | eucalogd.py:59-68 | a terminated record comes out of a cycle identical: same attributes, still terminated, not re-created |
| `Reconcile.CycleTerminationRule` | listener.py:44-54 | after a cycle a record is terminated exactly when it already was, or its directory is gone, or it has a run state and is missing from the hypervisor set |
| `Reconcile.MissingDirectoryTerminates` | eucalogd.py:60-62 | a record whose directory is gone is terminated whatever the hypervisor set holds, and its attributes do not change |
| `Reconcile.UnconfirmedNotTerminated` | eucalogd.py:63-68 | a live record with no run state is not terminated for being missing from the hypervisor set; it is updated instead |
| `Reconcile.DueIsUpdated` | eucalogd.py:66-68 | every record that reaches the update branch is refreshed from its probe, whether or not it already holds a run state |
| `Reconcile.AttributesChangeOnlyOnUpdate` | listener.py:52-54 | attributes change only when the directory exists, the hypervisor rule spared the record and it is not terminated; keys are only added, and keys outside the six keep their values |
| `Reconcile.ConfirmedThenVanished` | eucalogd.py:26-71 | an instance first seen on disk is created and updated in that cycle, and so gains a run state; if its id is then missing from the hypervisor set, the next cycle terminates it without changing its attributes |
| `Reconcile.FirstCycleUpdates` | listener.py:17-54 | the first half of that scenario: the cycle that discovers the instance creates and updates it |
| `Reconcile.SecondCycleTerminates` | listener.py:44-51 | the second half: the next cycle terminates the updated record once its id leaves the hypervisor set |
| `Reconcile.DiscoverInstance` | listener.py:17-27 | one turn of the scan loop over live objects keeps the existing ones, creates a fresh one only for a new id, and ends with snapshot `Discover` of the old snapshot |
| `Reconcile.DiscoverInstances` | listener.py:16-27 | the scan loop keeps every existing object, creates fresh objects only for new ids, and ends with snapshot `Scan` of the old snapshot |
| `Reconcile.TerminateInstance` | listener.py:59-61 | the instance becomes terminated and nothing else about it changes |
| `Reconcile.ProcessInstance` | eucalogd.py:61-68 | one turn of the `if`/`elif` chain leaves the instance in the state `ProcessRecord` decides for its old record |
| `Reconcile.ProcessInstances` | listener.py:44-54 | visiting the instances in any order, the pass ends with snapshot `ProcessAll` of the old snapshot, each record decided on its own |
| `Reconcile.CollectIntoListStaysEmpty` | eucalogd.py:44-56 | as written, collecting into `list()` yields an empty list for every listing, because each `.add` raises and the exception is swallowed |
| `Reconcile.CollectIntoSetIsRowIds` | listener.py:30-42 | the same loop collecting into a set yields exactly `RowIds` of the same rows |
| `Reconcile.VirshIdsAsWrittenLosesIds` | eucalogd.py:44-54 | for a listing whose second line has two fields, the code as written collects nothing, while the model's set holds that line's second field |
| `Reconcile.LeadingLineIgnored` | eucalogd.py:47 | the `[1:]` slice never reads the first line: an id only that line names is not in the hypervisor set, and collecting into a set gives exactly `VirshIds` |
| `Reconcile.MisspelledKeyNeverFires` | eucalogd.py:64 | after `update`, a record whose id is missing from the hypervisor set passes the hypervisor rule as written (it reads `libvrt_status`); with `libvirt_status` it is terminated |
| `Eucalogd.RunCycle` | eucalogd.py:26-71 | one pass of `run`'s loop: existing objects are kept, and the table's new snapshot is `Cycle` of the old one |
| `Listener.MainCycle` | listener.py:12-57 | one pass of `main`'s loop, with the same contract as `Eucalogd.RunCycle` |

## Findings

| source | as written | input that shows it | evidently intended | confidence | as-written member | corrected member |
|---|---|---|---|---|---|---|
| eucalogd.py:44-54 (also listener.py:30-40) | `virsh_instance_ids` is a `list`, so each `.add` raises AttributeError and the bare `except` swallows it; the hypervisor set is always empty (`VirshIdsAsWritten`) | `virsh list` text of a leading line, then `1 i-0 running`, then `2 i-1 running`: the code collects nothing, the intended set is `{i-0, i-1}` | collect the ids into a set | not executed | `Reconcile.VirshIdsAsWrittenLosesIds` | `Reconcile.VirshInstanceIds` |
| eucalogd.py:64 (also listener.py:50) | the hypervisor rule looks up `libvrt_status`, a key `update` never writes (instance.py:62), so the rule never fires (`HypervisorGoneAsWritten`) | a record updated from a filtered `virsh list` text whose second line is `1 i-1 running`, with `i-1` then missing from the hypervisor set: it is not terminated | look up `libvirt_status` | not executed | `Reconcile.MisspelledKeyNeverFires` | `Reconcile.CycleTerminationRule` |

The defects hide each other. If only the key were corrected, the hypervisor
set would still be empty, and every record would be terminated in the cycle
after its first update.

## Left out

- Process control is not modelled: `start`/`stop`/`restart`, the PID file, argument dispatch, `usage` and `__main__` (eucalogd.py:10-20,78-96; instance.py:74-87). They are plumbing over the `Daemon` base class, which is not part of this model. `show_details` (instance.py:67-71) only prints, and is left out too.
- The `while True` loop and `time.sleep(1)` are left out. One cycle is a method, and `ConfirmedThenVanished` chains two cycles.
- Messages printed to stderr ("found instance", "instance terminated") are not modelled.
- The model does not run `glob.glob`, `os.path.exists`, `getoutput` (`virsh list`, `virsh dumpxml`, `tail`), `socket.gethostname` or the SIOCGIFADDR `ioctl`. Their results are inputs: `paths`, `existing`, the `virsh list` text and a `Probe` per instance id. `host_name`, `host_ip` and `console_log` are opaque strings.
- `EucaInstance.Instance.Update`: an IndexError from a short `virsh` or `dumpxml` output is a precondition (`ProbeOk`). The model does not capture the keys written before the exception is raised: `host_name` and `host_ip` always; `mac_address` too when the `virsh list` output has fewer than two lines (instance.py:59) or its second line has no fields (instance.py:61); and `mac_address` and `libvirt_id` when that second line has one or two fields (instance.py:62).
- `Reconcile.ProcessInstances`, `Eucalogd.RunCycle` and `Listener.MainCycle` require well-formed `update` outputs for every record the pass updates (`ProbesCover`). In the code, a malformed output raises IndexError out of the loop and ends the daemon. The model does not describe that crash.
- The getters `get_username`, `get_instance_id` and `get_attrs` are modelled as plain accessors (`GetUsername`, `GetInstanceId`, `GetAttrs`). They have no contracts beyond the `const` fields they return.
- `EucaInstance.PathJoin` and `EucaInstance.InstancePath` carry no contract of their own. What the model states about them is `InstancePathLayout`.
- The order in which `itervalues()` visits records is not modelled. The per-record decisions are independent, so `ProcessInstances` picks any remaining record and proves the same result.
