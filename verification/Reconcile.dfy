/**
 One reconciliation cycle of the instance-tracking daemon, as eucalogd.py's
 `run` loop body and listener.py's `main` loop body both write it:

   1. discovery: split every globbed `.../instances/<owner>/<id>` path, skip
      the reserved owner `logs`, and add a record for each unseen id;
   2. `virsh list` parsing: drop the first output line and collect the
      second whitespace field of each remaining row;
   3. the per-record pass: terminate a record whose directory is gone, or
      that holds a run state but is missing from the hypervisor list; update
      any other record that is not terminated.

 The glob result, the `virsh list` text and the set of existing paths are
 inputs. The specification is a function on snapshots (`Cycle`), the
 imperative steps below are proved against it.
 */
module Reconcile {
  import opened Wrappers
  import opened Text
  import opened EucaInstance

  /** The owner segment under which the log store lives; it is not an instance. */
  const ReservedOwner: string := "logs"

  // ===========================================================================
  // Discovery scan
  // ===========================================================================

  /** `path.split('/')[-2]` and `[-1]`: the owner and the instance id of a globbed path. */
  function ScanPath(path: string): (r: (string, string))
    requires '/' in path
    ensures '/' !in r.0 && '/' !in r.1
  {
    SplitOnSegmentsFree(path, '/');
    var parts := SplitOn(path, '/');
    (parts[|parts| - 2], parts[|parts| - 1])
  }

  /**
   The id is the text after the last `/`, and the owner the text between the
   last two (or from the start of the path when there is only one `/`).
   */
  lemma ScanPathShape(path: string)
    requires '/' in path
    ensures var (owner, id) := ScanPath(path);
            var k := |path| - |id| - |owner| - 1;
            0 <= k && path == path[..k] + owner + "/" + id && (k == 0 || path[k - 1] == '/')
  {
    var parts := SplitOn(path, '/');
    var n := |parts|;
    JoinSplitOn(path, '/');
    var owner, id := parts[n - 2], parts[n - 1];
    var init := parts[..n - 1];
    assert init[..n - 2] == parts[..n - 2];
    assert JoinWith(parts, '/') == JoinWith(init, '/') + "/" + id;
    if n == 2 {
      assert JoinWith(init, '/') == owner;
      assert path == owner + "/" + id;
      assert path[..0] + owner + "/" + id == path;
    } else {
      var pre := JoinWith(parts[..n - 2], '/') + "/";
      assert JoinWith(init, '/') == pre[..|pre| - 1] + "/" + owner;
      assert path == pre + owner + "/" + id;
      assert |path| - |id| - |owner| - 1 == |pre|;
      assert path[..|pre|] == pre;
    }
  }

  /** Splitting the path of a directory `<owner>/<id>` gives back that owner and id. */
  lemma ScanInstancePath(owner: string, id: string)
    requires owner != [] && '/' !in owner && '/' !in id
    ensures '/' in InstancePath(owner, id)
    ensures ScanPath(InstancePath(owner, id)) == (owner, id)
  {
    InstancePathLayout(owner, id);
    var base := "/var/lib/eucalyptus/instances";
    assert InstancePath(owner, id) == base + "/" + owner + "/" + id;
    ScanOwnerId(base, owner, id);
  }

  /** The last two segments of `base/owner/id` are `owner` and `id`. */
  lemma ScanOwnerId(base: string, owner: string, id: string)
    requires '/' !in owner && '/' !in id
    ensures '/' in base + "/" + owner + "/" + id
    ensures ScanPath(base + "/" + owner + "/" + id) == (owner, id)
  {
    assert (base + "/" + owner + "/" + id)[|base + "/" + owner|] == '/';
    SplitOnAppend(base + "/" + owner, '/', id);
    SplitOnAppend(base, '/', owner);
  }

  /** The scanned path names `id` under an owner other than `logs`. */
  predicate Claims(path: string, id: string)
    requires '/' in path
  {
    ScanPath(path).0 != ReservedOwner && ScanPath(path).1 == id
  }

  /** Every path the glob returns lies under a directory. */
  predicate PathsOk(paths: seq<string>) {
    forall i :: 0 <= i < |paths| ==> '/' in paths[i]
  }

  /**
   One iteration of the scan loop: a known record is never replaced, at most
   the path's own id is added, and a path under `logs` changes nothing.
   */
  function Discover(recs: map<string, Record>, path: string): (next: map<string, Record>)
    requires '/' in path
    ensures forall k :: k in recs ==> k in next && next[k] == recs[k]
    ensures next.Keys <= recs.Keys + {ScanPath(path).1}
    ensures ScanPath(path).0 == ReservedOwner ==> next == recs
  {
    var (owner, id) := ScanPath(path);
    if owner == ReservedOwner || id in recs then recs
    else recs[id := Record(owner, id, map[], false)]
  }

  /**
   The scan loop over the globbed paths, in glob order. A known record,
   terminated or not, comes out of the scan unchanged: it is neither
   re-created nor reset.
   */
  function Scan(recs: map<string, Record>, paths: seq<string>): (next: map<string, Record>)
    requires PathsOk(paths)
    ensures forall k :: k in recs ==> k in next && next[k] == recs[k]
    decreases |paths|
  {
    if paths == [] then recs
    else Discover(Scan(recs, paths[..|paths| - 1]), paths[|paths| - 1])
  }

  /** The ids the scan finds under owners other than `logs`. */
  function DiscoveredIds(paths: seq<string>): set<string>
    requires PathsOk(paths)
  {
    set i | 0 <= i < |paths| && ScanPath(paths[i]).0 != ReservedOwner :: ScanPath(paths[i]).1
  }

  /** Every record is stored under its own id. */
  predicate WellKeyed(recs: map<string, Record>) {
    forall k :: k in recs ==> recs[k].id == k
  }

  /** After the scan the known ids are the old ones plus the ids found outside `logs`. */
  lemma {:induction false} ScanKeys(recs: map<string, Record>, paths: seq<string>)
    requires PathsOk(paths)
    ensures Scan(recs, paths).Keys == recs.Keys + DiscoveredIds(paths)
    decreases |paths|
  {
    if paths != [] {
      var init := paths[..|paths| - 1];
      ScanKeys(recs, init);
      assert DiscoveredIds(paths) == DiscoveredIds(init) +
        (if ScanPath(paths[|paths| - 1]).0 != ReservedOwner then {ScanPath(paths[|paths| - 1]).1} else {}) by {
        forall x | x in DiscoveredIds(paths)
          ensures x in DiscoveredIds(init) ||
                  (ScanPath(paths[|paths| - 1]).0 != ReservedOwner && x == ScanPath(paths[|paths| - 1]).1)
        {
          var i :| 0 <= i < |paths| && ScanPath(paths[i]).0 != ReservedOwner && ScanPath(paths[i]).1 == x;
          if i < |init| {
            assert init[i] == paths[i];
          }
        }
        forall x | x in DiscoveredIds(init) ensures x in DiscoveredIds(paths) {
          var i :| 0 <= i < |init| && ScanPath(init[i]).0 != ReservedOwner && ScanPath(init[i]).1 == x;
          assert paths[i] == init[i];
        }
      }
    }
  }

  /** The path `paths[j]` is the first to claim `id`. */
  predicate FirstClaim(paths: seq<string>, j: int, id: string)
    requires PathsOk(paths)
  {
    0 <= j < |paths| && Claims(paths[j], id) &&
    forall i :: 0 <= i < j ==> !Claims(paths[i], id)
  }

  /**
   A new record belongs to the first path that names its id outside `logs`:
   it takes that path's owner, and starts with no attributes, not terminated.
   */
  lemma {:induction false} ScanNewRecord(recs: map<string, Record>, paths: seq<string>, k: string)
    requires PathsOk(paths) && k in Scan(recs, paths) && k !in recs
    ensures exists j :: FirstClaim(paths, j, k) &&
                        Scan(recs, paths)[k] == Record(ScanPath(paths[j]).0, k, map[], false)
    decreases |paths|
  {
    var n := |paths|;
    var init := paths[..n - 1];
    forall i | 0 <= i < |init| ensures init[i] == paths[i] { }
    if k in Scan(recs, init) {
      ScanNewRecord(recs, init, k);
      var j :| FirstClaim(init, j, k) && Scan(recs, init)[k] == Record(ScanPath(init[j]).0, k, map[], false);
      assert FirstClaim(paths, j, k);
    } else {
      ScanKeys(recs, init);
      forall i | 0 <= i < n - 1 ensures !Claims(paths[i], k) {
        assert init[i] == paths[i];
      }
      assert FirstClaim(paths, n - 1, k);
    }
  }

  lemma {:induction false} ScanWellKeyed(recs: map<string, Record>, paths: seq<string>)
    requires PathsOk(paths) && WellKeyed(recs)
    ensures WellKeyed(Scan(recs, paths))
    decreases |paths|
  {
    if paths != [] {
      ScanWellKeyed(recs, paths[..|paths| - 1]);
    }
  }

  lemma PathsOkAppend(a: seq<string>, b: seq<string>)
    requires PathsOk(a) && PathsOk(b)
    ensures PathsOk(a + b)
  {
    forall i | 0 <= i < |a + b| ensures '/' in (a + b)[i] {
      if i < |a| {
        assert (a + b)[i] == a[i];
      } else {
        assert (a + b)[i] == b[i - |a|];
      }
    }
  }

  /** The scan over `s + [x]` is the scan over `s` followed by one more iteration. */
  lemma ScanSnoc(recs: map<string, Record>, s: seq<string>, x: string)
    requires PathsOk(s) && '/' in x
    ensures PathsOk(s + [x])
    ensures Scan(recs, s + [x]) == Discover(Scan(recs, s), x)
  {
    PathsOkAppend(s, [x]);
    assert (s + [x])[..|s|] == s;
  }

  /** A path under the reserved owner `logs` never creates or alters a record. */
  lemma {:induction false} ScanSkipsReserved(recs: map<string, Record>, a: seq<string>, p: string, b: seq<string>)
    requires PathsOk(a) && PathsOk(b) && '/' in p && ScanPath(p).0 == ReservedOwner
    ensures PathsOk(a + [p] + b) && PathsOk(a + b)
    ensures Scan(recs, a + [p] + b) == Scan(recs, a + b)
    decreases |b|
  {
    ScanSnoc(recs, a, p);
    PathsOkAppend(a + [p], b);
    PathsOkAppend(a, b);
    if b == [] {
      assert a + [p] + b == a + [p];
      assert a + b == a;
    } else {
      var b' := b[..|b| - 1];
      var x := b[|b| - 1];
      assert b == b' + [x];
      assert PathsOk(b') && '/' in x;
      ScanSkipsReserved(recs, a, p, b');
      PathsOkAppend(a + [p], b');
      PathsOkAppend(a, b');
      assert a + [p] + b == (a + [p] + b') + [x];
      assert a + b == (a + b') + [x];
      ScanSnoc(recs, a + [p] + b', x);
      ScanSnoc(recs, a + b', x);
    }
  }

  /** Scanning paths whose ids are all known changes nothing. */
  lemma {:induction false} ScanOfKnown(recs: map<string, Record>, paths: seq<string>)
    requires PathsOk(paths)
    requires DiscoveredIds(paths) <= recs.Keys
    ensures Scan(recs, paths) == recs
    decreases |paths|
  {
    if paths != [] {
      var init := paths[..|paths| - 1];
      assert DiscoveredIds(init) <= DiscoveredIds(paths) by {
        forall x | x in DiscoveredIds(init) ensures x in DiscoveredIds(paths) {
          var i :| 0 <= i < |init| && ScanPath(init[i]).0 != ReservedOwner && ScanPath(init[i]).1 == x;
          assert paths[i] == init[i];
        }
      }
      ScanOfKnown(recs, init);
      assert ScanPath(paths[|paths| - 1]).0 != ReservedOwner ==> ScanPath(paths[|paths| - 1]).1 in DiscoveredIds(paths);
    }
  }

  /** Discovery is idempotent: scanning the same paths again is a no-op. */
  lemma ScanIdempotent(recs: map<string, Record>, paths: seq<string>)
    requires PathsOk(paths)
    ensures Scan(Scan(recs, paths), paths) == Scan(recs, paths)
  {
    ScanKeys(recs, paths);
    ScanOfKnown(Scan(recs, paths), paths);
  }

  // ===========================================================================
  // `virsh list` parsing
  // ===========================================================================

  /** `lines[1:]`: Python slicing never fails, an empty list stays empty. */
  function DropFirst(lines: seq<string>): seq<string> {
    if lines == [] then [] else lines[1..]
  }

  /** The ids the rows contribute: an id is collected exactly when some row has it as its field 1. */
  function RowIds(rows: seq<string>): (ids: set<string>)
    ensures forall x :: x in ids <==> exists i :: 0 <= i < |rows| && |Fields(rows[i])| >= 2 && Fields(rows[i])[1] == x
    decreases |rows|
  {
    if rows == [] then {}
    else
      var init := rows[..|rows| - 1];
      var last := Fields(rows[|rows| - 1]);
      assert forall i :: 0 <= i < |init| ==> init[i] == rows[i];
      RowIds(init) + (if |last| >= 2 then {last[1]} else {})
  }

  /** Dropping the first line shifts every row index by one. */
  lemma RowIdsAfterFirst(lines: seq<string>)
    ensures forall x :: x in RowIds(DropFirst(lines)) <==>
      exists i :: 1 <= i < |lines| && |Fields(lines[i])| >= 2 && Fields(lines[i])[1] == x
  {
    var rows := DropFirst(lines);
    forall x ensures x in RowIds(rows) <==>
      exists i :: 1 <= i < |lines| && |Fields(lines[i])| >= 2 && Fields(lines[i])[1] == x
    {
      if x in RowIds(rows) {
        var j :| 0 <= j < |rows| && |Fields(rows[j])| >= 2 && Fields(rows[j])[1] == x;
        assert lines[j + 1] == rows[j];
      }
      if exists i :: 1 <= i < |lines| && |Fields(lines[i])| >= 2 && Fields(lines[i])[1] == x {
        var j :| 1 <= j < |lines| && |Fields(lines[j])| >= 2 && Fields(lines[j])[1] == x;
        assert rows[j - 1] == lines[j];
      }
    }
  }

  /**
   The hypervisor's instance-id set: field 1 of every line of the `virsh list`
   text after the first, as the `[1:]` slice reads it.
   */
  function VirshIds(output: string): (ids: set<string>)
    ensures forall x :: x in ids <==>
      exists i :: 1 <= i < |Lines(output)| && |Fields(Lines(output)[i])| >= 2 && Fields(Lines(output)[i])[1] == x
  {
    RowIdsAfterFirst(Lines(output));
    RowIds(DropFirst(Lines(output)))
  }

  /** A row with fewer than two fields is skipped and the rows around it still count. */
  lemma {:induction false} MalformedRowSkipped(a: seq<string>, row: string, b: seq<string>)
    requires |Fields(row)| < 2
    ensures RowIds(a + [row] + b) == RowIds(a + b)
    decreases |b|
  {
    if b == [] {
      assert a + [row] + b == a + [row];
      assert (a + [row])[..|a|] == a;
      assert a + b == a;
    } else {
      var init := b[..|b| - 1];
      MalformedRowSkipped(a, row, init);
      assert (a + [row] + b)[..|a + [row] + b| - 1] == a + [row] + init;
      assert (a + b)[..|a + b| - 1] == a + init;
    }
  }

  /**
   Builds the hypervisor's id set from the `virsh list` text: the first line
   is dropped, and a row whose `split()` has no field 1 is skipped (the
   IndexError is caught and the loop continues).
   */
  method VirshInstanceIds(output: string) returns (ids: set<string>)
    ensures ids == VirshIds(output)
    ensures forall x :: x in ids <==>
      exists i :: 1 <= i < |Lines(output)| && |Fields(Lines(output)[i])| >= 2 && Fields(Lines(output)[i])[1] == x
  {
    var virsh := DropFirst(Lines(output));
    ids := {};
    var i := 0;
    while i < |virsh|
      invariant 0 <= i <= |virsh|
      invariant ids == RowIds(virsh[..i])
    {
      var data := Fields(virsh[i]);
      if |data| >= 2 {
        ids := ids + {data[1]};
      }
      assert virsh[..i + 1][..i] == virsh[..i];
      i := i + 1;
    }
    assert virsh[..i] == virsh;
  }

  // ===========================================================================
  // Per-record decision
  // ===========================================================================

  /** `os.path.exists(instance.get_instance_path())` is false. */
  predicate DirectoryGone(r: Record, existing: set<string>) {
    InstancePath(r.owner, r.id) !in existing
  }

  /** The record holds a run state but its id is not in this cycle's hypervisor set. */
  predicate HypervisorGone(r: Record, running: set<string>) {
    r.id !in running && HasRunState(r.attrs)
  }

  /** The pass reaches `update` for this record. */
  predicate UpdateDue(r: Record, running: set<string>, existing: set<string>) {
    !DirectoryGone(r, existing) && !HypervisorGone(r, running) && !r.terminated
  }

  /** `update` will not raise for any record the pass updates. */
  predicate ProbesCover(recs: map<string, Record>, running: set<string>, existing: set<string>, probes: map<string, Probe>) {
    forall k :: k in recs && UpdateDue(recs[k], running, existing) ==>
      recs[k].id in probes && ProbeOk(probes[recs[k].id])
  }

  /**
   The three-way decision for one record, in the order the `if`/`elif` chain
   tests it. Owner and id never change; the record ends terminated exactly when
   it was, or its directory is gone, or the hypervisor rule fires; a terminated
   record is left as it is; the attributes are refreshed exactly when the
   update branch is reached, and are otherwise untouched.
   */
  function ProcessRecord(r: Record, running: set<string>, existing: set<string>, probes: map<string, Probe>): (next: Record)
    requires UpdateDue(r, running, existing) ==> r.id in probes && ProbeOk(probes[r.id])
    ensures next.owner == r.owner && next.id == r.id
    ensures next.terminated <==> r.terminated || DirectoryGone(r, existing) || HypervisorGone(r, running)
    ensures r.terminated ==> next == r
    ensures UpdateDue(r, running, existing) ==> next.attrs == Refresh(r.attrs, probes[r.id])
    ensures !UpdateDue(r, running, existing) ==> next.attrs == r.attrs
  {
    if DirectoryGone(r, existing) then r.(terminated := true)
    else if HypervisorGone(r, running) then r.(terminated := true)
    else if !r.terminated then r.(attrs := Refresh(r.attrs, probes[r.id]))
    else r
  }

  /**
   The per-record pass: each record is decided on its own, against one
   hypervisor set. No record is added or removed, and terminated records are
   left as they are.
   */
  function ProcessAll(recs: map<string, Record>, running: set<string>, existing: set<string>, probes: map<string, Probe>): (next: map<string, Record>)
    requires ProbesCover(recs, running, existing, probes)
    ensures next.Keys == recs.Keys
    ensures forall k :: k in recs && recs[k].terminated ==> next[k] == recs[k]
  {
    map k | k in recs :: ProcessRecord(recs[k], running, existing, probes)
  }

  /** The inputs of a cycle that runs to its end without an exception. */
  predicate CycleDefined(recs: map<string, Record>, paths: seq<string>, output: string, existing: set<string>, probes: map<string, Probe>) {
    PathsOk(paths) && ProbesCover(Scan(recs, paths), VirshIds(output), existing, probes)
  }

  /**
   One whole cycle: scan, parse, then decide every record. No record is
   dropped, and every record keeps its owner and id.
   */
  function Cycle(recs: map<string, Record>, paths: seq<string>, output: string, existing: set<string>, probes: map<string, Probe>): (next: map<string, Record>)
    requires CycleDefined(recs, paths, output, existing, probes)
    ensures forall k :: k in recs ==> k in next && next[k].owner == recs[k].owner && next[k].id == recs[k].id
  {
    ProcessAll(Scan(recs, paths), VirshIds(output), existing, probes)
  }

  // ---- properties of one cycle

  /**
   No record is ever removed: after a cycle the ids are the old ones plus the
   newly found ones, and owner and id of every record are unchanged.
   */
  lemma CycleKeepsRecords(recs: map<string, Record>, paths: seq<string>, output: string, existing: set<string>, probes: map<string, Probe>)
    requires CycleDefined(recs, paths, output, existing, probes)
    ensures Cycle(recs, paths, output, existing, probes).Keys == recs.Keys + DiscoveredIds(paths)
    ensures forall k :: k in recs ==>
      Cycle(recs, paths, output, existing, probes)[k].owner == recs[k].owner &&
      Cycle(recs, paths, output, existing, probes)[k].id == recs[k].id
  {
    ScanKeys(recs, paths);
  }

  /** Every record stays stored under its own id. */
  lemma CycleWellKeyed(recs: map<string, Record>, paths: seq<string>, output: string, existing: set<string>, probes: map<string, Probe>)
    requires CycleDefined(recs, paths, output, existing, probes) && WellKeyed(recs)
    ensures WellKeyed(Cycle(recs, paths, output, existing, probes))
  {
    ScanWellKeyed(recs, paths);
  }

  /**
   A terminated record is frozen: neither its attributes nor its flag change
   again, whatever the scan, the hypervisor or the disk say; a terminated id
   found again on disk is not re-created.
   */
  lemma TerminatedRecordFrozen(recs: map<string, Record>, paths: seq<string>, output: string, existing: set<string>, probes: map<string, Probe>, k: string)
    requires CycleDefined(recs, paths, output, existing, probes)
    requires k in recs && recs[k].terminated
    ensures k in Cycle(recs, paths, output, existing, probes)
    ensures Cycle(recs, paths, output, existing, probes)[k] == recs[k]
  {
  }

  /**
   Termination status after a cycle: a record is terminated exactly when it
   already was, its directory is gone, or it holds a run state and is missing
   from the hypervisor set.
   */
  lemma CycleTerminationRule(recs: map<string, Record>, paths: seq<string>, output: string, existing: set<string>, probes: map<string, Probe>, k: string)
    requires CycleDefined(recs, paths, output, existing, probes)
    requires k in Scan(recs, paths)
    ensures var r := Scan(recs, paths)[k];
            Cycle(recs, paths, output, existing, probes)[k].terminated <==>
              r.terminated || DirectoryGone(r, existing) || HypervisorGone(r, VirshIds(output))
  {
  }

  /**
   A record whose directory is gone is terminated, whatever the hypervisor set
   holds, and its attributes are left as they were.
   */
  lemma MissingDirectoryTerminates(recs: map<string, Record>, paths: seq<string>, output: string, existing: set<string>, probes: map<string, Probe>, k: string)
    requires CycleDefined(recs, paths, output, existing, probes)
    requires k in Scan(recs, paths) && DirectoryGone(Scan(recs, paths)[k], existing)
    ensures Cycle(recs, paths, output, existing, probes)[k] == Scan(recs, paths)[k].(terminated := true)
  {
  }

  /**
   A live record that never had a run state is not terminated just because
   it is missing from the hypervisor set: it is updated instead.
   */
  lemma UnconfirmedNotTerminated(recs: map<string, Record>, paths: seq<string>, output: string, existing: set<string>, probes: map<string, Probe>, k: string)
    requires CycleDefined(recs, paths, output, existing, probes)
    requires k in Scan(recs, paths)
    requires var r := Scan(recs, paths)[k]; !r.terminated && !DirectoryGone(r, existing) && !HasRunState(r.attrs)
    ensures var r := Scan(recs, paths)[k];
            !Cycle(recs, paths, output, existing, probes)[k].terminated &&
            Cycle(recs, paths, output, existing, probes)[k].attrs == Refresh(r.attrs, probes[r.id])
  {
  }

  /**
   Every record the pass reaches `update` for is refreshed: a live record whose
   directory exists and that the hypervisor rule spares gets the six
   attributes from its probe.
   */
  lemma DueIsUpdated(recs: map<string, Record>, paths: seq<string>, output: string, existing: set<string>, probes: map<string, Probe>, k: string)
    requires CycleDefined(recs, paths, output, existing, probes)
    requires k in Scan(recs, paths) && UpdateDue(Scan(recs, paths)[k], VirshIds(output), existing)
    ensures var r := Scan(recs, paths)[k];
            Cycle(recs, paths, output, existing, probes)[k] == r.(attrs := Refresh(r.attrs, probes[r.id]))
  {
  }

  /**
   Attributes change only through `update`, which runs only on a record whose
   directory exists, that the hypervisor rule spared and that is not
   terminated; the update only adds or overwrites keys.
   */
  lemma AttributesChangeOnlyOnUpdate(recs: map<string, Record>, paths: seq<string>, output: string, existing: set<string>, probes: map<string, Probe>, k: string)
    requires CycleDefined(recs, paths, output, existing, probes)
    requires k in Scan(recs, paths)
    ensures var r := Scan(recs, paths)[k];
            var r' := Cycle(recs, paths, output, existing, probes)[k];
            (r'.attrs != r.attrs ==> UpdateDue(r, VirshIds(output), existing)) &&
            r.attrs.Keys <= r'.attrs.Keys &&
            forall key :: key in r.attrs && key !in UpdateKeys ==> r'.attrs[key] == r.attrs[key]
  {
  }

  /**
   The lifecycle of an instance over two cycles: first seen on disk it is
   created and updated in the same cycle (it has no run state yet, so the
   hypervisor rule cannot fire); the update records a run state; if its id is
   then missing from the hypervisor set while its directory stays, the next
   cycle terminates it and leaves its attributes as they were.
   */
  lemma ConfirmedThenVanished(owner: string, id: string, probe: Probe, existing: set<string>, output1: string, output2: string)
    requires owner != [] && owner != ReservedOwner && '/' !in owner && '/' !in id
    requires InstancePath(owner, id) in existing
    requires ProbeOk(probe)
    requires id !in VirshIds(output2)
    ensures var paths, probes := [InstancePath(owner, id)], map[id := probe];
            CycleDefined(map[], paths, output1, existing, probes) &&
            var c1 := Cycle(map[], paths, output1, existing, probes);
            id in c1 && c1[id] == Record(owner, id, Refresh(map[], probe), false) &&
            CycleDefined(c1, paths, output2, existing, probes) &&
            var c2 := Cycle(c1, paths, output2, existing, probes);
            id in c2 && c2[id].terminated && c2[id].attrs == c1[id].attrs
  {
    FirstCycleUpdates(owner, id, probe, existing, output1);
    SecondCycleTerminates(owner, id, probe, existing, output2);
  }

  /** The first cycle creates the record and updates it at once. */
  lemma FirstCycleUpdates(owner: string, id: string, probe: Probe, existing: set<string>, output: string)
    requires owner != [] && owner != ReservedOwner && '/' !in owner && '/' !in id
    requires InstancePath(owner, id) in existing
    requires ProbeOk(probe)
    ensures var paths, probes := [InstancePath(owner, id)], map[id := probe];
            CycleDefined(map[], paths, output, existing, probes) &&
            Cycle(map[], paths, output, existing, probes) == map[id := Record(owner, id, Refresh(map[], probe), false)]
  {
    var paths, probes := [InstancePath(owner, id)], map[id := probe];
    ScanInstancePath(owner, id);
    assert paths[..0] == [];
    assert Scan(map[], paths) == Discover(map[], paths[0]);
    var s1 := Scan(map[], paths);
    assert s1 == map[id := Record(owner, id, map[], false)];
    NewRecordUpdated(owner, id, probe, existing, VirshIds(output));
  }

  /** A record without attributes is updated whatever the hypervisor set holds. */
  lemma NewRecordUpdated(owner: string, id: string, probe: Probe, existing: set<string>, running: set<string>)
    requires InstancePath(owner, id) in existing
    requires ProbeOk(probe)
    ensures var recs, probes := map[id := Record(owner, id, map[], false)], map[id := probe];
            ProbesCover(recs, running, existing, probes) &&
            ProcessAll(recs, running, existing, probes) == map[id := Record(owner, id, Refresh(map[], probe), false)]
  {
    var r := Record(owner, id, map[], false);
    assert !HypervisorGone(r, running);
    assert UpdateDue(r, running, existing);
  }

  /** Once updated, a record whose id leaves the hypervisor set is terminated by the next cycle. */
  lemma SecondCycleTerminates(owner: string, id: string, probe: Probe, existing: set<string>, output: string)
    requires owner != [] && owner != ReservedOwner && '/' !in owner && '/' !in id
    requires InstancePath(owner, id) in existing
    requires ProbeOk(probe)
    requires id !in VirshIds(output)
    ensures var paths, probes := [InstancePath(owner, id)], map[id := probe];
            var c1 := map[id := Record(owner, id, Refresh(map[], probe), false)];
            CycleDefined(c1, paths, output, existing, probes) &&
            Cycle(c1, paths, output, existing, probes) == map[id := c1[id].(terminated := true)]
  {
    var paths, probes := [InstancePath(owner, id)], map[id := probe];
    var c1 := map[id := Record(owner, id, Refresh(map[], probe), false)];
    ScanInstancePath(owner, id);
    RefreshConfirmsRunState(map[], probe);
    ScanSnoc(c1, [], paths[0]);
    assert [] + [paths[0]] == paths;
    var s2 := Scan(c1, paths);
    assert s2 == Discover(c1, paths[0]);
    assert s2 == c1;
    assert HypervisorGone(s2[id], VirshIds(output));
    assert CycleDefined(c1, paths, output, existing, probes);
  }

  // ===========================================================================
  // The steps as the loop body runs them, over live Instance objects
  // ===========================================================================

  /** No two ids share an `Instance` object. */
  predicate Distinct(instances: map<string, Instance>) {
    forall i, j :: i in instances && j in instances && i != j ==> instances[i] != instances[j]
  }

  /** The state of every tracked instance. */
  function Snapshot(instances: map<string, Instance>): map<string, Record>
    reads instances.Values
  {
    map k | k in instances :: instances[k].View()
  }

  /** Adding an object to the table adds its state to the snapshot. */
  lemma SnapshotInsert(instances: map<string, Instance>, k: string, instance: Instance)
    ensures Snapshot(instances[k := instance]) == Snapshot(instances)[k := instance.View()]
  {
  }

  /**
   One turn of the scan loop: split the path, skip owner `logs`, and create an
   `Instance(username, instance_id, update=False)` only for an unseen id.
   */
  method DiscoverInstance(instances: map<string, Instance>, path: string) returns (found: map<string, Instance>)
    requires '/' in path && Distinct(instances)
    ensures Distinct(found)
    ensures forall k :: k in instances ==> k in found && found[k] == instances[k]
    ensures forall k :: k in found && k !in instances ==> fresh(found[k])
    ensures Snapshot(found) == Discover(Snapshot(instances), path)
  {
    found := instances;
    var pathParts := SplitOn(path, '/');
    var username := pathParts[|pathParts| - 2];
    var instanceId := pathParts[|pathParts| - 1];
    assert (username, instanceId) == ScanPath(path);
    if username == ReservedOwner {
      return;
    }
    if instanceId !in found {
      var instance := new Instance(username, instanceId, None);
      SnapshotInsert(found, instanceId, instance);
      found := found[instanceId := instance];
    }
  }

  /**
   The scan loop over the globbed paths, in glob order. Existing objects are
   kept as they are.
   */
  method DiscoverInstances(instances: map<string, Instance>, paths: seq<string>) returns (found: map<string, Instance>)
    requires PathsOk(paths) && Distinct(instances)
    ensures Distinct(found)
    ensures forall k :: k in instances ==> k in found && found[k] == instances[k]
    ensures forall k :: k in found && k !in instances ==> fresh(found[k])
    ensures Snapshot(found) == Scan(Snapshot(instances), paths)
  {
    ghost var start := Snapshot(instances);
    found := instances;
    for i := 0 to |paths|
      invariant Distinct(found)
      invariant forall k :: k in instances ==> k in found && found[k] == instances[k]
      invariant forall k :: k in found && k !in instances ==> fresh(found[k])
      invariant PathsOk(paths[..i])
      invariant Snapshot(found) == Scan(start, paths[..i])
    {
      assert paths[..i + 1] == paths[..i] + [paths[i]];
      ScanSnoc(start, paths[..i], paths[i]);
      found := DiscoverInstance(found, paths[i]);
    }
    assert paths[..|paths|] == paths;
  }

  /** `terminate_instance`: marks the record terminated and changes nothing else. */
  method TerminateInstance(instance: Instance)
    modifies instance`terminated
    ensures instance.View() == old(instance.View()).(terminated := true)
  {
    instance.MarkTerminated();
  }

  /** One turn of the per-record pass: the `if`/`elif` chain on one instance. */
  method ProcessInstance(instance: Instance, running: set<string>, existing: set<string>, probes: map<string, Probe>)
    requires UpdateDue(instance.View(), running, existing) ==>
               instance.instanceId in probes && ProbeOk(probes[instance.instanceId])
    modifies instance
    ensures instance.View() == ProcessRecord(old(instance.View()), running, existing, probes)
  {
    if instance.GetInstancePath() !in existing {
      TerminateInstance(instance);
    } else if instance.GetInstanceId() !in running && Truthy(instance.GetAttr(LibvirtStatus)) {
      TerminateInstance(instance);
    } else if !instance.terminated {
      instance.Update(probes[instance.GetInstanceId()]);
    }
  }

  /**
   The per-record pass: every tracked instance is visited once and decided
   on its own record and the one hypervisor set of this cycle.
   */
  method ProcessInstances(instances: map<string, Instance>, running: set<string>, existing: set<string>, probes: map<string, Probe>)
    requires Distinct(instances)
    requires ProbesCover(Snapshot(instances), running, existing, probes)
    modifies instances.Values
    ensures Snapshot(instances) == ProcessAll(old(Snapshot(instances)), running, existing, probes)
  {
    ghost var before := Snapshot(instances);
    var todo := instances.Keys;
    while todo != {}
      invariant todo <= instances.Keys
      invariant forall k :: k in instances ==>
        instances[k].View() == if k in todo then before[k] else ProcessRecord(before[k], running, existing, probes)
      decreases todo
    {
      var k :| k in todo;
      var instance := instances[k];
      assert instance.View() == before[k];
      ProcessInstance(instance, running, existing, probes);
      todo := todo - {k};
    }
  }

  // ===========================================================================
  // The code as written, where it differs from the model above
  // ===========================================================================

  /** A Python container the ids could be collected into. */
  datatype IdCollection = PyList(items: seq<string>) | PySet(members: set<string>)

  /**
   `collection.add(x)`: a set gains `x`; a list has no `add`, so the call
   raises AttributeError (None).
   */
  function Add(c: IdCollection, x: string): Option<IdCollection> {
    match c
    case PySet(m) => Some(PySet(m + {x}))
    case PyList(_) => None
  }

  /**
   The `for data in virsh` loop with its bare `except: continue`: a row with
   no field 1 and an `add` that raises are both skipped.
   */
  function Collect(c: IdCollection, rows: seq<string>): IdCollection
    decreases |rows|
  {
    if rows == [] then c
    else
      var before := Collect(c, rows[..|rows| - 1]);
      var data := Fields(rows[|rows| - 1]);
      if |data| < 2 then before
      else match Add(before, data[1])
        case None => before
        case Some(after) => after
  }

  /** As written: `virsh_instance_ids = list()`. */
  function VirshIdsAsWritten(output: string): IdCollection {
    Collect(PyList([]), DropFirst(Lines(output)))
  }

  /** As written, the hypervisor id collection stays empty whatever `virsh list` prints. */
  lemma {:induction false} CollectIntoListStaysEmpty(rows: seq<string>)
    ensures Collect(PyList([]), rows) == PyList([])
    decreases |rows|
  {
    if rows != [] {
      CollectIntoListStaysEmpty(rows[..|rows| - 1]);
    }
  }

  /** Collected into a set, the loop yields exactly the ids `RowIds` gives for the same rows. */
  lemma {:induction false} CollectIntoSetIsRowIds(rows: seq<string>)
    ensures Collect(PySet({}), rows) == PySet(RowIds(rows))
    decreases |rows|
  {
    if rows != [] {
      CollectIntoSetIsRowIds(rows[..|rows| - 1]);
    }
  }

  /**
   Any listing with a second line of two or more fields (such as a leading
   line, then `1 i-0 running`): the model's set holds that line's second
   field, the code as written collects nothing.
   */
  lemma VirshIdsAsWrittenLosesIds(output: string)
    requires |Lines(output)| >= 2 && |Fields(Lines(output)[1])| >= 2
    ensures VirshIdsAsWritten(output) == PyList([])
    ensures Fields(Lines(output)[1])[1] in VirshIds(output)
  {
    CollectIntoListStaysEmpty(DropFirst(Lines(output)));
  }

  /**
   The `[1:]` slice never reads the first line: an id that only the first
   line names is not in the hypervisor set. Whether that line is an
   instance row depends on what `getoutput` returns ahead of the
   `grep "i-"` rows.
   */
  lemma LeadingLineIgnored(output: string)
    requires |Lines(output)| >= 1 && |Fields(Lines(output)[0])| >= 2
    requires forall i :: 1 <= i < |Lines(output)| ==>
               |Fields(Lines(output)[i])| < 2 || Fields(Lines(output)[i])[1] != Fields(Lines(output)[0])[1]
    ensures Fields(Lines(output)[0])[1] !in VirshIds(output)
    ensures Collect(PySet({}), DropFirst(Lines(output))) == PySet(VirshIds(output))
  {
    CollectIntoSetIsRowIds(DropFirst(Lines(output)));
  }

  /** The key the termination test reads in the code as written. */
  const MisspelledStatusKey: string := "libvrt_status"

  /** The hypervisor rule as written: it looks up `libvrt_status`. */
  predicate HypervisorGoneAsWritten(r: Record, running: set<string>) {
    r.id !in running && Truthy(Lookup(r.attrs, MisspelledStatusKey))
  }

  /**
   `update` never writes `libvrt_status`, so as written a record the
   hypervisor confirmed and then lost is never terminated by the hypervisor
   rule, while the model terminates it.
   */
  lemma MisspelledKeyNeverFires(r: Record, p: Probe, running: set<string>)
    requires ProbeOk(p) && MisspelledStatusKey !in r.attrs && r.id !in running
    ensures !HypervisorGoneAsWritten(r.(attrs := Refresh(r.attrs, p)), running)
    ensures HypervisorGone(r.(attrs := Refresh(r.attrs, p)), running)
  {
    RefreshConfirmsRunState(r.attrs, p);
    assert MisspelledStatusKey !in UpdateKeys;
  }
}
