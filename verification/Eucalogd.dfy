/**
 eucalogd.py: the body of `EucaLogDaemon.run`'s `while True` loop, one
 reconciliation cycle over the daemon's table of instances.
 */
module Eucalogd {
  import opened EucaInstance
  import opened Reconcile

  /**
   One pass of the loop: discovery, `virsh list` parsing, then the
   per-record pass. The table is returned (the dictionary only grows) and
   the instances in it are updated in place. `paths` is what `glob.glob`
   returns, `virshOutput` what `virsh list | grep "i-"` prints, `existing`
   the paths `os.path.exists` accepts, and `probes` the answers `update`
   gets for each instance id.
   */
  method RunCycle(instances: map<string, Instance>, paths: seq<string>, virshOutput: string,
                  existing: set<string>, probes: map<string, Probe>) returns (next: map<string, Instance>)
    requires Distinct(instances)
    requires CycleDefined(Snapshot(instances), paths, virshOutput, existing, probes)
    modifies instances.Values
    ensures Distinct(next)
    ensures forall k :: k in instances ==> k in next && next[k] == instances[k]
    ensures Snapshot(next) == Cycle(old(Snapshot(instances)), paths, virshOutput, existing, probes)
  {
    next := DiscoverInstances(instances, paths);
    var virshInstanceIds := VirshInstanceIds(virshOutput);
    ProcessInstances(next, virshInstanceIds, existing, probes);
  }
}
