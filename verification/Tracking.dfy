/**
The process scan: which processes inherit a match. The scan computes a least
fixpoint over parent links, whatever their order and even when they form cycles.
*/
module Tracking {
  import opened Sets
  import opened SplitModel

  datatype ProcessInfo = ProcessInfo(uid: u16, pid: u32, ppid: u32, identities: seq<string>)

  datatype TrackedProcess = TrackedProcess(uid: u16, matched: bool, excluded: bool)

  ghost predicate DistinctPids(scan: set<ProcessInfo>) {
    forall p, q :: p in scan && q in scan && p.pid == q.pid ==> p == q
  }

  ghost function Scan(processes: seq<ProcessInfo>): set<ProcessInfo> {
    set p | p in processes
  }

  predicate OwnMatch(configs: ConfigMap, p: ProcessInfo) {
    p.uid in configs && configs[p.uid].Matches(p.identities)
  }

  /** A chain of configured processes, each the child of the next, that ends in a match. */
  ghost predicate Chain(configs: ConfigMap, scan: set<ProcessInfo>, path: seq<ProcessInfo>) {
    && path != []
    && (forall k :: 0 <= k < |path| ==> path[k] in scan && path[k].uid in configs)
    && (forall k :: 0 < k < |path| ==> path[k - 1].ppid == path[k].pid)
    && OwnMatch(configs, path[|path| - 1])
  }

  ghost predicate Inherits(configs: ConfigMap, scan: set<ProcessInfo>, p: ProcessInfo) {
    exists path :: Chain(configs, scan, path) && path[0] == p
  }

  /** The tracking of a scan; it depends on the processes found, not on their order. */
  ghost function Tracked(configs: ConfigMap, scan: set<ProcessInfo>): map<u32, TrackedProcess>
    requires DistinctPids(scan)
  {
    map p | p in scan && p.uid in configs ::
      p.pid := TrackedProcess(p.uid, Inherits(configs, scan, p),
                              configs[p.uid].Excludes(Inherits(configs, scan, p)))
  }

  lemma OwnMatchInherits(configs: ConfigMap, scan: set<ProcessInfo>, p: ProcessInfo)
    requires p in scan && OwnMatch(configs, p)
    ensures Inherits(configs, scan, p)
  {
    assert Chain(configs, scan, [p]);
  }

  lemma ChildInherits(configs: ConfigMap, scan: set<ProcessInfo>, p: ProcessInfo, parent: ProcessInfo)
    requires p in scan && p.uid in configs && p.ppid == parent.pid && Inherits(configs, scan, parent)
    ensures Inherits(configs, scan, p)
  {
    var path :| Chain(configs, scan, path) && path[0] == parent;
    assert Chain(configs, scan, [p] + path);
  }

  /** The configured processes have a verdict, and a process that matches itself is a match. */
  ghost predicate Verdicts(configs: ConfigMap, scan: set<ProcessInfo>, matches: map<u32, bool>) {
    && (forall p :: p in scan ==> (p.pid in matches <==> p.uid in configs))
    && (forall pid :: pid in matches ==> exists p :: p in scan && p.pid == pid)
    && (forall p :: p in scan && OwnMatch(configs, p) ==> matches[p.pid])
  }

  ghost predicate Sound(configs: ConfigMap, scan: set<ProcessInfo>, matches: map<u32, bool>) {
    forall p :: p in scan && p.pid in matches && matches[p.pid] ==> Inherits(configs, scan, p)
  }

  /** A round would change the verdict of `p`. */
  predicate Pending(matches: map<u32, bool>, p: ProcessInfo) {
    p.pid in matches && !matches[p.pid] && p.ppid in matches && matches[p.ppid]
  }

  /** Verdicts no round changes are complete. */
  lemma {:induction false} FixpointIsComplete(configs: ConfigMap, scan: set<ProcessInfo>,
                                              matches: map<u32, bool>, path: seq<ProcessInfo>)
    requires DistinctPids(scan) && Verdicts(configs, scan, matches) && Chain(configs, scan, path)
    requires forall p :: p in scan ==> !Pending(matches, p)
    ensures matches[path[0].pid]
    decreases |path|
  {
    if |path| > 1 {
      assert Chain(configs, scan, path[1..]);
      FixpointIsComplete(configs, scan, matches, path[1..]);
      assert path[0].ppid == path[1].pid;
      assert !Pending(matches, path[0]);
    }
  }

  lemma FixpointIsTracking(configs: ConfigMap, scan: set<ProcessInfo>, matches: map<u32, bool>, p: ProcessInfo)
    requires DistinctPids(scan) && Verdicts(configs, scan, matches) && Sound(configs, scan, matches)
    requires forall p :: p in scan ==> !Pending(matches, p)
    requires p in scan && p.uid in configs
    ensures matches[p.pid] == Inherits(configs, scan, p)
  {
    if Inherits(configs, scan, p) {
      var path :| Chain(configs, scan, path) && path[0] == p;
      FixpointIsComplete(configs, scan, matches, path);
    }
  }

  ghost function Trues(matches: map<u32, bool>): set<u32> {
    set pid | pid in matches && matches[pid]
  }

  lemma {:induction false} PidsBounded(processes: seq<ProcessInfo>)
    ensures |set p | p in processes :: p.pid| <= |processes|
  {
    if processes == [] {
      assert (set p | p in processes :: p.pid) == {};
    } else {
      var init, last := processes[..|processes| - 1], processes[|processes| - 1];
      PidsBounded(init);
      assert processes == init + [last];
      assert (set p | p in processes :: p.pid) == (set p | p in init :: p.pid) + {last.pid};
    }
  }

  /** As many true verdicts as processes leave nothing pending. */
  lemma AllTrue(configs: ConfigMap, processes: seq<ProcessInfo>, matches: map<u32, bool>)
    requires Verdicts(configs, Scan(processes), matches) && |Trues(matches)| >= |processes|
    ensures forall p :: p in processes ==> !Pending(matches, p)
  {
    var pids := set p | p in processes :: p.pid;
    PidsBounded(processes);
    assert Trues(matches) <= pids by {
      forall pid | pid in Trues(matches)
        ensures pid in pids
      {
        var p :| p in Scan(processes) && p.pid == pid;
      }
    }
    SubsetBounded(Trues(matches), pids);
    forall p | p in processes
      ensures !Pending(matches, p)
    {
      assert p.pid in pids;
    }
  }

  method InitialMatches(configs: ConfigMap, processes: seq<ProcessInfo>) returns (matches: map<u32, bool>)
    requires DistinctPids(Scan(processes))
    ensures Verdicts(configs, Scan(processes), matches)
    ensures Sound(configs, Scan(processes), matches)
  {
    ghost var scan := Scan(processes);
    matches := map[];
    for i := 0 to |processes|
      invariant forall pid :: pid in matches ==> exists p :: p in processes && p.pid == pid
      invariant forall p :: p in processes && p.pid in matches ==>
                  p.uid in configs && matches[p.pid] == OwnMatch(configs, p)
      invariant forall k :: 0 <= k < i && processes[k].uid in configs ==> processes[k].pid in matches
    {
      var process := processes[i];
      assert process in scan;
      if process.uid in configs {
        matches := matches[process.pid := configs[process.uid].Matches(process.identities)];
      }
      assert forall p :: p in processes && p.pid == process.pid ==> p in scan && p == process;
    }
    forall p | p in scan && OwnMatch(configs, p)
      ensures Inherits(configs, scan, p)
    {
      OwnMatchInherits(configs, scan, p);
    }
  }

  /** Turning a pending verdict true keeps the verdicts sound. */
  lemma PropagateStep(configs: ConfigMap, scan: set<ProcessInfo>, matches: map<u32, bool>, process: ProcessInfo)
    requires DistinctPids(scan) && Verdicts(configs, scan, matches) && Sound(configs, scan, matches)
    requires process in scan && Pending(matches, process)
    ensures Verdicts(configs, scan, matches[process.pid := true])
    ensures Sound(configs, scan, matches[process.pid := true])
    ensures Trues(matches[process.pid := true]) == Trues(matches) + {process.pid}
    ensures process.pid !in Trues(matches)
  {
    hide Inherits, OwnMatch;
    var parent :| parent in scan && parent.pid == process.ppid;
    ChildInherits(configs, scan, process, parent);
  }

  /** One pass over the scan: a child of a match becomes a match. */
  method PropagateOnce(configs: ConfigMap, processes: seq<ProcessInfo>, before: map<u32, bool>)
    returns (matches: map<u32, bool>, changed: bool)
    requires DistinctPids(Scan(processes))
    requires Verdicts(configs, Scan(processes), before) && Sound(configs, Scan(processes), before)
    ensures Verdicts(configs, Scan(processes), matches) && Sound(configs, Scan(processes), matches)
    ensures changed ==> |Trues(matches)| > |Trues(before)|
    ensures !changed ==> matches == before && forall p :: p in processes ==> !Pending(matches, p)
  {
    hide Verdicts, Sound;
    ghost var scan := Scan(processes);
    matches, changed := before, false;
    for i := 0 to |processes|
      invariant Verdicts(configs, scan, matches) && Sound(configs, scan, matches)
      invariant Trues(before) <= Trues(matches)
      invariant changed ==> |Trues(matches)| > |Trues(before)|
      invariant !changed ==> matches == before && forall k :: 0 <= k < i ==> !Pending(matches, processes[k])
    {
      var process := processes[i];
      assert process in scan;
      if Pending(matches, process) {
        PropagateStep(configs, scan, matches, process);
        SubsetBounded(Trues(before), Trues(matches));
        SubsetBounded(Trues(matches), Trues(matches[process.pid := true]));
        matches, changed := matches[process.pid := true], true;
      }
    }
  }

  /** The scan's verdicts are the least fixpoint, reached within as many rounds as processes. */
  method BuildTracking(configs: ConfigMap, processes: seq<ProcessInfo>) returns (tracked: map<u32, TrackedProcess>)
    requires DistinctPids(Scan(processes))
    ensures tracked == Tracked(configs, Scan(processes))
  {
    ghost var scan := Scan(processes);
    var matches: map<u32, bool> := InitialMatches(configs, processes);
    var changed := true;
    for round := 0 to |processes|
      invariant Verdicts(configs, scan, matches) && Sound(configs, scan, matches)
      invariant |Trues(matches)| >= round
    {
      matches, changed := PropagateOnce(configs, processes, matches);
      if !changed {
        break;
      }
    }
    if changed {
      AllTrue(configs, processes, matches);
    }
    forall p | p in scan && p.uid in configs
      ensures matches[p.pid] == Inherits(configs, scan, p)
    {
      FixpointIsTracking(configs, scan, matches, p);
    }
    tracked := Collect(configs, processes, matches);
  }

  method Collect(configs: ConfigMap, processes: seq<ProcessInfo>, matches: map<u32, bool>)
    returns (tracked: map<u32, TrackedProcess>)
    requires DistinctPids(Scan(processes))
    requires forall p :: p in processes && p.uid in configs ==>
               p.pid in matches && matches[p.pid] == Inherits(configs, Scan(processes), p)
    ensures tracked == Tracked(configs, Scan(processes))
  {
    ghost var scan := Scan(processes);
    tracked := map[];
    for i := 0 to |processes|
      invariant forall pid :: pid in tracked ==> pid in Tracked(configs, scan) && tracked[pid] == Tracked(configs, scan)[pid]
      invariant forall k :: 0 <= k < i && processes[k].uid in configs ==> processes[k].pid in tracked
    {
      var p := processes[i];
      assert p in scan;
      if p.uid in configs {
        var matched := p.pid in matches && matches[p.pid];
        tracked := tracked[p.pid := TrackedProcess(p.uid, matched, configs[p.uid].Excludes(matched))];
      }
    }
  }
}
