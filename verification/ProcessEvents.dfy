/**
Process events between two scans: what a fork, an exec and an exit do to the
tracking, and which processes are matched after a run of them.
*/
module ProcessEvents {
  import opened Wrappers
  import opened SplitModel
  import opened Tracking

  /** Every tracked process belongs to a configured user and is excluded as its policy says. */
  ghost predicate Consistent(configs: ConfigMap, tracked: map<u32, TrackedProcess>) {
    forall pid :: pid in tracked ==>
      && tracked[pid].uid in configs
      && tracked[pid].excluded == configs[tracked[pid].uid].Excludes(tracked[pid].matched)
  }

  /** What an event reports; the process read back is absent when it is gone already. */
  datatype ProcessEvent =
    | Exit(pid: u32)
    | Fork(parent: u32, child: u32, info: Option<ProcessInfo>)
    | Exec(pid: u32, info: Option<ProcessInfo>)

  function Judge(configs: ConfigMap, uid: u16, matched: bool): TrackedProcess
    requires uid in configs
  {
    TrackedProcess(uid, matched, configs[uid].Excludes(matched))
  }

  /** The tracking after an event whose map operation succeeds. */
  function AfterEvent(configs: ConfigMap, tracked: map<u32, TrackedProcess>, event: ProcessEvent)
    : map<u32, TrackedProcess>
  {
    match event
    case Exit(pid) => tracked - {pid}
    case Fork(parent, child, info) =>
      if parent in tracked then
        if tracked[parent].uid in configs
        then tracked[child := Judge(configs, tracked[parent].uid, tracked[parent].matched)] else tracked
      else if info.Some? && info.value.uid in configs
      then tracked[child := Judge(configs, info.value.uid, OwnMatch(configs, info.value))]
      else tracked
    case Exec(pid, None) => tracked
    case Exec(pid, Some(info)) =>
      if info.uid in configs
      then tracked[pid := Judge(configs, info.uid, (pid in tracked && tracked[pid].matched) || OwnMatch(configs, info))]
      else tracked - {pid}
  }

  /** Events keep every exclusion as the policy says. */
  lemma EventKeepsConsistency(configs: ConfigMap, tracked: map<u32, TrackedProcess>, event: ProcessEvent)
    requires Consistent(configs, tracked)
    ensures Consistent(configs, AfterEvent(configs, tracked, event))
  {
  }

  lemma EventKeeps(configs: ConfigMap, tracked: map<u32, TrackedProcess>, event: ProcessEvent)
    ensures Consistent(configs, tracked) ==> Consistent(configs, AfterEvent(configs, tracked, event))
  {
    if Consistent(configs, tracked) {
      EventKeepsConsistency(configs, tracked, event);
    }
  }

  ghost predicate Matched(tracked: map<u32, TrackedProcess>, pid: u32) {
    pid in tracked && tracked[pid].matched
  }

  /** The events that may end the match of a process: its exit, its pid given to a child, a foreign user. */
  predicate Ends(configs: ConfigMap, event: ProcessEvent, pid: u32) {
    match event
    case Exit(p) => p == pid
    case Fork(_, child, _) => child == pid
    case Exec(p, info) => p == pid && info.Some? && info.value.uid !in configs
  }

  function After(configs: ConfigMap, tracked: map<u32, TrackedProcess>, events: seq<ProcessEvent>)
    : map<u32, TrackedProcess>
  {
    if events == [] then tracked
    else AfterEvent(configs, After(configs, tracked, events[..|events| - 1]), events[|events| - 1])
  }

  /** A match survives any run of events that does not end it, whatever is executed meanwhile. */
  lemma {:induction false} MatchPersists(configs: ConfigMap, tracked: map<u32, TrackedProcess>,
                                         events: seq<ProcessEvent>, pid: u32)
    requires Consistent(configs, tracked) && Matched(tracked, pid)
    requires forall e :: e in events ==> !Ends(configs, e, pid)
    ensures Matched(After(configs, tracked, events), pid) && Consistent(configs, After(configs, tracked, events))
  {
    if events != [] {
      var init, last := events[..|events| - 1], events[|events| - 1];
      assert last in events;
      MatchPersists(configs, tracked, init, pid);
      EventKeepsConsistency(configs, After(configs, tracked, init), last);
    }
  }

  /** A child of a match is a match from its first moment. */
  lemma ChildIsMatched(configs: ConfigMap, tracked: map<u32, TrackedProcess>, events: seq<ProcessEvent>,
                       parent: u32, child: u32, info: Option<ProcessInfo>)
    requires Consistent(configs, tracked) && Matched(tracked, parent)
    requires forall e :: e in events ==> !Ends(configs, e, parent)
    ensures Matched(After(configs, tracked, events + [Fork(parent, child, info)]), child)
  {
    MatchPersists(configs, tracked, events, parent);
    assert (events + [Fork(parent, child, info)])[..|events|] == events;
  }

  // ----- what an event decides -----

  /** Only processes the event names are affected. */
  lemma OthersUntouched(configs: ConfigMap, tracked: map<u32, TrackedProcess>, event: ProcessEvent, pid: u32)
    requires pid != (match event case Exit(p) => p case Fork(_, child, _) => child case Exec(p, _) => p)
    ensures pid in AfterEvent(configs, tracked, event) <==> pid in tracked
    ensures pid in tracked ==> AfterEvent(configs, tracked, event)[pid] == tracked[pid]
  {
  }

  /** An exec of a configured user is tracked, and matched if it was or if its own policy matches it. */
  lemma ExecDecides(configs: ConfigMap, tracked: map<u32, TrackedProcess>, pid: u32, info: ProcessInfo)
    requires info.uid in configs
    ensures var after := AfterEvent(configs, tracked, Exec(pid, Some(info)));
            && pid in after && after[pid].uid == info.uid
            && (after[pid].matched <==> Matched(tracked, pid) || configs[info.uid].Matches(info.identities))
            && (after[pid].excluded <==> after[pid].matched == (configs[info.uid].mode == Exclude))
  {
  }

  /** A process whose parent is not tracked is judged by its own policy. */
  lemma OrphanDecides(configs: ConfigMap, tracked: map<u32, TrackedProcess>, parent: u32, child: u32, info: ProcessInfo)
    requires parent !in tracked && info.uid in configs
    ensures var after := AfterEvent(configs, tracked, Fork(parent, child, Some(info)));
            && child in after && after[child].uid == info.uid
            && (after[child].matched <==> configs[info.uid].Matches(info.identities))
            && (after[child].excluded <==> after[child].matched == (configs[info.uid].mode == Exclude))
  {
  }

  /** A child of a tracked process is what its parent is. */
  lemma ChildDecides(configs: ConfigMap, tracked: map<u32, TrackedProcess>, parent: u32, child: u32,
                     info: Option<ProcessInfo>)
    requires Consistent(configs, tracked) && parent in tracked
    ensures var after := AfterEvent(configs, tracked, Fork(parent, child, info));
            child in after && after[child] == tracked[parent]
  {
  }

  /** An exit, and an exec of a foreign user, end the tracking. */
  lemma DroppedDecides(configs: ConfigMap, tracked: map<u32, TrackedProcess>, pid: u32, info: ProcessInfo)
    ensures pid !in AfterEvent(configs, tracked, Exit(pid))
    ensures info.uid !in configs ==> pid !in AfterEvent(configs, tracked, Exec(pid, Some(info)))
  {
  }

  // ----- which processes are matched after a run -----

  /** The event makes the process a match: by its own policy, or by what its parent is. */
  ghost predicate Makes(configs: ConfigMap, tracked: map<u32, TrackedProcess>, event: ProcessEvent, pid: u32) {
    match event
    case Exit(_) => false
    case Fork(parent, child, info) =>
      && child == pid
      && if parent in tracked then Matched(tracked, parent)
         else info.Some? && info.value.uid in configs && configs[info.value.uid].Matches(info.value.identities)
    case Exec(p, info) =>
      p == pid && info.Some? && info.value.uid in configs && configs[info.value.uid].Matches(info.value.identities)
  }

  /** The event ends the match of the process, or starts another process that is none under its pid. */
  ghost predicate Breaks(configs: ConfigMap, tracked: map<u32, TrackedProcess>, event: ProcessEvent, pid: u32) {
    match event
    case Exit(p) => p == pid
    case Fork(parent, child, info) =>
      && child == pid
      && if parent in tracked then !Matched(tracked, parent)
         else info.Some? && info.value.uid in configs && !configs[info.value.uid].Matches(info.value.identities)
    case Exec(p, info) => p == pid && info.Some? && info.value.uid !in configs
  }

  lemma MatchStep(configs: ConfigMap, tracked: map<u32, TrackedProcess>, event: ProcessEvent, pid: u32)
    requires Consistent(configs, tracked)
    ensures Matched(AfterEvent(configs, tracked, event), pid)
       <==> Makes(configs, tracked, event, pid) || (!Breaks(configs, tracked, event, pid) && Matched(tracked, pid))
  {
    hide SplitConfig.Matches;
  }

  /** Since event `k` the process is a match: that event made it one, or it was one at the start. */
  ghost predicate MatchedSince(configs: ConfigMap, tracked: map<u32, TrackedProcess>, events: seq<ProcessEvent>,
                               pid: u32, k: nat)
    requires k <= |events|
  {
    && (if k == 0 then Matched(tracked, pid)
        else Makes(configs, After(configs, tracked, events[..k - 1]), events[k - 1], pid))
    && forall j :: k <= j < |events| ==> !Breaks(configs, After(configs, tracked, events[..j]), events[j], pid)
  }

  lemma AfterIsConsistent(configs: ConfigMap, tracked: map<u32, TrackedProcess>, events: seq<ProcessEvent>)
    requires Consistent(configs, tracked)
    ensures Consistent(configs, After(configs, tracked, events))
  {
    if events != [] {
      AfterIsConsistent(configs, tracked, events[..|events| - 1]);
      EventKeepsConsistency(configs, After(configs, tracked, events[..|events| - 1]), events[|events| - 1]);
    }
  }

  /**
   After any run of events a process is a match exactly when some event made
   it one, or it was one from the start, and nothing has ended that since.
   */
  lemma {:induction false} MatchedExactly(configs: ConfigMap, tracked: map<u32, TrackedProcess>,
                                          events: seq<ProcessEvent>, pid: u32)
    requires Consistent(configs, tracked)
    ensures Matched(After(configs, tracked, events), pid)
       <==> exists k :: 0 <= k <= |events| && MatchedSince(configs, tracked, events, pid, k)
  {
    hide Makes, Breaks, Matched, Consistent, AfterEvent;
    if events == [] {
      assert MatchedSince(configs, tracked, events, pid, 0) <==> Matched(tracked, pid);
    } else {
      var n := |events| - 1;
      var init, last := events[..n], events[n];
      MatchedExactly(configs, tracked, init, pid);
      AfterIsConsistent(configs, tracked, init);
      MatchStep(configs, After(configs, tracked, init), last, pid);
      forall k | 0 <= k <= n
        ensures MatchedSince(configs, tracked, events, pid, k)
           <==> MatchedSince(configs, tracked, init, pid, k) && !Breaks(configs, After(configs, tracked, init), last, pid)
      {
        SinceGrows(configs, tracked, events, pid, k);
      }
      assert MatchedSince(configs, tracked, events, pid, n + 1)
        <==> Makes(configs, After(configs, tracked, init), last, pid);
    }
  }

  lemma SinceGrows(configs: ConfigMap, tracked: map<u32, TrackedProcess>, events: seq<ProcessEvent>, pid: u32, k: nat)
    requires k < |events|
    ensures var n := |events| - 1;
            MatchedSince(configs, tracked, events, pid, k)
            <==> MatchedSince(configs, tracked, events[..n], pid, k)
                 && !Breaks(configs, After(configs, tracked, events[..n]), events[n], pid)
  {
    hide Makes, Breaks, Matched;
    var n := |events| - 1;
    assert forall j :: 0 <= j <= n ==> events[..n][..j] == events[..j];
    assert events[..n] == events[..n][..n];
  }
}
