/**
What a split-tunneling policy says, in terms of the texts a user wrote: which
processes it excludes, which configurations are accepted, and in which order
validation leaves their paths.
*/
module PolicyMeaning {
  import opened SplitModel
  import opened Tracking
  import opened Unicode
  import opened Wrappers

  /** The text of a process names the client itself: its window or its agent. */
  ghost predicate NamesClient(identity: string) {
    exists front: string, back: string ::
      || identity == front + "protonvpn-app" + back
      || identity == front + "proton-omarchy-agent" + back
  }

  /** The text of a process is the listed path, alone or followed by arguments. */
  ghost predicate RunsPath(identity: string, path: string) {
    path != "" && exists rest: string :: identity == path + rest && (rest == "" || IsWhitespace(rest[0]))
  }

  ghost predicate RunsListed(c: SplitConfig, identities: seq<string>) {
    exists i, p :: 0 <= i < |identities| && 0 <= p < |c.appPaths| && RunsPath(identities[i], c.appPaths[p])
  }

  ghost predicate IsClient(identities: seq<string>) {
    exists i :: 0 <= i < |identities| && NamesClient(identities[i])
  }

  lemma ContainsMeans(s: string, part: string)
    ensures ContainsText(s, part) <==> exists front: string, back: string :: s == front + part + back
  {
    if ContainsText(s, part) {
      var k :| 0 <= k <= |s| && part <= s[k..];
      assert s == s[..k] + part + s[k + |part|..];
    }
    if front: string, back: string :| s == front + part + back {
      assert s[|front|..] == part + back;
    }
  }

  lemma OwnClientMeans(identity: string)
    ensures IsOwnClient(identity) <==> NamesClient(identity)
  {
    hide ContainsText;
    ContainsMeans(identity, "protonvpn-app");
    ContainsMeans(identity, "proton-omarchy-agent");
  }

  lemma ListedMeans(c: SplitConfig, identities: seq<string>)
    ensures RunsListed(c, identities)
       <==> exists p :: p in c.appPaths && p != "" && exists i :: i in identities && IdentityMatchesPath(i, p)
  {
    hide IdentityMatchesPath, RunsPath;
    if i, p :| 0 <= i < |identities| && 0 <= p < |c.appPaths| && RunsPath(identities[i], c.appPaths[p]) {
      RunsMeans(identities[i], c.appPaths[p]);
      assert identities[i] in identities && c.appPaths[p] in c.appPaths;
    }
    if p :| p in c.appPaths && p != "" && exists i :: i in identities && IdentityMatchesPath(i, p) {
      var identity :| identity in identities && IdentityMatchesPath(identity, p);
      RunsMeans(identity, p);
      var i :| 0 <= i < |identities| && identities[i] == identity;
      var k :| 0 <= k < |c.appPaths| && c.appPaths[k] == p;
    }
  }

  lemma RunsMeans(identity: string, path: string)
    ensures RunsPath(identity, path) <==> path != "" && IdentityMatchesPath(identity, path)
  {
    MatchesAtBoundary(identity, path);
  }

  /**
   An Exclude policy takes out of the tunnel the processes that run a listed
   path; an Include policy takes out all others, but never the client itself.
   */
  lemma ExcludedMeans(c: SplitConfig, identities: seq<string>)
    ensures c.mode == Exclude ==> (c.Excludes(c.Matches(identities)) <==> RunsListed(c, identities))
    ensures c.mode == Include ==>
              (c.Excludes(c.Matches(identities)) <==> !RunsListed(c, identities) && !IsClient(identities))
  {
    hide RunsListed, IdentityMatchesPath, NamesClient, IsOwnClient;
    ListedMeans(c, identities);
    forall i | 0 <= i < |identities| ensures IsOwnClient(identities[i]) <==> NamesClient(identities[i]) {
      OwnClientMeans(identities[i]);
    }
    assert forall i :: 0 <= i < |identities| ==> identities[i] in identities;
  }

  /** The policy itself names the process: as a listed path, or as the client under Include. */
  ghost predicate Named(c: SplitConfig, identities: seq<string>) {
    RunsListed(c, identities) || (c.mode == Include && IsClient(identities))
  }

  lemma NamedMeans(c: SplitConfig, identities: seq<string>)
    ensures c.Matches(identities) <==> Named(c, identities)
  {
    hide RunsListed, IsClient, IsOwnClient, IdentityMatchesPath;
    ExcludedMeans(c, identities);
  }

  /** The process or one of its ancestors, all of them of configured users, is named by its own user's policy. */
  ghost predicate Descends(configs: ConfigMap, scan: set<ProcessInfo>, p: ProcessInfo) {
    exists path: seq<ProcessInfo> ::
      && path != [] && path[0] == p
      && (forall k :: 0 <= k < |path| ==> path[k] in scan && path[k].uid in configs)
      && (forall k :: 0 < k < |path| ==> path[k - 1].ppid == path[k].pid)
      && Named(configs[path[|path| - 1].uid], path[|path| - 1].identities)
  }

  /**
   A scan tracks exactly the processes of configured users. It excludes those
   an Exclude policy reaches through their ancestors, and those an Include
   policy does not reach.
   */
  lemma ScanExcludes(configs: ConfigMap, scan: set<ProcessInfo>, p: ProcessInfo)
    requires DistinctPids(scan) && p in scan
    ensures p.pid in Tracked(configs, scan) <==> p.uid in configs
    ensures p.uid in configs ==>
              var t := Tracked(configs, scan)[p.pid];
              && t.uid == p.uid && (t.matched <==> Descends(configs, scan, p))
              && (t.excluded <==> (configs[p.uid].mode == Exclude <==> t.matched))
  {
    hide Named, SplitConfig.Matches;
    forall q | q in scan && q.uid in configs ensures OwnMatch(configs, q) <==> Named(configs[q.uid], q.identities) {
      NamedMeans(configs[q.uid], q.identities);
    }
    if Inherits(configs, scan, p) {
      var path :| Chain(configs, scan, path) && path[0] == p;
      assert path[|path| - 1] in scan;
    }
    if Descends(configs, scan, p) {
      var path: seq<ProcessInfo> :|
        && path != [] && path[0] == p
        && (forall k :: 0 <= k < |path| ==> path[k] in scan && path[k].uid in configs)
        && (forall k :: 0 < k < |path| ==> path[k - 1].ppid == path[k].pid)
        && Named(configs[path[|path| - 1].uid], path[|path| - 1].identities);
      assert Chain(configs, scan, path);
    }
  }

  /** A policy has rules for applications exactly when some process can run a listed path. */
  lemma AppRulesMatter(c: SplitConfig)
    ensures c.HasAppRules() <==> exists identities :: RunsListed(c, identities)
    ensures c.HasRules() <==> c.HasAppRules() || c.ipRanges != []
  {
    if p :| p in c.appPaths && p != "" {
      assert p == p + "" && RunsPath([p][0], p);
      var k :| 0 <= k < |c.appPaths| && c.appPaths[k] == p;
      assert RunsListed(c, [p]);
    }
    if identities :| RunsListed(c, identities) {
      var i, k :| 0 <= i < |identities| && 0 <= k < |c.appPaths| && RunsPath(identities[i], c.appPaths[k]);
      assert c.appPaths[k] in c.appPaths;
    }
  }

  /** Exactly the bounded configurations without over-long values and unparsable ranges are accepted. */
  lemma AcceptedMeans(c: SplitConfig)
    ensures c.Validate().Ok?
       <==> && |c.appPaths| <= 256 && |c.ipRanges| <= 256
            && (forall i :: 0 <= i < |c.appPaths| ==> |c.appPaths[i]| <= 4096 && '\0' !in c.appPaths[i])
            && forall i :: 0 <= i < |c.ipRanges| ==> c.ipRanges[i] == Blank || c.ipRanges[i].Spelled?
  {
    hide ValidateIpRanges, ValidatedRanges, Covers;
    RangesValidation(c.ipRanges);
    assert forall i :: 0 <= i < |c.appPaths| ==> c.appPaths[i] in c.appPaths;
    assert forall i :: 0 <= i < |c.ipRanges| ==> c.ipRanges[i] in c.ipRanges;
  }

  /** The value stands at this position and nowhere before it. */
  ghost predicate FirstAt<T>(values: seq<T>, k: nat, v: T) {
    k < |values| && values[k] == v && v !in values[..k]
  }

  /** Normalisation leaves the values in the order in which they first occur. */
  lemma {:induction false} NormalizeOrder<T>(values: seq<T>, unwanted: T, i: nat, j: nat, p: nat, q: nat)
    requires i < j < |Normalize(values, unwanted)|
    requires FirstAt(values, p, Normalize(values, unwanted)[i]) && FirstAt(values, q, Normalize(values, unwanted)[j])
    ensures p < q
    decreases |values|
  {
    var n := |values| - 1;
    var init, last := values[..n], values[n];
    NormalizeMeans(init, unwanted);
    var before := Normalize(init, unwanted);
    assert before[i] in before && before[i] in init;
    FirstInFront(values, p, before[i]);
    if j < |before| {
      assert before[j] in before && before[j] in init;
      FirstInFront(values, q, before[j]);
      NormalizeOrder(init, unwanted, i, j, p, q);
    }
  }

  lemma FirstInFront<T>(values: seq<T>, k: nat, v: T)
    requires FirstAt(values, k, v) && v in values[..|values| - 1]
    ensures k < |values| - 1 && FirstAt(values[..|values| - 1], k, v)
  {
    var init := values[..|values| - 1];
    var j :| 0 <= j < |init| && init[j] == v;
    assert forall m :: 0 <= m < k ==> values[..k][m] == values[m];
    assert k <= j && values[..k] == init[..k];
  }

  /** A validated policy keeps the given paths, without repetition and empty ones, in their order. */
  lemma PathsKept(c: SplitConfig)
    requires c.Validate().Ok?
    ensures var paths := c.Validate().value.appPaths;
            && Distinct(paths) && (forall p :: p in paths <==> p in c.appPaths && p != "")
            && forall i: nat, j: nat, k: nat, l: nat ::
                 i < j < |paths| && FirstAt(c.appPaths, k, paths[i]) && FirstAt(c.appPaths, l, paths[j]) ==> k < l
  {
    NormalizeMeans(c.appPaths, "");
    forall i: nat, j: nat, k: nat, l: nat |
        i < j < |Normalize(c.appPaths, "")| && FirstAt(c.appPaths, k, Normalize(c.appPaths, "")[i])
        && FirstAt(c.appPaths, l, Normalize(c.appPaths, "")[j])
      ensures k < l
    {
      NormalizeOrder(c.appPaths, "", i, j, k, l);
    }
  }
}
