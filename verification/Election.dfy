/** Which pod is to be MAIN: the choice made in every pass, and the one made on failover. */
module Election {
  import opened Options
  import opened Pods

  datatype HighAvailability = HighAvailability(enabled: bool, preferredMain: string)

  ghost predicate NoneReady(pods: seq<Pod>) { forall p <- pods :: !p.IsReady() }

  /** Pod names are never empty. */
  ghost predicate Named(pods: seq<Pod>) { forall p <- pods :: p.name != "" }

  lemma SomeReady(pods: seq<Pod>, name: string)
    requires ReadyNamed(pods, name)
    ensures ReadySorted(pods) != []
  {
  }

  function Preferred(ha: Option<HighAvailability>): string {
    if ha.Some? then ha.value.preferredMain else ""
  }

  /** `name` is the first ready pod of the list other than `except`. */
  ghost predicate IsFirstReady(pods: seq<Pod>, except: Option<string>, name: string) {
    exists i :: 0 <= i < |pods| && Eligible(pods[i], except) && pods[i].name == name &&
                forall j :: 0 <= j < i ==> !Eligible(pods[j], except)
  }

  ghost predicate Eligible(p: Pod, except: Option<string>) { p.IsReady() && except != Some(p.name) }

  /**
    The election rule: keep the recorded pod while it is ready; otherwise take the preferred pod if
    it is ready; otherwise the first ready one; and none when no pod is ready.
  */
  ghost predicate Elected(recorded: string, ha: Option<HighAvailability>, pods: seq<Pod>, choice: string) {
    if recorded != "" && ReadyNamed(pods, recorded) then choice == recorded
    else if Preferred(ha) != "" && ReadyNamed(pods, Preferred(ha)) then choice == Preferred(ha)
    else if NoneReady(pods) then choice == ""
    else IsFirstReady(pods, None, choice)
  }

  method FindReady(pods: seq<Pod>, name: string) returns (found: bool)
    ensures found <==> ReadyNamed(pods, name)
  {
    hide Pod.IsReady;
    for i := 0 to |pods|
      invariant forall j :: 0 <= j < i ==> !(pods[j].name == name && pods[j].IsReady())
    {
      if pods[i].name == name && pods[i].IsReady() {
        return true;
      }
    }
    return false;
  }

  method DetermineWriteInstance(recorded: string, ha: Option<HighAvailability>, pods: seq<Pod>) returns (choice: string)
    ensures Elected(recorded, ha, pods, choice)
  {
    hide Pod.IsReady;
    if recorded != "" {
      var found := FindReady(pods, recorded);
      if found {
        return recorded;
      }
    }
    if ha.Some? && ha.value.preferredMain != "" {
      var found := FindReady(pods, ha.value.preferredMain);
      if found {
        return ha.value.preferredMain;
      }
    }
    for i := 0 to |pods|
      invariant forall j :: 0 <= j < i ==> !pods[j].IsReady()
    {
      if pods[i].IsReady() {
        assert Eligible(pods[i], None);
        return pods[i].name;
      }
    }
    return "";
  }

  /** There is always exactly one outcome of an election. */
  lemma ElectionUnique(recorded: string, ha: Option<HighAvailability>, pods: seq<Pod>, a: string, b: string)
    requires Elected(recorded, ha, pods, a) && Elected(recorded, ha, pods, b)
    ensures a == b
  {
  }

  lemma ElectionExists(recorded: string, ha: Option<HighAvailability>, pods: seq<Pod>)
    ensures exists choice :: Elected(recorded, ha, pods, choice)
  {
    hide Pod.IsReady;
    if recorded != "" && ReadyNamed(pods, recorded) {
      assert Elected(recorded, ha, pods, recorded);
    } else if Preferred(ha) != "" && ReadyNamed(pods, Preferred(ha)) {
      assert Elected(recorded, ha, pods, Preferred(ha));
    } else if NoneReady(pods) {
      assert Elected(recorded, ha, pods, "");
    } else {
      var i := 0;
      while !pods[i].IsReady()
        invariant i < |pods| && forall j :: 0 <= j < i ==> !pods[j].IsReady()
        decreases |pods| - i
      {
        i := i + 1;
      }
      assert Eligible(pods[i], None);
      assert Elected(recorded, ha, pods, pods[i].name);
    }
  }

  /** A choice is a ready pod of the list, and is empty exactly when no pod is ready. */
  lemma ChosenIsReady(recorded: string, ha: Option<HighAvailability>, pods: seq<Pod>, choice: string)
    requires Named(pods) && Elected(recorded, ha, pods, choice)
    ensures choice != "" ==> ReadyNamed(pods, choice)
    ensures choice == "" <==> NoneReady(pods)
  {
  }

  /** A recorded write instance is kept exactly while it is listed and ready. */
  lemma KeptWhileReady(recorded: string, ha: Option<HighAvailability>, pods: seq<Pod>, choice: string)
    requires Named(pods) && recorded != "" && Elected(recorded, ha, pods, choice)
    ensures choice == recorded <==> ReadyNamed(pods, recorded)
  {
  }

  /**
    The election in terms of the pods' phases and conditions alone: a choice is a listed pod that runs
    and is ready, there is none only if no such pod is listed, and the recorded pod is kept exactly
    if it is such a pod.
  */
  lemma ElectionExactly(recorded: string, ha: Option<HighAvailability>, pods: seq<Pod>, choice: string)
    requires Named(pods) && Elected(recorded, ha, pods, choice)
    ensures choice != "" ==> exists p <- pods :: p.name == choice && RunsReady(p)
    ensures choice == "" <==> forall p <- pods :: !RunsReady(p)
    ensures recorded != "" ==>
      (choice == recorded <==> exists p <- pods :: p.name == recorded && RunsReady(p))
    ensures ha.Some? && ha.value.preferredMain != "" && (exists p <- pods :: p.name == ha.value.preferredMain && RunsReady(p)) ==>
      choice == ha.value.preferredMain || (choice == recorded && recorded != "")
    ensures choice != "" && choice != recorded && (ha.Some? ==> choice != ha.value.preferredMain) ==>
      exists i :: 0 <= i < |pods| && pods[i].name == choice && forall j :: 0 <= j < i ==> !RunsReady(pods[j])
  {
    hide Pod.IsReady, RunsReady;
    forall p <- pods ensures p.IsReady() <==> RunsReady(p) {
      ReadyExactly(p);
    }
    ChosenIsReady(recorded, ha, pods, choice);
    if recorded != "" { KeptWhileReady(recorded, ha, pods, choice); }
  }

  /** The outcome of the election. */
  ghost function Winner(recorded: string, ha: Option<HighAvailability>, pods: seq<Pod>): (choice: string)
    ensures Elected(recorded, ha, pods, choice)
  {
    ElectionExists(recorded, ha, pods);
    var choice :| Elected(recorded, ha, pods, choice);
    choice
  }

  // Failover

  datatype Failover = Promoted(name: string) | NotEnabled | NoCandidates

  /** The ready pods other than the failed one, in list order. */
  function Candidates(pods: seq<Pod>, failedMain: string): (cs: seq<Pod>)
    ensures forall p :: p in cs <==> p in pods && p.name != failedMain && p.IsReady()
  {
    if pods == [] then []
    else
      assert pods == pods[..|pods| - 1] + [pods[|pods| - 1]];
      var p := pods[|pods| - 1];
      Candidates(pods[..|pods| - 1], failedMain) + if p.name != failedMain && p.IsReady() then [p] else []
  }

  lemma {:induction false} FirstCandidate(pods: seq<Pod>, failedMain: string)
    requires Candidates(pods, failedMain) != []
    ensures IsFirstReady(pods, Some(failedMain), Candidates(pods, failedMain)[0].name)
  {
    hide Pod.IsReady;
    var n := |pods| - 1;
    if Candidates(pods[..n], failedMain) != [] {
      FirstCandidate(pods[..n], failedMain);
      var i :| 0 <= i < n && Eligible(pods[..n][i], Some(failedMain)) &&
               pods[..n][i].name == Candidates(pods, failedMain)[0].name &&
               forall j :: 0 <= j < i ==> !Eligible(pods[..n][j], Some(failedMain));
      assert pods[..n][i] == pods[i];
      assert forall j :: 0 <= j < i ==> pods[..n][j] == pods[j];
    } else {
      forall j | 0 <= j < n ensures !Eligible(pods[j], Some(failedMain)) {
        assert pods[..n][j] == pods[j];
      }
    }
  }

  /** Only with high availability enabled: the preferred pod if it qualifies, else the first other ready one. */
  ghost predicate FailedOver(ha: Option<HighAvailability>, pods: seq<Pod>, failedMain: string, r: Failover) {
    if ha.None? || !ha.value.enabled then r == NotEnabled
    else if forall p <- pods :: p.IsReady() ==> p.name == failedMain then r == NoCandidates
    else
      && r.Promoted?
      && var preferred := Preferred(ha);
         if preferred != "" && preferred != failedMain && ReadyNamed(pods, preferred) then r.name == preferred
         else IsFirstReady(pods, Some(failedMain), r.name)
  }

  method HandleMainFailover(ha: Option<HighAvailability>, pods: seq<Pod>, failedMain: string) returns (r: Failover)
    ensures FailedOver(ha, pods, failedMain, r)
  {
    hide Pod.IsReady, IsFirstReady;
    if ha.None? || !ha.value.enabled {
      return NotEnabled;
    }
    var candidates: seq<Pod> := [];
    for i := 0 to |pods|
      invariant candidates == Candidates(pods[..i], failedMain)
    {
      assert pods[..i + 1][..i] == pods[..i];
      if pods[i].name != failedMain && pods[i].IsReady() {
        candidates := candidates + [pods[i]];
      }
    }
    assert pods[..|pods|] == pods;
    if |candidates| == 0 {
      return NoCandidates;
    }
    assert candidates[0] in candidates;
    FirstCandidate(pods, failedMain);
    if ha.value.preferredMain != "" {
      for i := 0 to |candidates|
        invariant forall j :: 0 <= j < i ==> candidates[j].name != ha.value.preferredMain
      {
        if candidates[i].name == ha.value.preferredMain {
          assert candidates[i] in candidates;
          return Promoted(candidates[i].name);
        }
      }
    }
    return Promoted(candidates[0].name);
  }

  function AsFailover(choice: string): Failover { if choice == "" then NoCandidates else Promoted(choice) }

  /**
    With high availability enabled, failing over from the recorded write instance gives what the
    election gives if and only if that pod is not ready: an election keeps a pod that is ready.
  */
  lemma FailoverAgrees(ha: Option<HighAvailability>, pods: seq<Pod>, failedMain: string, choice: string, r: Failover)
    requires ha.Some? && ha.value.enabled && failedMain != "" && Named(pods)
    requires Elected(failedMain, ha, pods, choice) && FailedOver(ha, pods, failedMain, r)
    ensures r == AsFailover(choice) <==> !ReadyNamed(pods, failedMain)
  {
  }

  /** Failing over from any other pod, or while the recorded pod is ready, never names the failed pod. */
  lemma FailoverAvoidsFailed(ha: Option<HighAvailability>, pods: seq<Pod>, failedMain: string, r: Failover)
    requires FailedOver(ha, pods, failedMain, r) && r.Promoted?
    ensures r.name != failedMain && ReadyNamed(pods, r.name)
  {
  }

  /** Failover in terms of the pods' phases and conditions alone. */
  lemma FailoverExactly(ha: Option<HighAvailability>, pods: seq<Pod>, failedMain: string, r: Failover)
    requires FailedOver(ha, pods, failedMain, r)
    ensures r == NotEnabled <==> ha.None? || !ha.value.enabled
    ensures r == NoCandidates <==> ha.Some? && ha.value.enabled && forall p <- pods :: RunsReady(p) ==> p.name == failedMain
    ensures r.Promoted? ==> r.name != failedMain && exists p <- pods :: p.name == r.name && RunsReady(p)
    ensures r.Promoted? ==>
      var preferred := ha.value.preferredMain;
      preferred != "" && preferred != failedMain && (exists p <- pods :: p.name == preferred && RunsReady(p)) ==> r.name == preferred
    ensures r.Promoted? && r.name != ha.value.preferredMain ==>
      exists i :: 0 <= i < |pods| && pods[i].name == r.name && forall j :: 0 <= j < i ==>
        RunsReady(pods[j]) ==> pods[j].name == failedMain
  {
    hide Pod.IsReady, RunsReady;
    forall p <- pods ensures p.IsReady() <==> RunsReady(p) {
      ReadyExactly(p);
    }
  }
}
