/** Runs of many passes, with restarts, failed calls and pod lists in any order. */
module ReplicationRuns {
  import opened Pods
  import opened Replication
  import opened ReplicationSafety

  /** The same pods are ready, going by their names; all else about the pods may differ. */
  ghost predicate SameReady(pods: seq<Pod>, pods': seq<Pod>) {
    && DistinctNames(pods) && DistinctNames(pods')
    && forall n :: ReadyNamed(pods, n) <==> ReadyNamed(pods', n)
  }

  lemma {:induction false} OthersByName(ready: seq<Pod>, ready': seq<Pod>, main: string)
    requires PodNames(ready) == PodNames(ready')
    ensures Others(ready, main) == Others(ready', main)
  {
    assert |PodNames(ready)| == |ready| && |PodNames(ready')| == |ready'|;
    if ready != [] {
      assert PodNames(ready)[0] == ready[0].name && PodNames(ready')[0] == ready'[0].name;
      assert PodNames(ready[1..]) == PodNames(ready)[1..] && PodNames(ready'[1..]) == PodNames(ready')[1..];
      OthersByName(ready[1..], ready'[1..], main);
    }
  }

  /**
    Neither the commands nor the outcome of a pass depend on the order in which pods are listed, nor
    on anything about them but which names are ready.
  */
  lemma ListOrderIrrelevant(w: World, main: string, pods: seq<Pod>, pods': seq<Pod>, cfg: Config, f: Faults)
    requires SameReady(pods, pods')
    ensures Configured(w, main, pods, cfg, f) == Configured(w, main, pods', cfg, f)
    ensures Others(ReadySorted(pods), main) == Others(ReadySorted(pods'), main)
    ensures ReadySorted(pods) == [] <==> ReadySorted(pods') == []
  {
    hide ReadySorted, Pass;
    ReadySortedOrderFree(pods, pods');
    OthersByName(ReadySorted(pods), ReadySorted(pods'), main);
    assert |PodNames(ReadySorted(pods))| == |ReadySorted(pods)|;
    assert |PodNames(ReadySorted(pods'))| == |ReadySorted(pods')|;
  }

  /** Once settled, a pass changes nothing, even if calls fail; if none fails, it only reads. */
  lemma SettledStays(w: World, main: string, others: seq<string>, cfg: Config, f: Faults)
    requires Settled(w, main, others) && main !in others
    ensures Pass(w, main, others, cfg, f).world == w
    ensures NoErrors(Pass(w, main, others, cfg, f).calls) ==> forall c <- Pass(w, main, others, cfg, f).calls :: c.cmd.Reads()
  {
    hide Pass;
    PassTrace(w, main, others, cfg, f);
    TraceProgress(Pass(w, main, others, cfg, f), w, main, others, f);
    SettledIsDistanceZero(w, main, others);
    NoChangeKeepsWorld(Pass(w, main, others, cfg, f).calls, w, Pass(w, main, others, cfg, f).world);
    if NoErrors(Pass(w, main, others, cfg, f).calls) {
      SettledReads(w, main, others, cfg, f);
    }
  }

  lemma {:induction false} SettledEach(w: World, main: string, pods: seq<string>, known: set<string>, cfg: Config,
      f: Faults)
    requires forall p <- pods :: w.RoleOf(p) == Replica && ReplicaName(p) in known
    requires NoErrors(ConfigureEach(w, main, pods, known, cfg, f).calls)
    ensures var r := ConfigureEach(w, main, pods, known, cfg, f); r.world == w && forall c <- r.calls :: c.cmd.Reads()
    decreases |pods|
  {
    hide ReplicaName;
    if pods != [] {
      var a := ConfigureOne(w, main, pods[0], known, cfg, f);
      var b := ConfigureEach(a.world, main, pods[1..], known, cfg, f);
      assert a.calls[0] in a.calls + b.calls;
      assert a.calls[0].reply == RoleIs(Replica);
      assert forall c <- b.calls :: c in a.calls + b.calls;
      SettledEach(w, main, pods[1..], known, cfg, f);
    }
  }

  lemma {:induction false} NothingStale(w: World, main: string, rows: seq<string>, expected: set<string>, f: Faults)
    requires forall n <- rows :: n in expected
    ensures DropStale(w, main, rows, expected, f) == Ran(w, [], true)
    decreases |rows|
  {
    if rows != [] { NothingStale(w, main, rows[1..], expected, f); }
  }

  lemma SettledReads(w: World, main: string, others: seq<string>, cfg: Config, f: Faults)
    requires Settled(w, main, others) && NoErrors(Pass(w, main, others, cfg, f).calls)
    ensures forall c <- Pass(w, main, others, cfg, f).calls :: c.cmd.Reads()
  {
    hide ConfigureEach, DropStale, ReplicaName;
    var e, r := EnsureRole(w, main, Main, f), Pass(w, main, others, cfg, f);
    assert r.calls[0] == e.calls[0] && r.calls[0].reply == RoleIs(Main);
    var s := Execute(w, ShowReplicas(main), f(ShowReplicas(main)));
    var rows := ShownNames(s.reply);
    var known := set n <- rows;
    var a := ConfigureEach(w, main, others, known, cfg, f);
    assert r.calls == e.calls + ([s] + a.calls + DropStale(a.world, main, rows, Expected(others), f).calls);
    assert s in r.calls && forall c <- a.calls :: c in r.calls;
    assert forall p <- others :: ReplicaName(p) in Expected(others);
    SettledEach(w, main, others, known, cfg, f);
    NothingStale(w, main, rows, Expected(others), f);
  }

  // Runs with a fixed write instance and fixed readiness

  datatype Attempt = Attempt(pods: seq<Pod>, faults: Faults)

  function RunPasses(w: World, main: string, passes: seq<Attempt>, cfg: Config): Ran
    decreases |passes|
  {
    if passes == [] then Ran(w, [], true)
    else
      var a := Configured(w, main, passes[0].pods, cfg, passes[0].faults);
      var b := RunPasses(a.world, main, passes[1..], cfg);
      Ran(b.world, a.calls + b.calls, true)
  }

  lemma {:induction false} ChangesAppend(a: seq<Call>, b: seq<Call>)
    ensures Changes(a + b) == Changes(a) + Changes(b)
  {
    if a == [] {
      assert a + b == b;
    } else {
      assert (a + b)[1..] == a[1..] + b;
      ChangesAppend(a[1..], b);
    }
  }

  /** Whatever fails, a run changes the cluster exactly as often as it comes closer, so at most Distance(w) times. */
  lemma {:induction false} RunConserves(w: World, main: string, pods: seq<Pod>, passes: seq<Attempt>, cfg: Config)
    requires forall a <- passes :: SameReady(pods, a.pods)
    ensures var r, others := RunPasses(w, main, passes, cfg), Others(ReadySorted(pods), main);
      Changes(r.calls) + Distance(r.world, main, others) == Distance(w, main, others)
    decreases |passes|
  {
    hide Distance, ReadySorted, Pass;
    if passes != [] {
      var a, others := passes[0], Others(ReadySorted(pods), main);
      ListOrderIrrelevant(w, main, pods, a.pods, cfg, a.faults);
      var one := Configured(w, main, pods, cfg, a.faults);
      PassTrace(w, main, others, cfg, a.faults);
      TraceProgress(Pass(w, main, others, cfg, a.faults), w, main, others, a.faults);
      RunConserves(one.world, main, pods, passes[1..], cfg);
      ChangesAppend(one.calls, RunPasses(one.world, main, passes[1..], cfg).calls);
    }
  }

  /** Once settled, always settled. */
  lemma {:induction false} RunStaysSettled(w: World, main: string, pods: seq<Pod>, passes: seq<Attempt>, cfg: Config)
    requires forall a <- passes :: SameReady(pods, a.pods)
    requires Settled(w, main, Others(ReadySorted(pods), main))
    ensures RunPasses(w, main, passes, cfg).world == w
  {
    RunConserves(w, main, pods, passes, cfg);
    SettledIsDistanceZero(w, main, Others(ReadySorted(pods), main));
    RunLinked(w, main, pods, passes, cfg);
    NoChangeKeepsWorld(RunPasses(w, main, passes, cfg).calls, w, RunPasses(w, main, passes, cfg).world);
  }

  lemma {:induction false} RunLinked(w: World, main: string, pods: seq<Pod>, passes: seq<Attempt>, cfg: Config)
    requires forall a <- passes :: SameReady(pods, a.pods)
    ensures Linked(RunPasses(w, main, passes, cfg).calls, w, RunPasses(w, main, passes, cfg).world)
    decreases |passes|
  {
    hide Pass, ReadySorted;
    if passes != [] {
      var a := passes[0];
      var one := Configured(w, main, a.pods, cfg, a.faults);
      PassTrace(w, main, Others(ReadySorted(a.pods), main), cfg, a.faults);
      RunLinked(one.world, main, pods, passes[1..], cfg);
      LinkedAppend(one.calls, RunPasses(one.world, main, passes[1..], cfg).calls, w, one.world, RunPasses(w, main, passes, cfg).world);
    }
  }

  // Runs with disruptions

  /** A restarted pod has lost its replication state; what role it comes up with is not the operator's choice. */
  datatype Step = Restart(pod: string, role: Role) | Reconfigure(main: string, pods: seq<Pod>, faults: Faults)

  function StepWorld(w: World, s: Step, cfg: Config): World {
    match s
    case Restart(p, r) => World(w.roles[p := r], w.regs[p := []])
    case Reconfigure(main, pods, f) => Configured(w, main, pods, cfg, f).world
  }

  function RunSteps(w: World, steps: seq<Step>, cfg: Config): World
    decreases |steps|
  {
    if steps == [] then w else RunSteps(StepWorld(w, steps[0], cfg), steps[1..], cfg)
  }

  /**
    After any run with any disruptions, one pass in which no call fails settles the world, and no
    number of later passes with the same readiness, failing or not, changes it again.
  */
  lemma Converges(w0: World, steps: seq<Step>, main: string, pods: seq<Pod>, f: Faults, later: seq<Attempt>,
      cfg: Config)
    requires DistinctNames(pods) && main != "" && exists p <- pods :: p.IsReady()
    requires forall a <- later :: SameReady(pods, a.pods)
    requires NoErrors(Configured(RunSteps(w0, steps, cfg), main, pods, cfg, f).calls)
    ensures var w := Configured(RunSteps(w0, steps, cfg), main, pods, cfg, f).world;
      && Settled(w, main, Others(ReadySorted(pods), main))
      && RunPasses(w, main, later, cfg).world == w
  {
    hide Pass, RunSteps, Settled, Pod.IsReady;
    assert ReadySorted(pods) != [] by {
      var p :| p in pods && p.IsReady();
      assert p in ReadySorted(pods);
    }
    CompletePassSettles(RunSteps(w0, steps, cfg), main, Others(ReadySorted(pods), main), cfg, f);
    RunStaysSettled(Configured(RunSteps(w0, steps, cfg), main, pods, cfg, f).world, main, pods, later, cfg);
  }
}
