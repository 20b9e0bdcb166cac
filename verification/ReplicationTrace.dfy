/** What holds of the order of the commands of one pass, whatever calls fail. */
module ReplicationTrace {
  import opened Pods
  import opened Replication
  import opened ReplicationSafety

  /** The operator has seen, or has successfully set, this role on this pod. */
  predicate Confirms(c: Call, pod: string, role: Role) {
    (c.cmd == GetRole(pod) && c.reply == RoleIs(role)) || (c.cmd == SetRole(pod, role) && c.reply == Ack)
  }

  ghost predicate ConfirmedBefore(calls: seq<Call>, i: nat, pod: string, role: Role)
    requires i <= |calls|
  {
    exists j :: 0 <= j < i && Confirms(calls[j], pod, role)
  }

  /** A command that may only be issued while the main is known to be MAIN. */
  predicate NeedsMain(cmd: Command, main: string) {
    cmd.Register? || cmd.Drop? || (cmd.SetRole? && cmd.pod != main)
  }

  lemma EnsureRoleConfirms(w: World, pod: string, role: Role, f: Faults)
    ensures var r := EnsureRole(w, pod, role, f);
      && r.calls != []
      && (r.ok ==> Confirms(r.calls[|r.calls| - 1], pod, role))
      && (forall c <- r.calls :: c.cmd == GetRole(pod) || c.cmd == SetRole(pod, role))
  {
  }

  /** No role change elsewhere, REGISTER or DROP comes before MAIN is confirmed on the write instance. */
  lemma MainComesFirst(w: World, main: string, others: seq<string>, cfg: Config, f: Faults, i: nat)
    requires var calls := Pass(w, main, others, cfg, f).calls; i < |calls| && NeedsMain(calls[i].cmd, main)
    ensures ConfirmedBefore(Pass(w, main, others, cfg, f).calls, i, main, Main)
  {
    hide EnsureRole, PassOnMain;
    EnsureRoleConfirms(w, main, Main, f);
    var e, calls := EnsureRole(w, main, Main, f), Pass(w, main, others, cfg, f).calls;
    assert forall k :: 0 <= k < |e.calls| ==> calls[k] == e.calls[k];
    assert Confirms(calls[|e.calls| - 1], main, Main);
  }

  /** Every REGISTER follows the confirmation of REPLICA on the pod it registers. */
  ghost predicate RegistersConfirmed(calls: seq<Call>, main: string, others: seq<string>, cfg: Config) {
    forall i :: 0 <= i < |calls| && calls[i].cmd.Register? ==>
      exists p <- others :: calls[i].cmd == cfg.RegisterCommand(main, p) && ConfirmedBefore(calls, i, p, Replica)
  }

  lemma RegistersConfirmedAppend(a: seq<Call>, b: seq<Call>, main: string, others: seq<string>, cfg: Config)
    requires RegistersConfirmed(a, main, others, cfg) && RegistersConfirmed(b, main, others, cfg)
    ensures RegistersConfirmed(a + b, main, others, cfg)
  {
    var ab := a + b;
    forall i | 0 <= i < |ab| && ab[i].cmd.Register?
      ensures exists p <- others :: ab[i].cmd == cfg.RegisterCommand(main, p) && ConfirmedBefore(ab, i, p, Replica)
    {
      if i < |a| {
        var p :| p in others && a[i].cmd == cfg.RegisterCommand(main, p) && ConfirmedBefore(a, i, p, Replica);
        var j :| 0 <= j < i && Confirms(a[j], p, Replica);
        assert Confirms(ab[j], p, Replica);
      } else {
        var k := i - |a|;
        var p :| p in others && b[k].cmd == cfg.RegisterCommand(main, p) && ConfirmedBefore(b, k, p, Replica);
        var j :| 0 <= j < k && Confirms(b[j], p, Replica);
        assert Confirms(ab[|a| + j], p, Replica);
      }
    }
  }

  lemma ConfigureOneRegisters(w: World, main: string, pod: string, known: set<string>, cfg: Config, f: Faults,
      others: seq<string>)
    requires pod in others
    ensures RegistersConfirmed(ConfigureOne(w, main, pod, known, cfg, f).calls, main, others, cfg)
  {
    hide EnsureRole;
    EnsureRoleConfirms(w, pod, Replica, f);
    var e, calls := EnsureRole(w, pod, Replica, f), ConfigureOne(w, main, pod, known, cfg, f).calls;
    if |calls| > |e.calls| {
      assert Confirms(calls[|e.calls| - 1], pod, Replica);
      assert ConfirmedBefore(calls, |e.calls|, pod, Replica);
    }
  }

  lemma {:induction false} ConfigureEachRegisters(w: World, main: string, pods: seq<string>, known: set<string>,
      cfg: Config, f: Faults, others: seq<string>)
    requires forall p <- pods :: p in others
    ensures RegistersConfirmed(ConfigureEach(w, main, pods, known, cfg, f).calls, main, others, cfg)
    decreases |pods|
  {
    hide ConfigureOne, RegistersConfirmed;
    if pods == [] {
      NoRegisters([], main, others, cfg);
    } else {
      var a := ConfigureOne(w, main, pods[0], known, cfg, f);
      ConfigureOneRegisters(w, main, pods[0], known, cfg, f, others);
      ConfigureEachRegisters(a.world, main, pods[1..], known, cfg, f, others);
      RegistersConfirmedAppend(a.calls, ConfigureEach(a.world, main, pods[1..], known, cfg, f).calls, main, others, cfg);
    }
  }

  lemma NoRegisters(calls: seq<Call>, main: string, others: seq<string>, cfg: Config)
    requires forall c <- calls :: !c.cmd.Register?
    ensures RegistersConfirmed(calls, main, others, cfg)
  {
  }

  lemma RegisterFollowsReplica(w: World, main: string, others: seq<string>, cfg: Config, f: Faults)
    ensures RegistersConfirmed(Pass(w, main, others, cfg, f).calls, main, others, cfg)
  {
    hide EnsureRole, Execute, ConfigureEach, DropStale, RegistersConfirmed;
    EnsureRoleConfirms(w, main, Main, f);
    var e := EnsureRole(w, main, Main, f);
    NoRegisters(e.calls, main, others, cfg);
    if e.ok {
      var s := Execute(e.world, ShowReplicas(main), f(ShowReplicas(main)));
      ExecuteFaithful(e.world, ShowReplicas(main), f);
      var rows := ShownNames(s.reply);
      var known := set n <- rows;
      var a := ConfigureEach(s.after, main, others, known, cfg, f);
      var d := DropStale(a.world, main, rows, Expected(others), f);
      NoRegisters([s], main, others, cfg);
      ConfigureEachRegisters(s.after, main, others, known, cfg, f, others);
      DropStaleOnlyDrops(a.world, main, rows, Expected(others), f);
      NoRegisters(d.calls, main, others, cfg);
      RegistersConfirmedAppend([s], a.calls, main, others, cfg);
      RegistersConfirmedAppend([s] + a.calls, d.calls, main, others, cfg);
      RegistersConfirmedAppend(e.calls, [s] + a.calls + d.calls, main, others, cfg);
    }
  }

  /** Host names contain no underscore, so replacing hyphens keeps them apart. */
  lemma ReplicaNameInjective(p: string, q: string)
    requires '_' !in p && '_' !in q && ReplicaName(p) == ReplicaName(q)
    ensures p == q
  {
  }

  /** The main is never registered with itself, and no name is both registered and dropped. */
  lemma NamesSafe(w: World, main: string, others: seq<string>, cfg: Config, f: Faults)
    requires main !in others && '_' !in main && forall p <- others :: '_' !in p
    ensures var calls := Pass(w, main, others, cfg, f).calls;
      && (forall c <- calls :: c.cmd.Register? ==> c.cmd.replica != ReplicaName(main))
      && (forall c <- calls, d <- calls :: c.cmd.Register? && d.cmd.Drop? ==> c.cmd.replica != d.cmd.replica)
  {
    hide Pass;
    PassTrace(w, main, others, cfg, f);
    forall p <- others ensures ReplicaName(p) != ReplicaName(main) {
      if ReplicaName(p) == ReplicaName(main) { ReplicaNameInjective(p, main); }
    }
  }

  // No command occurs twice, so a failure pattern indexed by commands is fully general

  ghost predicate NoneTwice(calls: seq<Call>) {
    forall i, j :: 0 <= i < j < |calls| ==> calls[i].cmd != calls[j].cmd
  }

  ghost predicate Distinct(names: seq<string>) {
    forall i, j :: 0 <= i < j < |names| ==> names[i] != names[j]
  }

  lemma NoneTwiceAppend(a: seq<Call>, b: seq<Call>)
    requires NoneTwice(a) && NoneTwice(b)
    requires forall c <- a, d <- b :: c.cmd != d.cmd
    ensures NoneTwice(a + b)
  {
  }

  lemma FQDNInjective(cfg: Config, p: string, q: string)
    requires cfg.FQDN(p) == cfg.FQDN(q)
    ensures p == q
  {
    var suffix := "." + cfg.headlessService + "." + cfg.namespace + ".svc.cluster.local";
    assert cfg.FQDN(p) == p + suffix && cfg.FQDN(q) == q + suffix;
    assert |p| == |q|;
    assert p == (p + suffix)[..|p|];
    assert q == (q + suffix)[..|q|];
  }

  /** The commands that see to one pod. */
  ghost predicate Concerns(cmd: Command, main: string, pod: string, cfg: Config) {
    cmd == GetRole(pod) || cmd == SetRole(pod, Replica) || cmd == cfg.RegisterCommand(main, pod)
  }

  lemma ConcernsApart(cmd: Command, cmd': Command, main: string, p: string, q: string, cfg: Config)
    requires Concerns(cmd, main, p, cfg) && Concerns(cmd', main, q, cfg) && p != q
    ensures cmd != cmd'
  {
    hide ReplicaName;
    if cfg.FQDN(p) == cfg.FQDN(q) { FQDNInjective(cfg, p, q); }
  }

  lemma ConfigureOneNoneTwice(w: World, main: string, pod: string, known: set<string>, cfg: Config, f: Faults)
    ensures var calls := ConfigureOne(w, main, pod, known, cfg, f).calls;
      NoneTwice(calls) && forall c <- calls :: Concerns(c.cmd, main, pod, cfg)
  {
    hide ReplicaName;
  }

  lemma {:induction false} ConfigureEachNoneTwice(w: World, main: string, pods: seq<string>, known: set<string>,
      cfg: Config, f: Faults)
    requires Distinct(pods)
    ensures var calls := ConfigureEach(w, main, pods, known, cfg, f).calls;
      NoneTwice(calls) && forall c <- calls :: exists p <- pods :: Concerns(c.cmd, main, p, cfg)
    decreases |pods|
  {
    hide ConfigureOne, Concerns;
    if pods != [] {
      var a := ConfigureOne(w, main, pods[0], known, cfg, f);
      var b := ConfigureEach(a.world, main, pods[1..], known, cfg, f);
      ConfigureOneNoneTwice(w, main, pods[0], known, cfg, f);
      ConfigureEachNoneTwice(a.world, main, pods[1..], known, cfg, f);
      forall c <- a.calls, d <- b.calls ensures c.cmd != d.cmd {
        var p :| p in pods[1..] && Concerns(d.cmd, main, p, cfg);
        ConcernsApart(c.cmd, d.cmd, main, pods[0], p, cfg);
      }
      NoneTwiceAppend(a.calls, b.calls);
      assert pods == [pods[0]] + pods[1..];
      forall c <- a.calls + b.calls ensures exists p <- pods :: Concerns(c.cmd, main, p, cfg) {
        if c in b.calls {
          var p :| p in pods[1..] && Concerns(c.cmd, main, p, cfg);
        }
      }
    }
  }

  lemma {:induction false} DropStaleNoneTwice(w: World, main: string, rows: seq<string>, expected: set<string>,
      f: Faults)
    requires Distinct(rows)
    ensures var calls := DropStale(w, main, rows, expected, f).calls;
      NoneTwice(calls) && forall c <- calls :: exists n <- rows :: c.cmd == Drop(main, n)
    decreases |rows|
  {
    if rows != [] {
      if rows[0] in expected {
        DropStaleNoneTwice(w, main, rows[1..], expected, f);
      } else {
        var d := Execute(w, Drop(main, rows[0]), f(Drop(main, rows[0])));
        DropStaleNoneTwice(d.after, main, rows[1..], expected, f);
        NoneTwiceAppend([d], DropStale(d.after, main, rows[1..], expected, f).calls);
      }
    }
  }

  lemma NoCommandTwice(w: World, main: string, others: seq<string>, cfg: Config, f: Faults)
    requires main !in others && Distinct(others) && Distinct(w.RegsOf(main))
    ensures NoneTwice(Pass(w, main, others, cfg, f).calls)
  {
    hide ConfigureEach, DropStale, Expected;
    var e := EnsureRole(w, main, Main, f);
    if e.ok {
      var s := Execute(e.world, ShowReplicas(main), f(ShowReplicas(main)));
      assert e.world.regs == w.regs;
      var rows := ShownNames(s.reply);
      var known := set n <- rows;
      var a := ConfigureEach(s.after, main, others, known, cfg, f);
      var d := DropStale(a.world, main, rows, Expected(others), f);
      ConfigureEachNoneTwice(s.after, main, others, known, cfg, f);
      DropStaleNoneTwice(a.world, main, rows, Expected(others), f);
      assert forall c <- d.calls :: c.cmd.Drop?;
      assert forall c <- a.calls :: !c.cmd.Drop? && !c.cmd.ShowReplicas? && c.cmd != GetRole(main) && c.cmd != SetRole(main, Main);
      NoneTwiceAppend([s], a.calls);
      NoneTwiceAppend([s] + a.calls, d.calls);
      NoneTwiceAppend(e.calls, [s] + a.calls + d.calls);
    }
  }

  lemma {:induction false} WithoutDistinct(names: seq<string>, name: string)
    requires Distinct(names)
    ensures Distinct(Without(names, name))
  {
    if names != [] {
      WithoutDistinct(names[1..], name);
      var rest := Without(names[1..], name);
      forall j | 0 <= j < |rest| ensures rest[j] != names[0] {
        assert rest[j] in names[1..];
      }
    }
  }

  /** No command makes a registration appear twice. */
  lemma RegistrationsStayDistinct(w: World, cmd: Command, pod: string)
    requires Distinct(w.RegsOf(pod))
    ensures Distinct(Effect(w, cmd).RegsOf(pod))
  {
    if cmd.Drop? {
      WithoutDistinct(w.RegsOf(pod), cmd.replica);
    }
  }

  // The commands, field by field

  ghost predicate Underscored(name: string, pod: string) {
    |name| == |pod| && forall k :: 0 <= k < |name| ==> name[k] == if pod[k] == '-' then '_' else pod[k]
  }

  /** The listed pod `p` is running and ready, and is not the main. */
  ghost predicate OtherReady(pods: seq<Pod>, p: Pod, main: string) {
    p in pods && p.name != main && RunsReady(p)
  }

  ghost predicate Registers(c: Command, main: string, p: Pod, cfg: Config)
    requires c.Register?
  {
    && c.pod == main
    && Underscored(c.replica, p.name)
    && c.host == p.name + "." + cfg.headlessService + "." + cfg.namespace + ".svc.cluster.local"
    && c.mode == if cfg.mode == "" then "ASYNC" else cfg.mode
  }

  /** Whom each command of a pass is sent to, and with what. */
  lemma CommandsExactly(w: World, main: string, pods: seq<Pod>, cfg: Config, f: Faults, c: Call)
    requires c in Configured(w, main, pods, cfg, f).calls
    ensures match c.cmd
      case GetRole(p) => p == main || exists q :: OtherReady(pods, q, main) && q.name == p
      case SetRole(p, r) => (p == main && r == Main) || (r == Replica && exists q :: OtherReady(pods, q, main) && q.name == p)
      case ShowReplicas(p) => p == main
      case Register(_, _, _, _) => exists q :: OtherReady(pods, q, main) && Registers(c.cmd, main, q, cfg)
      case Drop(p, n) => p == main && !exists q :: OtherReady(pods, q, main) && Underscored(n, q.name)
  {
    hide Pass, ReadySorted, RegistersConfirmed, Pod.IsReady, Underscored;
    var others := Others(ReadySorted(pods), main);
    PassTrace(w, main, others, cfg, f);
    assert Aimed(c.cmd, main, others);
    forall n | n in others ensures exists q :: OtherReady(pods, q, main) && q.name == n && Underscored(ReplicaName(n), n) {
      OthersAreReady(pods, main, n);
      UnderscoredExactly(n, ReplicaName(n));
    }
    match c.cmd
    case Register(_, _, _, _) => RegisterCommands(w, main, pods, cfg, f, c);
    case Drop(_, n) =>
      forall q | OtherReady(pods, q, main) ensures !Underscored(n, q.name) {
        ReadyIsOther(pods, main, q);
        UnderscoredExactly(q.name, n);
      }
    case _ =>
  }

  lemma UnderscoredExactly(pod: string, name: string)
    ensures Underscored(name, pod) <==> name == ReplicaName(pod)
  {
  }

  lemma OthersAreReady(pods: seq<Pod>, main: string, name: string)
    requires name in Others(ReadySorted(pods), main)
    ensures exists q :: OtherReady(pods, q, main) && q.name == name
  {
    hide Pod.IsReady;
    var q :| q in ReadySorted(pods) && q.name == name;
    ReadyExactly(q);
    assert OtherReady(pods, q, main);
  }

  lemma ReadyIsOther(pods: seq<Pod>, main: string, q: Pod)
    requires OtherReady(pods, q, main)
    ensures q.name in Others(ReadySorted(pods), main)
  {
    hide Pod.IsReady;
    ReadyExactly(q);
    assert q in ReadySorted(pods);
  }

  lemma RegisterCommands(w: World, main: string, pods: seq<Pod>, cfg: Config, f: Faults, c: Call)
    requires c in Configured(w, main, pods, cfg, f).calls && c.cmd.Register?
    ensures exists q :: OtherReady(pods, q, main) && Registers(c.cmd, main, q, cfg)
  {
    hide Pass, ReadySorted, ConfirmedBefore, OtherReady;
    var others := Others(ReadySorted(pods), main);
    RegisterFollowsReplica(w, main, others, cfg, f);
    var calls := Pass(w, main, others, cfg, f).calls;
    var i :| 0 <= i < |calls| && calls[i] == c;
    var n :| n in others && c.cmd == cfg.RegisterCommand(main, n);
    OthersAreReady(pods, main, n);
    UnderscoredExactly(n, c.cmd.replica);
  }
}
