/**
  What every pass of the replication protocol keeps and achieves, whatever calls fail.
*/
module ReplicationSafety {
  import opened Replication

  // How far a world is from the wanted one

  function NamesOf(w: World, main: string): set<string> { set n <- w.RegsOf(main) }

  function NotReplica(w: World, others: seq<string>): set<string> {
    set p <- others | w.RoleOf(p) != Replica
  }

  function Distance(w: World, main: string, others: seq<string>): nat {
    (if w.RoleOf(main) == Main then 0 else 1) + |NotReplica(w, others)| +
    |Expected(others) - NamesOf(w, main)| + |NamesOf(w, main) - Expected(others)|
  }

  ghost predicate Settled(w: World, main: string, others: seq<string>) {
    && w.RoleOf(main) == Main
    && (forall p <- others :: w.RoleOf(p) == Replica)
    && NamesOf(w, main) == Expected(others)
  }

  lemma SettledIsDistanceZero(w: World, main: string, others: seq<string>)
    ensures Settled(w, main, others) <==> Distance(w, main, others) == 0
  {
    if Distance(w, main, others) == 0 {
      assert NotReplica(w, others) == {};
      forall p <- others ensures w.RoleOf(p) == Replica {
        assert p !in NotReplica(w, others);
      }
      assert Expected(others) - NamesOf(w, main) == {} && NamesOf(w, main) - Expected(others) == {};
    }
    if Settled(w, main, others) {
      assert NotReplica(w, others) == {};
    }
  }

  // Every call is one of the kinds the protocol needs, and is executed as the failure pattern says

  ghost predicate Aimed(cmd: Command, main: string, others: seq<string>) {
    match cmd
    case GetRole(p) => p == main || p in others
    case ShowReplicas(p) => p == main
    case SetRole(p, r) => (p == main && r == Main) || (p in others && r == Replica)
    case Register(p, n, _, _) => p == main && n in Expected(others)
    case Drop(p, n) => p == main && n !in Expected(others)
  }

  ghost predicate Linked(calls: seq<Call>, w: World, w': World) {
    if calls == [] then w == w' else calls[0].before == w && Linked(calls[1..], calls[0].after, w')
  }

  ghost predicate Faithful(c: Call, f: Faults) { c == Execute(c.before, c.cmd, f(c.cmd)) }

  /** A run of well-aimed calls from one world to another. */
  ghost predicate Trace(r: Ran, w: World, main: string, others: seq<string>, f: Faults) {
    && Linked(r.calls, w, r.world)
    && forall c <- r.calls :: Faithful(c, f) && Aimed(c.cmd, main, others)
  }

  lemma {:induction false} LinkedAppend(a: seq<Call>, b: seq<Call>, w0: World, w1: World, w2: World)
    requires Linked(a, w0, w1) && Linked(b, w1, w2)
    ensures Linked(a + b, w0, w2)
  {
    if a == [] {
      assert a + b == b;
    } else {
      assert (a + b)[1..] == a[1..] + b;
      LinkedAppend(a[1..], b, a[0].after, w1, w2);
    }
  }

  lemma EnsureRoleTrace(w: World, pod: string, role: Role, f: Faults, main: string, others: seq<string>)
    requires (pod == main && role == Main) || (pod in others && role == Replica)
    ensures Trace(EnsureRole(w, pod, role, f), w, main, others, f)
  {
  }

  lemma ConfigureOneTrace(w: World, main: string, pod: string, known: set<string>, cfg: Config, f: Faults,
      others: seq<string>)
    requires pod in others
    ensures Trace(ConfigureOne(w, main, pod, known, cfg, f), w, main, others, f)
  {
    hide EnsureRole, Execute;
    var e, r := EnsureRole(w, pod, Replica, f), ConfigureOne(w, main, pod, known, cfg, f);
    EnsureRoleTrace(w, pod, Replica, f, main, others);
    if r != e {
      var c := Execute(e.world, cfg.RegisterCommand(main, pod), f(cfg.RegisterCommand(main, pod)));
      ExecuteFaithful(e.world, cfg.RegisterCommand(main, pod), f);
      assert Linked([c], e.world, r.world) by { assert [c][1..] == []; }
      LinkedAppend(e.calls, [c], w, e.world, r.world);
    }
  }

  lemma ExecuteFaithful(w: World, cmd: Command, f: Faults)
    ensures var c := Execute(w, cmd, f(cmd)); c.before == w && c.cmd == cmd && Faithful(c, f)
  {
  }

  lemma {:induction false} ConfigureEachTrace(w: World, main: string, pods: seq<string>, known: set<string>,
      cfg: Config, f: Faults, others: seq<string>)
    requires forall p <- pods :: p in others
    ensures Trace(ConfigureEach(w, main, pods, known, cfg, f), w, main, others, f)
    decreases |pods|
  {
    hide ConfigureOne;
    if pods != [] {
      var a := ConfigureOne(w, main, pods[0], known, cfg, f);
      var b := ConfigureEach(a.world, main, pods[1..], known, cfg, f);
      ConfigureOneTrace(w, main, pods[0], known, cfg, f, others);
      ConfigureEachTrace(a.world, main, pods[1..], known, cfg, f, others);
      LinkedAppend(a.calls, b.calls, w, a.world, b.world);
    }
  }

  lemma {:induction false} DropStaleTrace(w: World, main: string, rows: seq<string>, f: Faults, others: seq<string>)
    ensures Trace(DropStale(w, main, rows, Expected(others), f), w, main, others, f)
    decreases |rows|
  {
    hide Execute;
    if rows != [] {
      if rows[0] in Expected(others) {
        DropStaleTrace(w, main, rows[1..], f, others);
      } else {
        ExecuteFaithful(w, Drop(main, rows[0]), f);
        var d := Execute(w, Drop(main, rows[0]), f(Drop(main, rows[0])));
        DropStaleTrace(d.after, main, rows[1..], f, others);
        var b := DropStale(d.after, main, rows[1..], Expected(others), f);
        assert ([d] + b.calls)[1..] == b.calls;
      }
    }
  }

  lemma PassOnMainTrace(w: World, main: string, others: seq<string>, cfg: Config, f: Faults)
    ensures Trace(PassOnMain(w, main, others, cfg, f), w, main, others, f)
  {
    hide Execute, ConfigureEach, DropStale, Expected;
    var s := Execute(w, ShowReplicas(main), f(ShowReplicas(main)));
    ExecuteFaithful(w, ShowReplicas(main), f);
    var rows := ShownNames(s.reply);
    var known := set n <- rows;
    var a := ConfigureEach(s.after, main, others, known, cfg, f);
    var d := DropStale(a.world, main, rows, Expected(others), f);
    ConfigureEachTrace(s.after, main, others, known, cfg, f, others);
    DropStaleTrace(a.world, main, rows, f, others);
    assert Linked([s], w, s.after) by { assert [s][1..] == []; }
    LinkedAppend([s], a.calls, w, s.after, a.world);
    LinkedAppend([s] + a.calls, d.calls, w, a.world, d.world);
  }

  lemma PassTrace(w: World, main: string, others: seq<string>, cfg: Config, f: Faults)
    ensures Trace(Pass(w, main, others, cfg, f), w, main, others, f)
  {
    hide EnsureRole, PassOnMain;
    var e := EnsureRole(w, main, Main, f);
    EnsureRoleTrace(w, main, Main, f, main, others);
    if e.ok {
      PassOnMainTrace(e.world, main, others, cfg, f);
      var r := PassOnMain(e.world, main, others, cfg, f);
      LinkedAppend(e.calls, r.calls, w, e.world, r.world);
    }
  }

  // The distance measure

  lemma OneFewer<T>(a: set<T>, b: set<T>, x: T)
    requires x in a && b == a - {x}
    ensures |b| + 1 == |a|
  {
  }

  lemma SetRoleProgress(w: World, w': World, p: string, r: Role, main: string, others: seq<string>)
    requires Aimed(SetRole(p, r), main, others) && main !in others
    requires w' == Effect(w, SetRole(p, r)) && w' != w
    ensures Distance(w', main, others) + 1 == Distance(w, main, others)
  {
    hide Expected;
    assert w'.RegsOf(main) == w.RegsOf(main);
    assert w.RoleOf(p) == r ==> w.roles[p := r] == w.roles;
    if p == main {
      assert NotReplica(w', others) == NotReplica(w, others);
    } else {
      OneFewer(NotReplica(w, others), NotReplica(w', others), p);
    }
  }

  lemma SameRoles(w: World, w': World, others: seq<string>)
    requires w.roles == w'.roles
    ensures NotReplica(w', others) == NotReplica(w, others)
  {
  }

  lemma RegisteredNames(w: World, w': World, n: string, h: string, m: string, main: string)
    requires w' == Effect(w, Register(main, n, h, m)) && w' != w
    ensures NamesOf(w', main) == NamesOf(w, main) + {n} && n !in NamesOf(w, main)
  {
  }

  lemma RegisterProgress(w: World, w': World, n: string, h: string, m: string, main: string, others: seq<string>)
    requires n in Expected(others)
    requires w' == Effect(w, Register(main, n, h, m)) && w' != w
    ensures Distance(w', main, others) + 1 == Distance(w, main, others)
  {
    hide Expected, NamesOf, NotReplica;
    var e := Expected(others);
    assert NotReplica(w', others) == NotReplica(w, others) by {
      SameRoles(w, w', others);
    }
    assert NamesOf(w', main) == NamesOf(w, main) + {n} && n !in NamesOf(w, main) by {
      RegisteredNames(w, w', n, h, m, main);
    }
    assert NamesOf(w', main) - e == NamesOf(w, main) - e;
    OneFewer(e - NamesOf(w, main), e - NamesOf(w', main), n);
  }

  lemma DropProgress(w: World, w': World, n: string, main: string, others: seq<string>)
    requires n !in Expected(others)
    requires w' == Effect(w, Drop(main, n)) && w' != w
    ensures Distance(w', main, others) + 1 == Distance(w, main, others)
  {
    hide Expected;
    var e := Expected(others);
    assert NotReplica(w', others) == NotReplica(w, others);
    assert NamesOf(w', main) == NamesOf(w, main) - {n};
    assert e - NamesOf(w', main) == e - NamesOf(w, main);
    OneFewer(NamesOf(w, main) - e, NamesOf(w', main) - e, n);
  }

  /** A well-aimed call that changes anything at all brings the world exactly one step closer. */
  lemma CallProgress(c: Call, main: string, others: seq<string>, f: Faults)
    requires Faithful(c, f) && Aimed(c.cmd, main, others) && main !in others
    ensures c.after == c.before || Distance(c.after, main, others) + 1 == Distance(c.before, main, others)
  {
    hide Distance, Expected;
    if c.after != c.before {
      match c.cmd
      case SetRole(p, r) => SetRoleProgress(c.before, c.after, p, r, main, others);
      case Register(_, n, h, m) => RegisterProgress(c.before, c.after, n, h, m, main, others);
      case Drop(_, n) => DropProgress(c.before, c.after, n, main, others);
      case _ => assert false;
    }
  }

  function Changes(calls: seq<Call>): nat {
    if calls == [] then 0 else (if calls[0].after != calls[0].before then 1 else 0) + Changes(calls[1..])
  }

  /** Conservation: the distance lost over a run is the number of calls that changed something. */
  lemma {:induction false} TraceProgress(r: Ran, w: World, main: string, others: seq<string>, f: Faults)
    requires Trace(r, w, main, others, f) && main !in others
    ensures Changes(r.calls) + Distance(r.world, main, others) == Distance(w, main, others)
    decreases |r.calls|
  {
    hide Distance, Faithful, Aimed;
    if r.calls != [] {
      CallProgress(r.calls[0], main, others, f);
      TraceProgress(r.(calls := r.calls[1..]), r.calls[0].after, main, others, f);
    }
  }

  lemma {:induction false} NoChangeKeepsWorld(calls: seq<Call>, w: World, w': World)
    requires Linked(calls, w, w') && Changes(calls) == 0
    ensures w' == w
  {
    if calls != [] {
      NoChangeKeepsWorld(calls[1..], calls[0].after, w');
    }
  }

  // A pass in which no call fails

  ghost predicate NoErrors(calls: seq<Call>) { forall c <- calls :: c.reply != Error }

  lemma EnsureRoleAchieves(w: World, pod: string, role: Role, f: Faults)
    requires role != NoRole
    ensures var r := EnsureRole(w, pod, role, f);
      && (r.ok ==> r.world.RoleOf(pod) == role)
      && (NoErrors(r.calls) ==> r.ok)
      && (forall p :: p != pod ==> r.world.RoleOf(p) == w.RoleOf(p))
      && (w.RoleOf(pod) == role ==> r.world.RoleOf(pod) == role)
      && r.world.regs == w.regs
  {
  }

  /** Roles and registrations after one pod has been seen to. */
  lemma ConfigureOneAchieves(w: World, main: string, pod: string, known: set<string>, cfg: Config, f: Faults)
    requires pod != main
    ensures var r := ConfigureOne(w, main, pod, known, cfg, f);
      && NamesOf(w, main) <= NamesOf(r.world, main) <= NamesOf(w, main) + {ReplicaName(pod)}
      && (forall p :: p != pod ==> r.world.RoleOf(p) == w.RoleOf(p))
      && (w.RoleOf(pod) == Replica ==> r.world.RoleOf(pod) == Replica)
      && (NoErrors(r.calls) ==> r.world.RoleOf(pod) == Replica)
      && (NoErrors(r.calls) ==> ReplicaName(pod) in known || ReplicaName(pod) in NamesOf(r.world, main))
  {
    hide EnsureRole;
    EnsureRoleAchieves(w, pod, Replica, f);
    var e, r := EnsureRole(w, pod, Replica, f), ConfigureOne(w, main, pod, known, cfg, f);
    assert NoErrors(r.calls) ==> NoErrors(e.calls);
    if e.ok && ReplicaName(pod) !in known {
      assert r.calls[|e.calls|] in r.calls;
      var regs := e.world.RegsOf(main);
      assert ReplicaName(pod) in regs + [ReplicaName(pod)];
      assert forall n <- regs :: n in regs + [ReplicaName(pod)];
    }
  }

  lemma {:induction false} ConfigureEachAchieves(w: World, main: string, pods: seq<string>, known: set<string>,
      cfg: Config, f: Faults)
    requires main !in pods
    ensures var r := ConfigureEach(w, main, pods, known, cfg, f);
      && NamesOf(w, main) <= NamesOf(r.world, main) <= NamesOf(w, main) + Expected(pods)
      && r.world.RoleOf(main) == w.RoleOf(main)
      && (forall p :: w.RoleOf(p) == Replica ==> r.world.RoleOf(p) == Replica)
      && (NoErrors(r.calls) ==> forall p <- pods :: r.world.RoleOf(p) == Replica)
      && (NoErrors(r.calls) ==> forall p <- pods :: ReplicaName(p) in known || ReplicaName(p) in NamesOf(r.world, main))
    decreases |pods|
  {
    hide ConfigureOne, ReplicaName;
    if pods != [] {
      var a := ConfigureOne(w, main, pods[0], known, cfg, f);
      var b := ConfigureEach(a.world, main, pods[1..], known, cfg, f);
      ConfigureOneAchieves(w, main, pods[0], known, cfg, f);
      ConfigureEachAchieves(a.world, main, pods[1..], known, cfg, f);
      assert pods == [pods[0]] + pods[1..];
      assert forall c <- a.calls :: c in a.calls + b.calls;
      assert forall c <- b.calls :: c in a.calls + b.calls;
    }
  }

  lemma {:induction false} DropStaleAchieves(w: World, main: string, rows: seq<string>, expected: set<string>,
      f: Faults)
    ensures var r := DropStale(w, main, rows, expected, f);
      && NamesOf(w, main) - ((set n <- rows) - expected) <= NamesOf(r.world, main) <= NamesOf(w, main)
      && r.world.roles == w.roles
      && (NoErrors(r.calls) ==> NamesOf(r.world, main) !! (set n <- rows) - expected)
    decreases |rows|
  {
    if rows != [] {
      assert rows == [rows[0]] + rows[1..];
      if rows[0] in expected {
        DropStaleAchieves(w, main, rows[1..], expected, f);
      } else {
        var d := Execute(w, Drop(main, rows[0]), f(Drop(main, rows[0])));
        DropStaleAchieves(d.after, main, rows[1..], expected, f);
        var r, b := DropStale(w, main, rows, expected, f), DropStale(d.after, main, rows[1..], expected, f);
        assert r.calls[0] == d;
        assert forall c <- b.calls :: c in r.calls;
        assert NamesOf(w, main) - {rows[0]} <= NamesOf(d.after, main) <= NamesOf(w, main);
        assert d.reply != Error ==> rows[0] !in NamesOf(d.after, main);
      }
    }
  }

  /** A pass in which no call fails leaves the world settled. */
  lemma CompletePassSettles(w: World, main: string, others: seq<string>, cfg: Config, f: Faults)
    requires main !in others && NoErrors(Pass(w, main, others, cfg, f).calls)
    ensures Settled(Pass(w, main, others, cfg, f).world, main, others)
  {
    hide EnsureRole, ConfigureEach, DropStale, Execute, Expected;
    var e := EnsureRole(w, main, Main, f);
    EnsureRoleAchieves(w, main, Main, f);
    var r := Pass(w, main, others, cfg, f);
    assert forall c <- e.calls :: c in r.calls;
    assert r.calls == e.calls + PassOnMain(e.world, main, others, cfg, f).calls;
    assert NoErrors(PassOnMain(e.world, main, others, cfg, f).calls);
    PassOnMainSettles(e.world, main, others, cfg, f);
  }

  lemma PassOnMainSettles(w: World, main: string, others: seq<string>, cfg: Config, f: Faults)
    requires main !in others && w.RoleOf(main) == Main && NoErrors(PassOnMain(w, main, others, cfg, f).calls)
    ensures Settled(PassOnMain(w, main, others, cfg, f).world, main, others)
  {
    hide ConfigureEach, DropStale, ReplicaName;
    var s := Execute(w, ShowReplicas(main), f(ShowReplicas(main)));
    var rows := ShownNames(s.reply);
    var known := set n <- rows;
    var a := ConfigureEach(s.after, main, others, known, cfg, f);
    var d := DropStale(a.world, main, rows, Expected(others), f);
    var calls := PassOnMain(w, main, others, cfg, f).calls;
    assert calls == [s] + a.calls + d.calls;
    assert s in calls && (forall c <- a.calls :: c in calls) && (forall c <- d.calls :: c in calls);
    ConfigureEachAchieves(w, main, others, known, cfg, f);
    DropStaleAchieves(a.world, main, rows, Expected(others), f);
  }

  // No registration is lost, and every gap has a failed call to explain it

  ghost predicate HasError(calls: seq<Call>, cmd: Command) {
    exists c <- calls :: c.cmd == cmd && c.reply == Error
  }

  lemma ConfigureOneExplained(w: World, main: string, pod: string, known: set<string>, cfg: Config, f: Faults)
    ensures var r := ConfigureOne(w, main, pod, known, cfg, f);
      || ReplicaName(pod) in known || ReplicaName(pod) in NamesOf(r.world, main)
      || HasError(r.calls, SetRole(pod, Replica)) || HasError(r.calls, cfg.RegisterCommand(main, pod))
  {
    var e, r := EnsureRole(w, pod, Replica, f), ConfigureOne(w, main, pod, known, cfg, f);
    if ReplicaName(pod) !in known {
      var last := r.calls[|r.calls| - 1];
      assert last in r.calls;
      if e.ok && last.reply != Error {
        var regs := e.world.RegsOf(main);
        assert ReplicaName(pod) in regs + [ReplicaName(pod)];
      }
    }
  }

  lemma {:induction false} ConfigureEachExplained(w: World, main: string, pods: seq<string>, known: set<string>,
      cfg: Config, f: Faults, pod: string)
    requires main !in pods && pod in pods
    ensures var r := ConfigureEach(w, main, pods, known, cfg, f);
      || ReplicaName(pod) in known || ReplicaName(pod) in NamesOf(r.world, main)
      || HasError(r.calls, SetRole(pod, Replica)) || HasError(r.calls, cfg.RegisterCommand(main, pod))
    decreases |pods|
  {
    hide ConfigureOne, ReplicaName;
    var a := ConfigureOne(w, main, pods[0], known, cfg, f);
    var b := ConfigureEach(a.world, main, pods[1..], known, cfg, f);
    assert forall c <- a.calls :: c in a.calls + b.calls;
    assert forall c <- b.calls :: c in a.calls + b.calls;
    ConfigureEachAchieves(a.world, main, pods[1..], known, cfg, f);
    if pod == pods[0] {
      ConfigureOneExplained(w, main, pod, known, cfg, f);
    } else {
      ConfigureEachExplained(a.world, main, pods[1..], known, cfg, f, pod);
    }
  }

  lemma {:induction false} DropStaleExplained(w: World, main: string, rows: seq<string>, expected: set<string>,
      f: Faults, name: string)
    requires name in rows && name !in expected
    ensures var r := DropStale(w, main, rows, expected, f);
      name !in NamesOf(r.world, main) || HasError(r.calls, Drop(main, name))
    decreases |rows|
  {
    if rows[0] in expected {
      DropStaleExplained(w, main, rows[1..], expected, f, name);
    } else {
      var d := Execute(w, Drop(main, rows[0]), f(Drop(main, rows[0])));
      var r, b := DropStale(w, main, rows, expected, f), DropStale(d.after, main, rows[1..], expected, f);
      DropStaleAchieves(d.after, main, rows[1..], expected, f);
      assert r.calls[0] == d;
      assert forall c <- b.calls :: c in r.calls;
      if name == rows[0] {
        assert d in r.calls;
      } else {
        DropStaleExplained(d.after, main, rows[1..], expected, f, name);
      }
    }
  }

  lemma {:induction false} NothingDropped(w: World, main: string, pods: seq<string>, known: set<string>, cfg: Config,
      f: Faults)
    ensures forall c <- ConfigureEach(w, main, pods, known, cfg, f).calls :: !c.cmd.Drop? && !c.cmd.ShowReplicas?
    decreases |pods|
  {
    if pods != [] {
      NothingDropped(ConfigureOne(w, main, pods[0], known, cfg, f).world, main, pods[1..], known, cfg, f);
    }
  }

  /** Measured from SHOW REPLICAS, and whatever calls fail. */
  lemma RegistrationGapsExplained(w: World, main: string, others: seq<string>, cfg: Config, f: Faults)
    requires main !in others
    ensures var r, initial, expected := PassOnMain(w, main, others, cfg, f), NamesOf(w, main), Expected(others);
      && initial * expected <= NamesOf(r.world, main) <= initial + expected
      && (forall p <- others :: ReplicaName(p) in NamesOf(r.world, main)
            || HasError(r.calls, SetRole(p, Replica)) || HasError(r.calls, cfg.RegisterCommand(main, p)))
      && (forall n <- NamesOf(r.world, main) - expected ::
            HasError(r.calls, Drop(main, n)) || HasError(r.calls, ShowReplicas(main)))
      && (HasError(r.calls, ShowReplicas(main)) ==> forall c <- r.calls :: !c.cmd.Drop?)
  {
    hide ConfigureEach, DropStale, ReplicaName;
    var s := Execute(w, ShowReplicas(main), f(ShowReplicas(main)));
    var rows := ShownNames(s.reply);
    var known := set n <- rows;
    var a := ConfigureEach(s.after, main, others, known, cfg, f);
    var d := DropStale(a.world, main, rows, Expected(others), f);
    var r := PassOnMain(w, main, others, cfg, f);
    assert r.calls == [s] + a.calls + d.calls;
    assert s in r.calls && (forall c <- a.calls :: c in r.calls) && (forall c <- d.calls :: c in r.calls);
    ConfigureEachAchieves(w, main, others, known, cfg, f);
    DropStaleAchieves(a.world, main, rows, Expected(others), f);
    NothingDropped(s.after, main, others, known, cfg, f);
    DropStaleOnlyDrops(a.world, main, rows, Expected(others), f);
    forall p <- others ensures ReplicaName(p) in NamesOf(r.world, main)
        || HasError(r.calls, SetRole(p, Replica)) || HasError(r.calls, cfg.RegisterCommand(main, p)) {
      ConfigureEachExplained(w, main, others, known, cfg, f, p);
      assert ReplicaName(p) in Expected(others);
    }
    forall n <- NamesOf(r.world, main) - Expected(others)
      ensures HasError(r.calls, Drop(main, n)) || HasError(r.calls, ShowReplicas(main)) {
      if n in rows {
        DropStaleExplained(a.world, main, rows, Expected(others), f, n);
      }
    }
  }

  lemma {:induction false} DropStaleOnlyDrops(w: World, main: string, rows: seq<string>, expected: set<string>,
      f: Faults)
    ensures forall c <- DropStale(w, main, rows, expected, f).calls :: c.cmd.Drop?
    ensures rows == [] ==> DropStale(w, main, rows, expected, f).calls == []
    decreases |rows|
  {
    if rows != [] {
      DropStaleOnlyDrops(w, main, rows[1..], expected, f);
      DropStaleOnlyDrops(Execute(w, Drop(main, rows[0]), f(Drop(main, rows[0]))).after, main, rows[1..], expected, f);
    }
  }
}
