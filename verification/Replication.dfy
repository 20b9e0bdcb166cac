/**
  One pass of the replication protocol: the commands the operator issues to make one pod MAIN, the
  other ready pods REPLICAs registered with it, and nothing else registered.
*/
module Replication {
  import opened GoStrings
  import opened Pods
  import opened Metrics

  /** `NoRole` stands for an answer that names neither role. */
  datatype Role = Main | Replica | NoRole

  /** What the Memgraph instances hold: each pod's role, and the registrations kept on it. */
  datatype World = World(roles: map<string, Role>, regs: map<string, seq<string>>)
  {
    function RoleOf(pod: string): Role { if pod in roles then roles[pod] else NoRole }

    function RegsOf(pod: string): seq<string> { if pod in regs then regs[pod] else [] }
  }

  datatype Command =
    | GetRole(pod: string)
    | SetRole(pod: string, role: Role)
    | ShowReplicas(pod: string)
    | Register(pod: string, replica: string, host: string, mode: string)
    | Drop(pod: string, replica: string)
  {
    predicate Reads() { GetRole? || ShowReplicas? }
  }

  /** A call that fails may nevertheless have taken effect. */
  datatype Outcome = Done | Failed(applied: bool)

  /** A failure pattern. No command occurs twice in a pass (see `NoCommandTwice`), so this covers them all. */
  type Faults = Command -> Outcome

  datatype Reply = RoleIs(role: Role) | Rows(names: seq<string>) | Ack | Error

  datatype Call = Call(cmd: Command, reply: Reply, before: World, after: World)

  function Without(names: seq<string>, name: string): (r: seq<string>)
    ensures forall n :: n in r <==> n in names && n != name
  {
    if names == [] then []
    else (if names[0] == name then [] else [names[0]]) + Without(names[1..], name)
  }

  function Effect(w: World, cmd: Command): World {
    match cmd
    case SetRole(p, r) => w.(roles := w.roles[p := r])
    case Register(m, n, _, _) => if n in w.RegsOf(m) then w else w.(regs := w.regs[m := w.RegsOf(m) + [n]])
    case Drop(m, n) => if n in w.RegsOf(m) then w.(regs := w.regs[m := Without(w.RegsOf(m), n)]) else w
    case _ => w
  }

  /** Registering a name twice is an error; dropping an unknown name is not (the client ignores it). */
  function Answer(w: World, cmd: Command): Reply {
    match cmd
    case GetRole(p) => RoleIs(w.RoleOf(p))
    case ShowReplicas(p) => Rows(w.RegsOf(p))
    case SetRole(_, _) => Ack
    case Register(m, n, _, _) => if n in w.RegsOf(m) then Error else Ack
    case Drop(_, _) => Ack
  }

  function Execute(w: World, cmd: Command, o: Outcome): Call {
    match o
    case Done => Call(cmd, Answer(w, cmd), w, Effect(w, cmd))
    case Failed(applied) => Call(cmd, Error, w, if applied then Effect(w, cmd) else w)
  }

  class MemgraphClient {
    var world: World
    const faults: Faults
    ghost var calls: seq<Call>

    constructor (world: World, faults: Faults)
      ensures this.world == world && this.faults == faults && calls == []
    {
      this.world, this.faults, calls := world, faults, [];
    }

    method Issue(cmd: Command) returns (reply: Reply)
      modifies this
      ensures var c := Execute(old(world), cmd, faults(cmd));
        world == c.after && reply == c.reply && calls == old(calls) + [c]
    {
      var c := Execute(world, cmd, faults(cmd));
      world, reply, calls := c.after, c.reply, calls + [c];
    }
  }

  // The pass as a function of the world and the failure pattern

  function ReplicaName(pod: string): string { ReplaceAll(pod, '-', '_') }

  datatype Config = Config(name: string, namespace: string, headlessService: string, mode: string)
  {
    function Mode(): string { if mode == "" then "ASYNC" else mode }

    function FQDN(pod: string): string {
      pod + "." + headlessService + "." + namespace + ".svc.cluster.local"
    }

    function Owner(): Owner { Metrics.Owner(name, namespace) }

    function RegisterCommand(main: string, pod: string): Command {
      Register(main, ReplicaName(pod), FQDN(pod), Mode())
    }
  }

  datatype Ran = Ran(world: World, calls: seq<Call>, ok: bool)

  function EnsureRole(w: World, pod: string, role: Role, f: Faults): Ran {
    var g := Execute(w, GetRole(pod), f(GetRole(pod)));
    if g.reply == RoleIs(role) then Ran(g.after, [g], true)
    else
      var s := Execute(g.after, SetRole(pod, role), f(SetRole(pod, role)));
      Ran(s.after, [g, s], s.reply != Error)
  }

  function ConfigureOne(w: World, main: string, pod: string, known: set<string>, cfg: Config, f: Faults): Ran {
    var e := EnsureRole(w, pod, Replica, f);
    if !e.ok || ReplicaName(pod) in known then e
    else
      var cmd := cfg.RegisterCommand(main, pod);
      var r := Execute(e.world, cmd, f(cmd));
      Ran(r.after, e.calls + [r], r.reply != Error)
  }

  function ConfigureEach(w: World, main: string, pods: seq<string>, known: set<string>, cfg: Config, f: Faults): Ran
    decreases |pods|
  {
    if pods == [] then Ran(w, [], true)
    else
      var a := ConfigureOne(w, main, pods[0], known, cfg, f);
      var b := ConfigureEach(a.world, main, pods[1..], known, cfg, f);
      Ran(b.world, a.calls + b.calls, true)
  }

  function DropStale(w: World, main: string, rows: seq<string>, expected: set<string>, f: Faults): Ran
    decreases |rows|
  {
    if rows == [] then Ran(w, [], true)
    else if rows[0] in expected then DropStale(w, main, rows[1..], expected, f)
    else
      var d := Execute(w, Drop(main, rows[0]), f(Drop(main, rows[0])));
      var b := DropStale(d.after, main, rows[1..], expected, f);
      Ran(b.world, [d] + b.calls, true)
  }

  /** The names of the ready pods other than the main, in the order they are visited. */
  function Others(ready: seq<Pod>, main: string): (names: seq<string>)
    ensures main !in names
    ensures forall n :: n in names <==> n != main && exists p <- ready :: p.name == n
  {
    if ready == [] then []
    else (if ready[0].name == main then [] else [ready[0].name]) + Others(ready[1..], main)
  }

  function Expected(others: seq<string>): set<string> { set p <- others :: ReplicaName(p) }

  function ShownNames(reply: Reply): seq<string> { if reply.Rows? then reply.names else [] }

  /** The pass once MAIN is in place. */
  function PassOnMain(w: World, main: string, others: seq<string>, cfg: Config, f: Faults): Ran {
    var s := Execute(w, ShowReplicas(main), f(ShowReplicas(main)));
    var rows := ShownNames(s.reply);
    var a := ConfigureEach(s.after, main, others, (set n <- rows), cfg, f);
    var d := DropStale(a.world, main, rows, Expected(others), f);
    Ran(d.world, [s] + a.calls + d.calls, true)
  }

  function Pass(w: World, main: string, others: seq<string>, cfg: Config, f: Faults): Ran {
    var e := EnsureRole(w, main, Main, f);
    if !e.ok then e
    else
      var r := PassOnMain(e.world, main, others, cfg, f);
      Ran(r.world, e.calls + r.calls, true)
  }

  function Configured(w: World, main: string, pods: seq<Pod>, cfg: Config, f: Faults): Ran {
    if main == "" || ReadySorted(pods) == [] then Ran(w, [], true)
    else Pass(w, main, Others(ReadySorted(pods), main), cfg, f)
  }

  /** The names whose DROP succeeded. */
  function Dropped(calls: seq<Call>): set<string> {
    set c <- calls | c.cmd.Drop? && c.reply != Error :: c.cmd.replica
  }

  function SeriesOf(o: Owner, names: set<string>): set<Series> { set n <- names :: Series(o, n) }

  lemma DroppedAppend(a: seq<Call>, b: seq<Call>)
    ensures Dropped(a + b) == Dropped(a) + Dropped(b)
  {
    assert forall c :: c in a + b <==> c in a || c in b;
  }

  lemma EnsureRoleDropsNothing(w: World, pod: string, role: Role, f: Faults)
    ensures Dropped(EnsureRole(w, pod, role, f).calls) == {}
  {
  }

  lemma ConfigureOneDropsNothing(w: World, main: string, pod: string, known: set<string>, cfg: Config, f: Faults)
    ensures Dropped(ConfigureOne(w, main, pod, known, cfg, f).calls) == {}
  {
    hide EnsureRole;
    EnsureRoleDropsNothing(w, pod, Replica, f);
  }

  lemma {:induction false} ConfiguringDropsNothing(w: World, main: string, pods: seq<string>, known: set<string>,
      cfg: Config, f: Faults)
    ensures Dropped(ConfigureEach(w, main, pods, known, cfg, f).calls) == {}
    decreases |pods|
  {
    hide ConfigureOne, Dropped;
    if pods == [] {
      NoSeriesGone(cfg.Owner());
    } else {
      var a := ConfigureOne(w, main, pods[0], known, cfg, f);
      ConfigureOneDropsNothing(w, main, pods[0], known, cfg, f);
      ConfiguringDropsNothing(a.world, main, pods[1..], known, cfg, f);
      DroppedAppend(a.calls, ConfigureEach(a.world, main, pods[1..], known, cfg, f).calls);
    }
  }

  /** Only the cleanup at the end of a pass drops anything. */
  lemma PassDrops(w: World, main: string, others: seq<string>, cfg: Config, f: Faults)
    requires EnsureRole(w, main, Main, f).ok
    ensures var e := EnsureRole(w, main, Main, f);
      var s := Execute(e.world, ShowReplicas(main), f(ShowReplicas(main)));
      var rows := ShownNames(s.reply);
      var a := ConfigureEach(s.after, main, others, (set n <- rows), cfg, f);
      Dropped(Pass(w, main, others, cfg, f).calls) == Dropped(DropStale(a.world, main, rows, Expected(others), f).calls)
  {
    hide EnsureRole, ConfigureEach, DropStale, Execute, Expected, Dropped;
    var e := EnsureRole(w, main, Main, f);
    var s := Execute(e.world, ShowReplicas(main), f(ShowReplicas(main)));
    var rows := ShownNames(s.reply);
    var a := ConfigureEach(s.after, main, others, (set n <- rows), cfg, f);
    var d := DropStale(a.world, main, rows, Expected(others), f);
    EnsureRoleDropsNothing(w, main, Main, f);
    ConfiguringDropsNothing(s.after, main, others, (set n <- rows), cfg, f);
    DroppedAppend(e.calls, [s] + a.calls + d.calls);
    DroppedAppend([s] + a.calls, d.calls);
    DroppedAppend([s], a.calls);
    ReadDropsNothing(e.world, main, f);
  }

  lemma ReadDropsNothing(w: World, main: string, f: Faults)
    ensures Dropped([Execute(w, ShowReplicas(main), f(ShowReplicas(main)))]) == {}
  {
  }

  // The imperative form

  method EnsureMainRole(client: MemgraphClient, pod: string) returns (ok: bool)
    modifies client
    ensures var r := EnsureRole(old(client.world), pod, Main, client.faults);
      client.world == r.world && client.calls == old(client.calls) + r.calls && ok == r.ok
  {
    var current := client.Issue(GetRole(pod));
    if current == RoleIs(Main) {
      return true;
    }
    var reply := client.Issue(SetRole(pod, Main));
    return reply != Error;
  }

  method EnsureReplicaRole(client: MemgraphClient, pod: string) returns (ok: bool)
    modifies client
    ensures var r := EnsureRole(old(client.world), pod, Replica, client.faults);
      client.world == r.world && client.calls == old(client.calls) + r.calls && ok == r.ok
  {
    var current := client.Issue(GetRole(pod));
    if current == RoleIs(Replica) {
      return true;
    }
    var reply := client.Issue(SetRole(pod, Replica));
    return reply != Error;
  }

  /** A replica that is dropped also loses the series the health check wrote for it. */
  method CleanupStaleReplicas(client: MemgraphClient, metrics: MetricsRecorder, cfg: Config, main: string,
                              ready: seq<Pod>, rows: seq<string>)
    modifies client, metrics`timed
    ensures var r := DropStale(old(client.world), main, rows, Expected(Others(ready, main)), client.faults);
      && client.world == r.world && client.calls == old(client.calls) + r.calls
      && metrics.timed == old(metrics.timed).Without(SeriesOf(cfg.Owner(), Dropped(r.calls)))
  {
    hide Execute, Dropped, SeriesOf, Others;
    var expected := {};
    for i := 0 to |ready|
      invariant expected == set p <- ready[..i] | p.name != main :: ReplicaName(p.name)
    {
      if ready[i].name != main {
        expected := expected + {ReplicaName(ready[i].name)};
      }
    }
    assert ready[..|ready|] == ready;
    assert expected == Expected(Others(ready, main));
    ghost var w0, c0 := client.world, client.calls;
    ghost var done: seq<Call> := [];
    NoSeriesGone(cfg.Owner());
    for i := 0 to |rows|
      invariant client.calls == c0 + done
      invariant metrics.timed == old(metrics.timed).Without(SeriesOf(cfg.Owner(), Dropped(done)))
      invariant var whole, rest := DropStale(w0, main, rows, expected, client.faults),
                                   DropStale(client.world, main, rows[i..], expected, client.faults);
        whole.world == rest.world && c0 + whole.calls == client.calls + rest.calls
    {
      assert rows[i..][1..] == rows[i + 1..];
      ghost var c1 := client.calls;
      if rows[i] !in expected {
        ghost var before := client.world;
        ghost var d := Execute(before, Drop(main, rows[i]), client.faults(Drop(main, rows[i])));
        ghost var rest := DropStale(d.after, main, rows[i + 1..], expected, client.faults);
        assert c1 + ([d] + rest.calls) == (c1 + [d]) + rest.calls;
        var reply := client.Issue(Drop(main, rows[i]));
        ExecuteKeepsCommand(before, Drop(main, rows[i]), client.faults(Drop(main, rows[i])));
        if reply != Error {
          metrics.DeleteReplicaMetrics(cfg.name, cfg.namespace, rows[i]);
        }
        OneMoreDrop(old(metrics.timed), cfg.Owner(), done, d);
        done := done + [d];
      }
    }
    ghost var whole := DropStale(w0, main, rows, expected, client.faults).calls;
    assert rows[|rows|..] == [];
    assert whole == (c0 + whole)[|c0|..] == (c0 + done)[|c0|..] == done;
  }

  lemma NoSeriesGone(o: Owner)
    ensures Dropped([]) == {} && SeriesOf(o, {}) == {}
    ensures forall g: TimedGauges :: g.Without({}) == g
  {
  }

  lemma ExecuteKeepsCommand(w: World, cmd: Command, o: Outcome)
    ensures Execute(w, cmd, o).cmd == cmd
  {
  }

  lemma OneMoreDrop(g: TimedGauges, o: Owner, calls: seq<Call>, c: Call)
    requires c.cmd.Drop?
    ensures g.Without(SeriesOf(o, Dropped(calls + [c]))) ==
            if c.reply == Error then g.Without(SeriesOf(o, Dropped(calls)))
            else g.Without(SeriesOf(o, Dropped(calls))).Without({Series(o, c.cmd.replica)})
  {
    DroppedAppend(calls, [c]);
    assert Dropped([c]) == if c.reply == Error then {} else {c.cmd.replica};
  }

  /** Fails only when MAIN cannot be put in place; other failures leave work for the next pass. */
  method ConfigureReplication(client: MemgraphClient, metrics: MetricsRecorder, cfg: Config, pods: seq<Pod>,
      writeInstance: string)
    returns (ok: bool)
    modifies client, metrics`timed
    ensures var r := Configured(old(client.world), writeInstance, pods, cfg, client.faults);
      && client.world == r.world && client.calls == old(client.calls) + r.calls && ok == r.ok
      && metrics.timed == old(metrics.timed).Without(SeriesOf(cfg.Owner(), Dropped(r.calls)))
  {
    NoSeriesGone(cfg.Owner());
    hide SeriesOf, Dropped, EnsureRole, ConfigureEach, DropStale, Execute, ReadySorted, Others, Expected;
    if writeInstance == "" {
      return true;
    }
    var ready := GetReadyPodsSorted(pods);
    if |ready| == 0 {
      return true;
    }
    EnsureRoleDropsNothing(client.world, writeInstance, Main, client.faults);
    ok := EnsureMainRole(client, writeInstance);
    if !ok {
      return false;
    }
    PassDrops(old(client.world), writeInstance, Others(ready, writeInstance), cfg, client.faults);
    var reply := client.Issue(ShowReplicas(writeInstance));
    var rows := if reply.Rows? then reply.names else [];
    var known := set n <- rows;
    ConfigureReplicas(client, cfg, ready, writeInstance, known);
    CleanupStaleReplicas(client, metrics, cfg, writeInstance, ready, rows);
    return true;
  }

  /** The loop over the ready pods. */
  method ConfigureReplicas(client: MemgraphClient, cfg: Config, ready: seq<Pod>, main: string, known: set<string>)
    modifies client
    ensures var r := ConfigureEach(old(client.world), main, Others(ready, main), known, cfg, client.faults);
      client.world == r.world && client.calls == old(client.calls) + r.calls
  {
    hide ConfigureOne;
    ghost var w0, c0 := client.world, client.calls;
    for i := 0 to |ready|
      invariant var whole, rest := ConfigureEach(w0, main, Others(ready, main), known, cfg, client.faults),
                                   ConfigureEach(client.world, main, Others(ready[i..], main), known, cfg, client.faults);
        whole.world == rest.world && c0 + whole.calls == client.calls + rest.calls
    {
      assert ready[i..][1..] == ready[i + 1..];
      if ready[i].name == main {
        assert Others(ready[i..], main) == Others(ready[i + 1..], main);
        continue;
      }
      ghost var others, c1 := Others(ready[i..], main), client.calls;
      assert others[0] == ready[i].name && others[1..] == Others(ready[i + 1..], main);
      ghost var one := ConfigureOne(client.world, main, others[0], known, cfg, client.faults);
      ghost var rest := ConfigureEach(one.world, main, others[1..], known, cfg, client.faults);
      var _ := ConfigureReplica(client, cfg, ready[i].name, main, known);
      assert c1 + (one.calls + rest.calls) == (c1 + one.calls) + rest.calls;
    }
  }

  /** The body of that loop. */
  method ConfigureReplica(client: MemgraphClient, cfg: Config, pod: string, main: string, known: set<string>)
    returns (ok: bool)
    modifies client
    ensures var r := ConfigureOne(old(client.world), main, pod, known, cfg, client.faults);
      client.world == r.world && client.calls == old(client.calls) + r.calls && ok == r.ok
  {
    hide EnsureRole, Execute;
    ok := EnsureReplicaRole(client, pod);
    if !ok {
      return false;
    }
    if ReplicaName(pod) !in known {
      var reply := client.Issue(cfg.RegisterCommand(main, pod));
      if reply == Error {
        return false;
      }
    }
    return true;
  }
}
