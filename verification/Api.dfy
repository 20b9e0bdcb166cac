/** The API server: what it stores for one cluster, and how writes to it can go. */
module Api {
  import opened Options
  import opened ClusterStatus
  import opened CronJobs

  /** A write may take effect although its caller is told that it failed. */
  datatype WriteOutcome = Applied | Rejected | AppliedButErrored
  {
    predicate TakesEffect() { !Rejected? }

    predicate Succeeds() { Applied? }
  }

  datatype Resource = Resource(finalizer: bool, deleting: bool, status: StatusReport)

  /** The cluster resource, the pod named by the write service's selector, and the snapshot CronJob. */
  datatype Store = Store(cluster: Option<Resource>, service: Option<string>, cronJob: Option<CronSpec>)

  datatype Request =
    | SetFinalizer(present: bool)
    | PutStatus(status: StatusReport)
    | CreateService(pod: string)
    | UpdateService(pod: string)
    | CreateCronJob(spec: CronSpec)
    | UpdateCronJob(spec: CronSpec)
    | DeleteCronJob

  /** What the server adds to a CronJob it is given; see `OnlyUncompared`. */
  type Defaulting = CronSpec -> CronSpec

  ghost predicate OnlyUncompared(d: Defaulting) { forall s :: Compared(d(s)) == Compared(s) }

  /** A resource marked for deletion goes away with its finalizer. */
  function Effect(s: Store, req: Request, d: Defaulting): Store {
    match req
    case SetFinalizer(present) =>
      if s.cluster.None? then s
      else if s.cluster.value.deleting && !present then s.(cluster := None)
      else s.(cluster := Some(s.cluster.value.(finalizer := present)))
    case PutStatus(status) =>
      if s.cluster.None? then s else s.(cluster := Some(s.cluster.value.(status := status)))
    case CreateService(pod) => s.(service := Some(pod))
    case UpdateService(pod) => s.(service := Some(pod))
    case CreateCronJob(spec) => s.(cronJob := Some(d(spec)))
    case UpdateCronJob(spec) => s.(cronJob := Some(d(spec)))
    case DeleteCronJob => s.(cronJob := None)
  }

  function Perform(s: Store, req: Request, o: WriteOutcome, d: Defaulting): Store {
    if o.TakesEffect() then Effect(s, req, d) else s
  }

  /** The outcome of a step that may write: the store, the requests made, and whether it succeeded. */
  datatype Requested = Requested(store: Store, writes: seq<Request>, ok: bool)

  class ApiServer {
    var store: Store
    const defaulting: Defaulting
    /** The write requests so far. */
    ghost var writes: seq<Request>

    constructor (store: Store, defaulting: Defaulting)
      ensures this.store == store && this.defaulting == defaulting && writes == []
    {
      this.store, this.defaulting, writes := store, defaulting, [];
    }

    method Write(req: Request, o: WriteOutcome) returns (ok: bool)
      modifies this
      ensures store == Perform(old(store), req, o, defaulting)
      ensures writes == old(writes) + [req] && ok == o.Succeeds()
    {
      store, writes, ok := Perform(store, req, o, defaulting), writes + [req], o.Succeeds();
    }
  }
}
