/** Pods as the operator sees them, and the order it visits the ready ones in. */
module Pods {
  import opened GoStrings

  datatype PodCondition = PodCondition(kind: string, status: string)

  datatype Pod = Pod(name: string, phase: string, conditions: seq<PodCondition>)
  {
    predicate IsReady() {
      phase == "Running" && exists c <- conditions :: c.kind == "Ready" && c.status == "True"
    }
  }

  /** Pod names are unique within a namespace. */
  ghost predicate DistinctNames(pods: seq<Pod>) {
    forall i, j :: 0 <= i < j < |pods| ==> pods[i].name != pods[j].name
  }

  /** What a ready pod is, for the statements about readiness. */
  ghost predicate RunsReady(p: Pod) { p.phase == "Running" && PodCondition("Ready", "True") in p.conditions }

  lemma ReadyExactly(p: Pod)
    ensures p.IsReady() <==> RunsReady(p)
  {
    if p.IsReady() {
      var c :| c in p.conditions && c.kind == "Ready" && c.status == "True";
      assert c == PodCondition("Ready", "True");
    }
  }

  /** A ready pod of this name is listed. */
  ghost predicate ReadyNamed(pods: seq<Pod>, name: string) {
    exists p <- pods :: p.name == name && p.IsReady()
  }

  function ReadyPods(pods: seq<Pod>): (ready: seq<Pod>)
    ensures forall p :: p in ready <==> p in pods && p.IsReady()
  {
    if pods == [] then []
    else
      assert pods == pods[..|pods| - 1] + [pods[|pods| - 1]];
      ReadyPods(pods[..|pods| - 1]) + if pods[|pods| - 1].IsReady() then [pods[|pods| - 1]] else []
  }

  function Insert(p: Pod, sorted: seq<Pod>): (r: seq<Pod>)
    ensures forall q :: q in r <==> q == p || q in sorted
    ensures |r| == |sorted| + 1
  {
    if sorted == [] || Less(p.name, sorted[0].name) then [p] + sorted
    else [sorted[0]] + Insert(p, sorted[1..])
  }

  /** What sorting by name yields. */
  function Sorted(pods: seq<Pod>): (r: seq<Pod>)
    ensures forall q :: q in r <==> q in pods
    ensures |r| == |pods|
  {
    if pods == [] then [] else Insert(pods[0], Sorted(pods[1..]))
  }

  ghost predicate Ascending(pods: seq<Pod>) {
    forall i, j :: 0 <= i < j < |pods| ==> Less(pods[i].name, pods[j].name)
  }

  lemma {:induction false} InsertAscending(p: Pod, sorted: seq<Pod>)
    requires Ascending(sorted) && forall q <- sorted :: q.name != p.name
    ensures Ascending(Insert(p, sorted))
  {
    var r := Insert(p, sorted);
    if sorted != [] {
      if Less(p.name, sorted[0].name) {
        forall j | 0 <= j < |sorted| ensures Less(p.name, sorted[j].name) {
          if j > 0 { LessTransitive(p.name, sorted[0].name, sorted[j].name); }
        }
      } else {
        LessTotal(p.name, sorted[0].name);
        InsertAscending(p, sorted[1..]);
        forall j | 0 < j < |r| ensures Less(r[0].name, r[j].name) {
          assert r[j] in Insert(p, sorted[1..]);
        }
      }
    }
  }

  lemma {:induction false} SortedAscending(pods: seq<Pod>)
    requires DistinctNames(pods)
    ensures Ascending(Sorted(pods))
  {
    if pods != [] {
      SortedAscending(pods[1..]);
      InsertAscending(pods[0], Sorted(pods[1..]));
    }
  }

  function PodNames(pods: seq<Pod>): seq<string> {
    seq(|pods|, i requires 0 <= i < |pods| => pods[i].name)
  }

  ghost predicate NamesAscending(names: seq<string>) {
    forall i, j :: 0 <= i < j < |names| ==> Less(names[i], names[j])
  }

  /** An ascending sequence is determined by its elements. */
  lemma {:induction false} AscendingUnique(a: seq<string>, b: seq<string>)
    requires NamesAscending(a) && NamesAscending(b)
    requires forall n :: n in a <==> n in b
    ensures a == b
  {
    assert b == [] || b[0] in b;
    if a == [] {
    } else {
      assert a[0] in b && b != [] && b[0] in a;
      var j :| 0 <= j < |b| && b[j] == a[0];
      var i :| 0 <= i < |a| && a[i] == b[0];
      if a[0] != b[0] {
        LessTransitive(a[0], b[0], a[0]);
        LessIrreflexive(a[0]);
        assert false;
      }
      forall n ensures n in a[1..] <==> n in b[1..] {
        LessIrreflexive(a[0]);
        assert a == [a[0]] + a[1..] && b == [b[0]] + b[1..];
        if n in a[1..] {
          var k :| 0 <= k < |a[1..]| && a[1..][k] == n;
          assert a[k + 1] == n && Less(a[0], n) && n in b;
        }
        if n in b[1..] {
          var k :| 0 <= k < |b[1..]| && b[1..][k] == n;
          assert b[k + 1] == n && Less(b[0], n) && n in a;
        }
      }
      AscendingUnique(a[1..], b[1..]);
      assert a == [a[0]] + a[1..] && b == [b[0]] + b[1..];
    }
  }

  function ReadySorted(pods: seq<Pod>): seq<Pod> { Sorted(ReadyPods(pods)) }

  method GetReadyPodsSorted(pods: seq<Pod>) returns (ready: seq<Pod>)
    ensures ready == ReadySorted(pods)
  {
    hide Pod.IsReady;
    ready := [];
    for i := 0 to |pods|
      invariant ready == ReadyPods(pods[..i])
    {
      assert pods[..i + 1][..i] == pods[..i];
      if pods[i].IsReady() {
        ready := ready + [pods[i]];
      }
    }
    assert pods[..|pods|] == pods;
    ready := Sorted(ready);
  }

  lemma {:induction false} ReadyDistinct(pods: seq<Pod>)
    requires DistinctNames(pods)
    ensures DistinctNames(ReadyPods(pods))
  {
    hide Pod.IsReady;
    if pods != [] {
      ReadyDistinct(pods[..|pods| - 1]);
      var front, last := ReadyPods(pods[..|pods| - 1]), pods[|pods| - 1];
      forall i | 0 <= i < |front| ensures front[i].name != last.name {
        assert front[i] in pods[..|pods| - 1];
      }
    }
  }

  /** Which names are ready determines the order in which they are visited, however the pods are listed. */
  lemma ReadySortedOrderFree(pods: seq<Pod>, pods': seq<Pod>)
    requires DistinctNames(pods) && DistinctNames(pods')
    requires forall n :: ReadyNamed(pods, n) <==> ReadyNamed(pods', n)
    ensures PodNames(ReadySorted(pods)) == PodNames(ReadySorted(pods'))
    ensures Ascending(ReadySorted(pods))
  {
    hide Pod.IsReady, ReadyNamed;
    ReadyDistinct(pods);
    ReadyDistinct(pods');
    SortedAscending(ReadyPods(pods));
    SortedAscending(ReadyPods(pods'));
    forall n ensures n in PodNames(ReadySorted(pods)) <==> n in PodNames(ReadySorted(pods')) {
      ReadySortedNames(pods, n);
      ReadySortedNames(pods', n);
    }
    AscendingUnique(PodNames(ReadySorted(pods)), PodNames(ReadySorted(pods')));
  }

  lemma ReadySortedNames(pods: seq<Pod>, name: string)
    ensures name in PodNames(ReadySorted(pods)) <==> ReadyNamed(pods, name)
  {
    hide Pod.IsReady;
    var ready := ReadySorted(pods);
    if name in PodNames(ready) {
      var i :| 0 <= i < |ready| && ready[i].name == name;
      assert ready[i] in ready;
    }
    if ReadyNamed(pods, name) {
      var p :| p in pods && p.name == name && p.IsReady();
      assert p in ready;
      var i :| 0 <= i < |ready| && ready[i] == p;
      assert PodNames(ready)[i] == name;
    }
  }
}
