/** The two-phase message schedule of the join-tree algorithm as a protocol over a tree:
    which messages may be sent when, and why the schedule completes. */
module Schedules {
  import opened Trees

  /** `toSend[i]` and `toReceive[i]` are the remaining message sets of node i;
      `log` is the history of messages (from, to). */
  datatype Schedule = Schedule(toSend: seq<set<nat>>, toReceive: seq<set<nat>>, log: seq<(nat, nat)>)

  ghost predicate Sized(g: Graph, s: Schedule)
  {
    |s.toSend| == g.n && |s.toReceive| == g.n
  }

  ghost predicate Sent(g: Graph, s: Schedule, i: nat, j: nat)
    requires Sized(g, s)
  {
    i < g.n && j in Neighbours(g, i) && j !in s.toSend[i]
  }

  /** What is still to be sent over an edge is what is still to be received at its other end. */
  ghost predicate BooksOk(g: Graph, s: Schedule)
    requires WellFormed(g)
  {
    && Sized(g, s)
    && (forall i :: 0 <= i < g.n ==> s.toSend[i] <= Neighbours(g, i))
    && (forall i :: 0 <= i < g.n ==> s.toReceive[i] <= Neighbours(g, i))
    && (forall i: nat, j: nat ::
          i < g.n && j < g.n && j in Neighbours(g, i) ==> (i in s.toReceive[j] <==> j in s.toSend[i]))
  }

  /** A node sends to `to` only after hearing from all its other neighbours. */
  ghost predicate OrderOk(g: Graph, s: Schedule)
    requires Sized(g, s)
  {
    forall i: nat, j: nat :: Sent(g, s, i, j) ==> s.toReceive[i] <= {j}
  }

  /** Phase one moves towards the root: a parent answers only a child that has reported,
      and a node's first message goes up. */
  ghost predicate PhaseOk(g: Graph, r: Rooting, s: Schedule)
    requires Sized(g, s) && IsRooting(g, 0, r)
  {
    && (forall c: nat :: 0 < c < g.n && Sent(g, s, r.parent[c], c) ==> Sent(g, s, c, r.parent[c]))
    && (forall c: nat :: 0 < c < g.n && !Sent(g, s, c, r.parent[c]) ==> s.toSend[c] == Neighbours(g, c))
  }

  /** Entry `n` of the history comes after a message from every other neighbour of its sender. */
  ghost predicate InOrder(g: Graph, log: seq<(nat, nat)>, n: nat)
    requires n < |log|
  {
    forall m :: m in Neighbours(g, log[n].0) && m != log[n].1 ==> (m, log[n].0) in log[..n]
  }

  /** The history holds each sent message exactly once, in a permitted order. */
  ghost predicate LogOk(g: Graph, s: Schedule)
    requires Sized(g, s)
  {
    && (forall i: nat, j: nat :: (i, j) in s.log <==> Sent(g, s, i, j))
    && (forall n, m :: 0 <= n < m < |s.log| ==> s.log[n] != s.log[m])
    && (forall n: nat :: n < |s.log| ==> InOrder(g, s.log, n))
  }

  ghost predicate ScheduleOk(g: Graph, r: Rooting, s: Schedule)
    requires WellFormed(g) && IsRooting(g, 0, r)
  {
    BooksOk(g, s) && OrderOk(g, s) && PhaseOk(g, r, s) && LogOk(g, s)
  }

  // ---------------------------------------------------------------- steps

  /** First message of a node other than the root: it has sent nothing and misses one reply. */
  ghost predicate MayReport(g: Graph, s: Schedule, i: nat, to: nat)
    requires Sized(g, s)
  {
    0 < i < g.n && s.toSend[i] == Neighbours(g, i) && s.toReceive[i] == {to}
  }

  /** Any later message: the node has heard from everybody. */
  ghost predicate MayDistribute(g: Graph, s: Schedule, i: nat, to: nat)
    requires Sized(g, s)
  {
    i < g.n && s.toReceive[i] == {} && to in s.toSend[i]
  }

  function AfterSend(s: Schedule, i: nat, to: nat): (t: Schedule)
    requires i < |s.toSend| && to < |s.toReceive|
  {
    Schedule(s.toSend[i := s.toSend[i] - {to}], s.toReceive[to := s.toReceive[to] - {i}], s.log + [(i, to)])
  }

  lemma StepTarget(g: Graph, r: Rooting, s: Schedule, i: nat, to: nat)
    requires WellFormed(g) && IsRooting(g, 0, r) && ScheduleOk(g, r, s)
    requires MayReport(g, s, i, to) || MayDistribute(g, s, i, to)
    ensures to in Neighbours(g, i) && i in Neighbours(g, to) && to < g.n && i < g.n && i != to
    ensures to in s.toSend[i] && s.toReceive[i] <= {to}
    ensures i in s.toReceive[to]
  {
    NeighboursSymmetric(g, i, to);
  }

  lemma SentAfter(g: Graph, s: Schedule, i: nat, to: nat)
    requires WellFormed(g) && BooksOk(g, s) && i < g.n && to < g.n && to in Neighbours(g, i)
    ensures forall a: nat, b: nat :: Sent(g, AfterSend(s, i, to), a, b) <==> Sent(g, s, a, b) || (a == i && b == to)
  {
  }

  lemma StepKeepsBooks(g: Graph, r: Rooting, s: Schedule, i: nat, to: nat)
    requires WellFormed(g) && IsRooting(g, 0, r) && ScheduleOk(g, r, s)
    requires MayReport(g, s, i, to) || MayDistribute(g, s, i, to)
    ensures to < g.n && BooksOk(g, AfterSend(s, i, to))
  {
    hide IsRooting, OrderOk, PhaseOk, LogOk;
    StepTarget(g, r, s, i, to);
  }

  lemma StepKeepsOrder(g: Graph, r: Rooting, s: Schedule, i: nat, to: nat)
    requires WellFormed(g) && IsRooting(g, 0, r) && ScheduleOk(g, r, s)
    requires MayReport(g, s, i, to) || MayDistribute(g, s, i, to)
    ensures to < g.n && OrderOk(g, AfterSend(s, i, to))
  {
    StepTarget(g, r, s, i, to);
    SentAfter(g, s, i, to);
  }

  /** The first report of a node goes to its parent; a distribution goes to a child that has reported. */
  lemma StepDirection(g: Graph, r: Rooting, s: Schedule, i: nat, to: nat)
    requires WellFormed(g) && IsRooting(g, 0, r) && ScheduleOk(g, r, s)
    requires MayReport(g, s, i, to) || MayDistribute(g, s, i, to)
    ensures to < g.n
    ensures MayReport(g, s, i, to) ==> to == r.parent[i]
    ensures MayDistribute(g, s, i, to) ==>
              0 < to && i == r.parent[to] && Sent(g, s, to, i) && (i != 0 ==> Sent(g, s, i, r.parent[i]))
  {
    StepTarget(g, r, s, i, to);
    if i != 0 {
      assert ParentLink(g, r, i);
      JoinsNeighbours(g, r.via[i], i, r.parent[i]);
      NeighboursSymmetric(g, i, r.parent[i]);
    }
    NeighbourIsParentOrChild(g, 0, r, i, to);
  }

  lemma StepKeepsPhase(g: Graph, r: Rooting, s: Schedule, i: nat, to: nat)
    requires WellFormed(g) && IsRooting(g, 0, r) && ScheduleOk(g, r, s)
    requires MayReport(g, s, i, to) || MayDistribute(g, s, i, to)
    ensures to < g.n && PhaseOk(g, r, AfterSend(s, i, to))
  {
    hide OrderOk, LogOk, Neighbours;
    var t := AfterSend(s, i, to);
    StepTarget(g, r, s, i, to);
    StepDirection(g, r, s, i, to);
    SentAfter(g, s, i, to);
    forall c: nat | 0 < c < g.n && Sent(g, t, r.parent[c], c) ensures Sent(g, t, c, r.parent[c]) {
      assert ParentLink(g, r, c);
      if i != 0 { assert ParentLink(g, r, i); }
    }
  }

  /** Before a node sends to `to`, all its other neighbours are in the history as senders to it. */
  lemma AllHeard(g: Graph, s: Schedule, i: nat, to: nat)
    requires WellFormed(g) && BooksOk(g, s) && LogOk(g, s) && i < g.n && s.toReceive[i] <= {to}
    ensures forall m :: m in Neighbours(g, i) && m != to ==> (m, i) in s.log
  {
    hide Neighbours, InOrder;
    forall m | m in Neighbours(g, i) && m != to ensures (m, i) in s.log {
      NeighboursSymmetric(g, i, m);
      assert Sent(g, s, m, i);
    }
  }

  lemma LaterInOrder(g: Graph, log: seq<(nat, nat)>, last: (nat, nat), n: nat)
    requires n <= |log|
    requires n < |log| ==> InOrder(g, log, n)
    requires n == |log| ==> forall m :: m in Neighbours(g, last.0) && m != last.1 ==> (m, last.0) in log
    ensures InOrder(g, log + [last], n)
  {
    hide Neighbours;
    var longer := log + [last];
    assert longer[..n] == log[..n];
    if n == |log| {
      assert log[..n] == log;
    }
  }

  lemma StepKeepsLog(g: Graph, r: Rooting, s: Schedule, i: nat, to: nat)
    requires WellFormed(g) && IsRooting(g, 0, r) && ScheduleOk(g, r, s)
    requires MayReport(g, s, i, to) || MayDistribute(g, s, i, to)
    ensures to < g.n && LogOk(g, AfterSend(s, i, to))
  {
    hide IsRooting, OrderOk, PhaseOk, Neighbours, InOrder;
    var t := AfterSend(s, i, to);
    StepTarget(g, r, s, i, to);
    SentAfter(g, s, i, to);
    assert (i, to) !in s.log;
    AllHeard(g, s, i, to);
    forall n: nat | n < |t.log| ensures InOrder(g, t.log, n) {
      assert n < |s.log| ==> InOrder(g, s.log, n);
      LaterInOrder(g, s.log, (i, to), n);
    }
  }

  /** Every permitted message keeps the whole protocol invariant. */
  lemma StepKeepsSchedule(g: Graph, r: Rooting, s: Schedule, i: nat, to: nat)
    requires WellFormed(g) && IsRooting(g, 0, r) && ScheduleOk(g, r, s)
    requires MayReport(g, s, i, to) || MayDistribute(g, s, i, to)
    ensures to < g.n && ScheduleOk(g, r, AfterSend(s, i, to))
  {
    StepKeepsBooks(g, r, s, i, to);
    StepKeepsOrder(g, r, s, i, to);
    StepKeepsPhase(g, r, s, i, to);
    StepKeepsLog(g, r, s, i, to);
  }

  // ---------------------------------------------------------------- start

  ghost predicate IsStart(g: Graph, s: Schedule)
  {
    && Sized(g, s) && s.log == []
    && forall i :: 0 <= i < g.n ==> s.toSend[i] == Neighbours(g, i) && s.toReceive[i] == Neighbours(g, i)
  }

  lemma StartOk(g: Graph, r: Rooting, s: Schedule)
    requires WellFormed(g) && IsRooting(g, 0, r) && IsStart(g, s)
    ensures ScheduleOk(g, r, s)
  {
    forall i: nat, j: nat | i < g.n && j < g.n && j in Neighbours(g, i) ensures i in Neighbours(g, j) {
      NeighboursSymmetric(g, i, j);
    }
  }

  // ---------------------------------------------------------------- progress

  /** Nothing the pass over node `i` looks for is there. */
  ghost predicate Idle(g: Graph, s: Schedule, i: nat)
    requires Sized(g, s) && i < g.n
  {
    && (s.toReceive[i] == {} ==> s.toSend[i] == {})
    && (0 < i && s.toSend[i] == Neighbours(g, i) ==> |s.toReceive[i]| != 1)
  }

  ghost function Deepest(d: seq<nat>): (m: nat)
    ensures forall i :: 0 <= i < |d| ==> d[i] <= m
  {
    if d == [] then 0 else var m := Deepest(d[..|d| - 1]); if d[|d| - 1] > m then d[|d| - 1] else m
  }

  /** A node that has heard from all its children but not reported is about to report. */
  lemma ReportPending(g: Graph, r: Rooting, s: Schedule, c: nat)
    requires WellFormed(g) && IsRooting(g, 0, r) && ScheduleOk(g, r, s)
    requires 0 < c < g.n && !Sent(g, s, c, r.parent[c])
    requires forall m: nat :: 0 < m < g.n && r.parent[m] == c ==> Sent(g, s, m, c)
    ensures MayReport(g, s, c, r.parent[c])
  {
    var p := r.parent[c];
    assert ParentLink(g, r, c);
    JoinsNeighbours(g, r.via[c], c, p);
    NeighboursSymmetric(g, c, p);
    forall m | m in s.toReceive[c] ensures m == p {
      NeighbourIsParentOrChild(g, 0, r, c, m);
    }
    assert p in s.toReceive[c];
  }

  /** In an idle state every node has reported to its parent: deepest nodes first. */
  lemma {:induction false} AllReported(g: Graph, r: Rooting, s: Schedule, c: nat)
    requires WellFormed(g) && IsRooting(g, 0, r) && ScheduleOk(g, r, s)
    requires forall i :: 0 <= i < g.n ==> Idle(g, s, i)
    requires 0 < c < g.n
    ensures Sent(g, s, c, r.parent[c])
    decreases Deepest(r.depth) - r.depth[c]
  {
    forall m: nat | 0 < m < g.n && r.parent[m] == c ensures Sent(g, s, m, c) {
      assert ParentLink(g, r, m);
      AllReported(g, r, s, m);
    }
    assert Idle(g, s, c);
    if !Sent(g, s, c, r.parent[c]) {
      ReportPending(g, r, s, c);
      assert false;
    }
  }

  /** In an idle state every node has heard everything and sent everything: the root first. */
  lemma {:induction false} AllDistributed(g: Graph, r: Rooting, s: Schedule, i: nat)
    requires WellFormed(g) && IsRooting(g, 0, r) && ScheduleOk(g, r, s)
    requires forall i :: 0 <= i < g.n ==> Idle(g, s, i)
    requires i < g.n
    ensures s.toReceive[i] == {} && s.toSend[i] == {}
    decreases r.depth[i]
  {
    forall m | m in Neighbours(g, i) ensures m !in s.toReceive[i] {
      NeighboursSymmetric(g, i, m);
      NeighbourIsParentOrChild(g, 0, r, i, m);
      if i != 0 && r.parent[i] == m {
        assert ParentLink(g, r, i);
        AllDistributed(g, r, s, m);
      } else {
        AllReported(g, r, s, m);
      }
    }
    assert s.toReceive[i] == {};
    assert Idle(g, s, i);
  }

  /** Quiescence is completion: every directed edge has carried exactly one message. */
  lemma IdleMeansDone(g: Graph, r: Rooting, s: Schedule)
    requires WellFormed(g) && IsRooting(g, 0, r) && ScheduleOk(g, r, s)
    requires forall i :: 0 <= i < g.n ==> Idle(g, s, i)
    ensures forall i: nat, j: nat :: i < g.n && j in Neighbours(g, i) ==> Sent(g, s, i, j)
    ensures forall i: nat, j: nat :: (i, j) in s.log <==> i < g.n && j in Neighbours(g, i)
    ensures forall n, m :: 0 <= n < m < |s.log| ==> s.log[n] != s.log[m]
  {
    forall i: nat, j: nat | i < g.n && j in Neighbours(g, i) ensures Sent(g, s, i, j) {
      AllDistributed(g, r, s, i);
    }
  }

  // ---------------------------------------------------------------- termination

  ghost function Remaining(toSend: seq<set<nat>>): (n: nat)
  {
    if toSend == [] then 0 else |toSend[0]| + Remaining(toSend[1..])
  }

  lemma {:induction false} RemainingDrops(toSend: seq<set<nat>>, i: nat, to: nat)
    requires i < |toSend| && to in toSend[i]
    ensures Remaining(toSend[i := toSend[i] - {to}]) < Remaining(toSend)
  {
    var t := toSend[i := toSend[i] - {to}];
    if i == 0 {
      assert t[1..] == toSend[1..];
    } else {
      RemainingDrops(toSend[1..], i - 1, to);
      assert t[1..] == toSend[1..][i - 1 := toSend[i] - {to}];
    }
  }
}
