/** Belief propagation on a join tree: the schedule run over the tables. */
module Propagation {
  import opened Basics
  import opened Assignments
  import opened Sums
  import opened Tables
  import opened Trees
  import opened Messages
  import opened Schedules

  /** After a message over an edge the separator is the marginal of the sender, and it stays so. */
  ghost predicate Agreed(jt: JoinTree, p: Potentials, s: Schedule, i: nat, j: nat)
    requires Proper(jt) && ShapeOk(jt, p) && Sized(jt.graph, s)
    requires i < jt.graph.n && j < jt.graph.n && j in Neighbours(jt.graph, i)
  {
    var k := EdgeBetween(jt.graph, i, j);
    && (j in s.toSend[i] && i in s.toSend[j] ==> p.sep[k] == map[])
    && (j !in s.toSend[i] ==> p.sep[k] != map[] && IsMarginal(p.clique[i], SepVars(jt, k), p.sep[k]))
  }

  ghost predicate AllAgreed(jt: JoinTree, p: Potentials, s: Schedule)
    requires Proper(jt) && ShapeOk(jt, p) && Sized(jt.graph, s)
  {
    forall i: nat, j: nat :: i < jt.graph.n && j < jt.graph.n && j in Neighbours(jt.graph, i) ==> Agreed(jt, p, s, i, j)
  }

  ghost predicate IsSetting(jt: JoinTree, r: Rooting)
  {
    Proper(jt) && PositiveCards(jt) && IsRooting(jt.graph, 0, r)
  }

  /** The invariant of the whole propagation. */
  ghost predicate StateOk(jt: JoinTree, r: Rooting, p: Potentials, s: Schedule)
    requires IsSetting(jt, r)
  {
    TablesOk(jt, p) && ScheduleOk(jt.graph, r, s) && AllAgreed(jt, p, s)
  }

  /** One permitted message, with its effect on tables and books. */
  ghost predicate Step(jt: JoinTree, r: Rooting, p: Potentials, s: Schedule, q: Potentials, t: Schedule, i: nat,
                       to: nat)
    requires IsSetting(jt, r) && StateOk(jt, r, p, s)
  {
    && (MayReport(jt.graph, s, i, to) || MayDistribute(jt.graph, s, i, to))
    && (StepTarget(jt.graph, r, s, i, to); Message(jt, p, i, to, q))
    && t == AfterSend(s, i, to)
  }

  lemma SameEdgeSamePair(g: Graph, a: nat, b: nat, i: nat, j: nat)
    requires WellFormed(g) && b in Neighbours(g, a) && j in Neighbours(g, i)
    requires EdgeBetween(g, a, b) == EdgeBetween(g, i, j)
    ensures (a == i && b == j) || (a == j && b == i)
  {
  }

  /** The pair that carried the message: the new separator is the sender's marginal. */
  lemma SenderAgrees(jt: JoinTree, r: Rooting, p: Potentials, s: Schedule, q: Potentials, t: Schedule, i: nat, to: nat)
    requires IsSetting(jt, r) && StateOk(jt, r, p, s) && Step(jt, r, p, s, q, t, i, to)
    ensures ShapeOk(jt, q) && Sized(jt.graph, t)
    ensures i < jt.graph.n && to < jt.graph.n && to in Neighbours(jt.graph, i) && Agreed(jt, q, t, i, to)
  {
    StepTarget(jt.graph, r, s, i, to);
    MessageKeepsTables(jt, p, i, to, q);
  }

  /** If the receiver had already reported over this edge, it is calibrated now. */
  lemma ReceiverAgrees(jt: JoinTree, r: Rooting, p: Potentials, s: Schedule, q: Potentials, t: Schedule, i: nat,
                       to: nat)
    requires IsSetting(jt, r) && StateOk(jt, r, p, s) && Step(jt, r, p, s, q, t, i, to)
    ensures ShapeOk(jt, q) && Sized(jt.graph, t)
    ensures i < jt.graph.n && to < jt.graph.n && i in Neighbours(jt.graph, to) && Agreed(jt, q, t, to, i)
  {
    StepTarget(jt.graph, r, s, i, to);
    NeighboursSymmetric(jt.graph, i, to);
    MessageKeepsTables(jt, p, i, to, q);
    if i !in s.toSend[to] {
      assert Agreed(jt, p, s, to, i);
      MessageCalibrates(jt, p, i, to, q);
    }
  }

  lemma UntouchedAgrees(jt: JoinTree, p: Potentials, s: Schedule, q: Potentials, t: Schedule, to: nat, k: nat, a: nat,
                        b: nat)
    requires Proper(jt) && ShapeOk(jt, p) && Sized(jt.graph, s) && ShapeOk(jt, q) && Sized(jt.graph, t)
    requires a < jt.graph.n && b < jt.graph.n && b in Neighbours(jt.graph, a)
    requires SameExcept(p, q, to, k) && EdgeBetween(jt.graph, a, b) != k
    requires (b in t.toSend[a] <==> b in s.toSend[a]) && (a in t.toSend[b] <==> a in s.toSend[b])
    requires b !in s.toSend[a] ==> a != to
    requires Agreed(jt, p, s, a, b)
    ensures Agreed(jt, q, t, a, b)
  {
  }

  /** A node that still waits for `i` can have sent to nobody but `i`. */
  lemma ReceiverSilent(g: Graph, r: Rooting, s: Schedule, i: nat, to: nat, b: nat)
    requires WellFormed(g) && IsRooting(g, 0, r) && ScheduleOk(g, r, s)
    requires MayReport(g, s, i, to) || MayDistribute(g, s, i, to)
    requires Sent(g, s, to, b)
    ensures b == i
  {
    StepTarget(g, r, s, i, to);
  }

  /** Any other pair is untouched. */
  lemma OthersAgree(jt: JoinTree, p: Potentials, s: Schedule, q: Potentials, i: nat, to: nat, a: nat, b: nat)
    requires Proper(jt) && ShapeOk(jt, p) && Sized(jt.graph, s) && ShapeOk(jt, q)
    requires i < jt.graph.n && to < jt.graph.n && to in Neighbours(jt.graph, i)
    requires SameExcept(p, q, to, EdgeBetween(jt.graph, i, to))
    requires a < jt.graph.n && b < jt.graph.n && b in Neighbours(jt.graph, a)
    requires !(a == i && b == to) && !(a == to && b == i)
    requires Sent(jt.graph, s, a, b) ==> a != to
    requires Agreed(jt, p, s, a, b)
    ensures Agreed(jt, q, AfterSend(s, i, to), a, b)
  {
    hide CliqueOk, SepOk, All, IsMarginal;
    var k := EdgeBetween(jt.graph, i, to);
    NeighboursSymmetric(jt.graph, a, b);
    assert EdgeBetween(jt.graph, a, b) != k by {
      if EdgeBetween(jt.graph, a, b) == k {
        SameEdgeSamePair(jt.graph, i, to, a, b);
      }
    }
    UntouchedAgrees(jt, p, s, q, AfterSend(s, i, to), to, k, a, b);
  }

  /** The heart of the algorithm: each permitted message keeps the invariant of the propagation. */
  lemma StepKeepsState(jt: JoinTree, r: Rooting, p: Potentials, s: Schedule, q: Potentials, t: Schedule, i: nat,
                       to: nat)
    requires IsSetting(jt, r) && StateOk(jt, r, p, s) && Step(jt, r, p, s, q, t, i, to)
    ensures StateOk(jt, r, q, t)
  {
    hide CliqueOk, SepOk, All, IsMarginal, Supported, IsRooting, OrderOk, PhaseOk, LogOk, Agreed, Rescaled;
    StepTarget(jt.graph, r, s, i, to);
    StepKeepsSchedule(jt.graph, r, s, i, to);
    MessageKeepsTables(jt, p, i, to, q);
    forall a: nat, b: nat | a < jt.graph.n && b < jt.graph.n && b in Neighbours(jt.graph, a)
      ensures Agreed(jt, q, t, a, b) {
      if a == i && b == to {
        SenderAgrees(jt, r, p, s, q, t, i, to);
      } else if a == to && b == i {
        ReceiverAgrees(jt, r, p, s, q, t, i, to);
      } else {
        if Sent(jt.graph, s, to, b) {
          ReceiverSilent(jt.graph, r, s, i, to, b);
        }
        OthersAgree(jt, p, s, q, i, to, a, b);
      }
    }
  }

  ghost predicate SameJoint(jt: JoinTree, p: Potentials, q: Potentials)
    requires Proper(jt) && ShapeOk(jt, p) && ShapeOk(jt, q)
  {
    forall x :: Legal(jt.card, Below(|jt.card|), x) ==> Joint(jt, p, x) == Joint(jt, q, x)
  }

  /** Every run keeps the joint it started from. */
  lemma StepKeepsJoint(jt: JoinTree, r: Rooting, start: Potentials, p: Potentials, s: Schedule, q: Potentials,
                       t: Schedule, i: nat, to: nat)
    requires IsSetting(jt, r) && StateOk(jt, r, p, s) && Step(jt, r, p, s, q, t, i, to)
    requires ShapeOk(jt, start) && SameJoint(jt, start, p)
    ensures ShapeOk(jt, q) && SameJoint(jt, start, q)
  {
    StepTarget(jt.graph, r, s, i, to);
    MessageKeepsTables(jt, p, i, to, q);
    forall x | Legal(jt.card, Below(|jt.card|), x) ensures Joint(jt, start, x) == Joint(jt, q, x) {
      MessageKeepsJoint(jt, p, i, to, q, x);
    }
  }

  ghost predicate IsBlank(jt: JoinTree, p: Potentials)
  {
    |p.sep| == |jt.graph.edges| && forall k :: 0 <= k < |p.sep| ==> p.sep[k] == map[]
  }

  lemma StartState(jt: JoinTree, r: Rooting, p: Potentials, s: Schedule)
    requires IsSetting(jt, r) && ShapeOk(jt, p) && IsBlank(jt, p) && IsStart(jt.graph, s)
    ensures StateOk(jt, r, p, s)
  {
    StartOk(jt.graph, r, s);
  }

  /** Both ends of every edge have the separator as their marginal. */
  ghost predicate Calibrated(jt: JoinTree, p: Potentials)
    requires Proper(jt) && ShapeOk(jt, p)
  {
    forall k :: 0 <= k < |jt.graph.edges| ==>
      && p.sep[k] != map[]
      && IsMarginal(p.clique[jt.graph.edges[k].u], SepVars(jt, k), p.sep[k])
      && IsMarginal(p.clique[jt.graph.edges[k].v], SepVars(jt, k), p.sep[k])
  }

  lemma DoneIsCalibrated(jt: JoinTree, r: Rooting, p: Potentials, s: Schedule)
    requires IsSetting(jt, r) && StateOk(jt, r, p, s)
    requires forall i: nat, j: nat :: i < jt.graph.n && j in Neighbours(jt.graph, i) ==> Sent(jt.graph, s, i, j)
    ensures Calibrated(jt, p)
  {
    forall k | 0 <= k < |jt.graph.edges|
      ensures p.sep[k] != map[]
      ensures IsMarginal(p.clique[jt.graph.edges[k].u], SepVars(jt, k), p.sep[k])
      ensures IsMarginal(p.clique[jt.graph.edges[k].v], SepVars(jt, k), p.sep[k])
    {
      var u, v := jt.graph.edges[k].u, jt.graph.edges[k].v;
      JoinsNeighbours(jt.graph, k, u, v);
      JoinsNeighbours(jt.graph, k, v, u);
      assert Sent(jt.graph, s, u, v) && Sent(jt.graph, s, v, u);
      assert Agreed(jt, p, s, u, v) && Agreed(jt, p, s, v, u);
    }
  }

  // ---------------------------------------------------------------- the running algorithm

  ghost predicate AllIdle(g: Graph, s: Schedule, from: nat, to: nat)
    requires Sized(g, s) && to <= g.n
  {
    forall i: nat :: from <= i < to ==> Idle(g, s, i)
  }

  lemma AllIdleExtend(g: Graph, s: Schedule, from: nat, i: nat)
    requires Sized(g, s) && i < g.n && AllIdle(g, s, from, i) && Idle(g, s, i)
    ensures AllIdle(g, s, from, i + 1)
  {
  }

  /** Nothing sent yet: every node still has to send to and hear from each of its neighbours. */
  method InitialBooks(g: Graph) returns (toSend: seq<set<nat>>, toReceive: seq<set<nat>>)
    ensures IsStart(g, Schedule(toSend, toReceive, []))
  {
    toSend, toReceive := [], [];
    for i := 0 to g.n
      invariant |toSend| == |toReceive| == i
      invariant forall j :: 0 <= j < i ==> toSend[j] == toReceive[j] == Neighbours(g, j)
    {
      var idx := Neighbours(g, i);
      toReceive, toSend := toReceive + [idx], toSend + [idx];
    }
  }

  class Propagator {
    const jt: JoinTree
    ghost const r: Rooting
    ghost const start: Potentials

    var clique: seq<Table>
    var sep: seq<Table>
    var toSend: seq<set<nat>>
    var toReceive: seq<set<nat>>
    ghost var log: seq<(nat, nat)>

    ghost function Pots(): (p: Potentials)
      reads this
    {
      Potentials(clique, sep)
    }

    ghost function Books(): (s: Schedule)
      reads this
    {
      Schedule(toSend, toReceive, log)
    }

    ghost predicate Valid()
      reads this
    {
      IsSetting(jt, r) && StateOk(jt, r, Pots(), Books()) && ShapeOk(jt, start) && SameJoint(jt, start, Pots())
    }

    /** Start from initialised clique tables, with nothing sent and every separator all ones. */
    constructor (tree: JoinTree, tables: seq<Table>)
      requires Proper(tree) && PositiveCards(tree) && IsTree(tree.graph)
      requires |tables| == tree.graph.n
      requires forall i :: 0 <= i < tree.graph.n ==> CliqueOk(tree, tables[i], i)
      ensures Valid()
      ensures jt == tree && clique == tables && log == [] && IsBlank(jt, start) && start == Pots()
    {
      hide IsCycle, ConnectedWithin, IsRooting, CliqueOk, StateOk, IsStart, Joint, WellFormed;
      ghost var rooting := RootingExists(tree.graph, 0);
      jt, r, clique, log := tree, rooting, tables, [];
      var blank: seq<Table> := seq(|tree.graph.edges|, k => map[]);
      sep, start := blank, Potentials(tables, blank);
      var sends, receives := InitialBooks(tree.graph);
      toSend, toReceive := sends, receives;
      new;
      StartState(jt, r, Pots(), Books());
    }

    /** `pass_join_tree_message`. */
    method PassMessage(from: nat, to: nat)
      requires Proper(jt) && PositiveCards(jt) && TablesOk(jt, Pots()) && to in Neighbours(jt.graph, from)
      modifies this`clique, this`sep
      ensures Message(jt, old(Pots()), from, to, Pots())
    {
      hide Message, ZerosOk, Supported, CliqueOk, SepOk;
      MessageParts(jt, Pots(), from, to);
      var k := EdgeBetween(jt.graph, from, to);
      var newS, d := NewTables(from, to, k);
      clique, sep := clique[to := d], sep[k := newS];
    }

    /** The new separator and the new table of the receiver. */
    method NewTables(from: nat, to: nat, k: nat) returns (newS: Table, d: Table)
      requires Proper(jt) && PositiveCards(jt) && TablesOk(jt, Pots()) && to in Neighbours(jt.graph, from)
      requires from < jt.graph.n && to < jt.graph.n && k == EdgeBetween(jt.graph, from, to)
      ensures Message(jt, Pots(), from, to, Potentials(clique[to := d], sep[k := newS]))
    {
      hide All, Marginal, IsMarginal, ZerosOk, Supported, Message, Restrict, Times, Ratio;
      MessageParts(jt, Pots(), from, to);
      var e := SepVars(jt, k);
      newS := Marginalize(clique[from], e);
      MarginalIsFull(jt.card, jt.cliques[from], clique[from], e, newS);
      var temp := Divide(newS, sep[k]);
      SelectsRows(jt.card, jt.cliques[to], clique[to], e, temp);
      d := MultiplyIn(clique[to], temp, e);
      MessageMade(jt, Pots(), from, to, newS, temp, d);
    }

    /** A message together with its entry in the books. */
    method Send(i: nat, to: nat)
      requires Valid()
      requires MayReport(jt.graph, Books(), i, to) || MayDistribute(jt.graph, Books(), i, to)
      modifies this
      ensures Valid()
      ensures Remaining(toSend) < Remaining(old(toSend))
      ensures i < |toReceive| == |old(toReceive)| && toReceive[i] == old(toReceive)[i]
    {
      hide IsRooting, OrderOk, PhaseOk, LogOk, AllAgreed, Message, Remaining;
      ghost var p, s := Pots(), Books();
      StepTarget(jt.graph, r, s, i, to);
      RemainingDrops(toSend, i, to);
      PassMessage(i, to);
      toSend := toSend[i := toSend[i] - {to}];
      toReceive := toReceive[to := toReceive[to] - {i}];
      log := log + [(i, to)];
      StepKeepsState(jt, r, p, s, Pots(), Books(), i, to);
      StepKeepsJoint(jt, r, start, p, s, Pots(), Books(), i, to);
    }

    /** What one pass of the schedule does at a node other than the root. */
    method Visit(i: nat) returns (sent: bool)
      requires Valid() && 0 < i < jt.graph.n
      modifies this
      ensures Valid()
      ensures sent ==> Remaining(toSend) < Remaining(old(toSend))
      ensures !sent ==> Books() == old(Books()) && Idle(jt.graph, Books(), i)
    {
      sent := false;
      if |toSend[i]| == |Neighbours(jt.graph, i)| && |toReceive[i]| == 1 {
        var to :| to in toReceive[i];
        SubsetOfSameSize(toSend[i], Neighbours(jt.graph, i));
        SubsetOfSameSize({to}, toReceive[i]);
        Send(i, to);
        sent := true;
      } else if |toReceive[i]| == 0 && |toSend[i]| > 0 {
        var to :| to in toSend[i];
        Send(i, to);
        sent := true;
      }
    }

    /** The root answers everybody once everybody has reported. */
    method VisitRoot() returns (sent: bool)
      requires Valid()
      modifies this
      ensures Valid()
      ensures sent ==> Remaining(toSend) < Remaining(old(toSend))
      ensures !sent ==> Books() == old(Books()) && Idle(jt.graph, Books(), 0)
    {
      sent := false;
      if |toReceive[0]| == 0 {
        while |toSend[0]| > 0
          invariant Valid() && toReceive[0] == {}
          invariant sent ==> Remaining(toSend) < Remaining(old(toSend))
          invariant !sent ==> Books() == old(Books())
          decreases Remaining(toSend)
        {
          var to :| to in toSend[0];
          Send(0, to);
          sent := true;
        }
      }
    }

    /** The `for` loop of one pass: every node but the root. */
    method Sweep() returns (sent: bool)
      requires Valid()
      modifies this
      ensures Valid()
      ensures sent ==> Remaining(toSend) < Remaining(old(toSend))
      ensures !sent ==> Books() == old(Books()) && AllIdle(jt.graph, Books(), 1, jt.graph.n)
    {
      sent := false;
      for i := 1 to jt.graph.n
        invariant Valid()
        invariant sent ==> Remaining(toSend) < Remaining(old(toSend))
        invariant !sent ==> Books() == old(Books()) && AllIdle(jt.graph, Books(), 1, i)
      {
        var s := Visit(i);
        sent := sent || s;
        if !sent {
          AllIdleExtend(jt.graph, Books(), 1, i);
        }
      }
    }

    /** One pass over all nodes. */
    method Pass() returns (sent: bool)
      requires Valid()
      modifies this
      ensures Valid()
      ensures sent ==> Remaining(toSend) < Remaining(old(toSend))
      ensures !sent ==> Books() == old(Books()) && AllIdle(jt.graph, Books(), 0, jt.graph.n)
    {
      sent := Sweep();
      var s := VisitRoot();
      sent := sent || s;
    }

    /** The propagation loop of `create_bayesian_network_join_tree`: it stops, and when it stops the tree is
        calibrated, every directed edge has carried exactly one message, and the joint is unchanged. */
    method Propagate()
      requires Valid()
      modifies this
      ensures Valid() && Calibrated(jt, Pots())
      ensures forall i: nat, j: nat :: (i, j) in log <==> i < jt.graph.n && j in Neighbours(jt.graph, i)
      ensures forall n, m :: 0 <= n < m < |log| ==> log[n] != log[m]
      ensures forall n: nat :: n < |log| ==> InOrder(jt.graph, log, n)
    {
      var messageSent := true;
      while messageSent
        invariant Valid()
        invariant !messageSent ==> AllIdle(jt.graph, Books(), 0, jt.graph.n)
        decreases Remaining(toSend), messageSent
      {
        messageSent := Pass();
      }
      IdleMeansDone(jt.graph, r, Books());
      DoneIsCalibrated(jt, r, Pots(), Books());
    }
  }
}
