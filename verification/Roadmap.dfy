/** The roadmap's dependency check, a three-colour depth-first search, and the actionable list. */
module Roadmap {
  import opened Prelude

  /** The numbers of a sub-goal id such as G1.2, which is also its sort key. */
  datatype Id = Id(goal: nat, sub: nat)

  /** The needs of every known sub-goal; a need that is no key is an unknown sub-goal. */
  type Graph = map<Id, seq<Id>>

  ghost predicate Edge(g: Graph, a: Id, b: Id) {
    a in g && b in g && b in g[a]
  }

  ghost predicate Walk(g: Graph, w: seq<Id>) {
    forall i :: 0 <= i < |w| - 1 ==> Edge(g, w[i], w[i + 1])
  }

  /** A real cycle: it follows needs between known sub-goals and ends where it began. */
  ghost predicate ClosedWalk(g: Graph, w: seq<Id>) {
    |w| >= 2 && w[0] == w[|w| - 1] && Walk(g, w)
  }

  ghost predicate Acyclic(g: Graph) {
    forall w :: !ClosedWalk(g, w)
  }

  /** Every sub-goal comes after all the known ones it needs. */
  ghost predicate Ordered(g: Graph, order: seq<Id>) {
    forall i, b :: 0 <= i < |order| && Edge(g, order[i], b) ==> b in order[..i]
  }

  lemma {:induction false} WalkGoesBack(g: Graph, order: seq<Id>, w: seq<Id>, i: nat)
    requires Ordered(g, order) && Walk(g, w) && 2 <= |w| && i < |order| && w[0] == order[i]
    ensures w[|w| - 1] in order[..i]
    decreases |w|
  {
    assert Edge(g, w[0], w[1]);
    if |w| > 2 {
      var j :| 0 <= j < i && order[j] == w[1];
      assert forall k :: 0 <= k < |w[1..]| - 1 ==> Edge(g, w[1..][k], w[1..][k + 1]) by {
        forall k | 0 <= k < |w[1..]| - 1
          ensures Edge(g, w[1..][k], w[1..][k + 1])
        {
          assert Edge(g, w[k + 1], w[k + 2]);
        }
      }
      WalkGoesBack(g, order, w[1..], j);
    }
  }

  /** A full order leaves no room for a cycle. */
  lemma OrderedIsAcyclic(g: Graph, order: seq<Id>)
    requires Ordered(g, order) && Distinct(order) && forall a :: a in g ==> a in order
    ensures Acyclic(g)
  {
    forall w | ClosedWalk(g, w)
      ensures false
    {
      assert Edge(g, w[0], w[1]);
      var i :| 0 <= i < |order| && order[i] == w[0];
      WalkGoesBack(g, order, w, i);
    }
  }

  // ---- the search -----------------------------------------------------

  datatype Colour = Visiting | Finished

  class CycleCheck {
    const needs: Graph
    var state: map<Id, Colour>
    var cycles: seq<seq<Id>>
    /** The sub-goals in the order in which they were finished. */
    ghost var finished: seq<Id>

    constructor (needs: Graph)
      ensures this.needs == needs && state == map[] && cycles == [] && finished == []
    {
      this.needs := needs;
      state, cycles, finished := map[], [], [];
    }

    /** The path is the chain of sub-goals being visited. */
    ghost predicate OnPath(path: seq<Id>)
      reads this
    {
      && Distinct(path) && Walk(needs, path)
      && (forall a :: a in path <==> a in state && state[a].Visiting?)
    }

    ghost predicate Valid()
      reads this
    {
      && state.Keys <= needs.Keys
      && Distinct(finished)
      && (forall a :: a in finished <==> a in state && state[a].Finished?)
      && (forall k :: 0 <= k < |cycles| ==> ClosedWalk(needs, cycles[k]))
      && (cycles == [] ==> Ordered(needs, finished))
    }

    function White(): set<Id>
      reads this
    {
      needs.Keys - state.Keys
    }

    method Report(id: Id, path: seq<Id>)
      requires Valid() && OnPath(path) && id in path
      requires Edge(needs, path[|path| - 1], id)
      modifies this`cycles
      ensures Valid() && OnPath(path) && |cycles| > |old(cycles)|
    {
      var i := 0;
      while path[i] != id
        invariant 0 <= i < |path| && id !in path[..i]
        decreases |path| - i
      {
        i := i + 1;
      }
      var cycle := path[i..] + [id];
      forall k | 0 <= k < |cycle| - 1
        ensures Edge(needs, cycle[k], cycle[k + 1])
      {
        if k < |cycle| - 2 {
          assert Edge(needs, path[i + k], path[i + k + 1]);
        }
      }
      assert ClosedWalk(needs, cycle);
      cycles := cycles + [cycle];
    }

    /** One sub-goal: skip, report a cycle, or visit its needs and finish it. */
    method Visit(id: Id, path: seq<Id>)
      requires Valid() && OnPath(path)
      requires path != [] && id in needs ==> Edge(needs, path[|path| - 1], id)
      modifies this`state, this`cycles, this`finished
      ensures Valid() && OnPath(path)
      ensures forall a :: a in old(state) && old(state[a]).Finished? ==> a in state && state[a].Finished?
      ensures White() <= old(White()) && |old(cycles)| <= |cycles|
      ensures id in needs ==> (id in state && state[id].Finished?) || cycles != []
      decreases White(), 1
    {
      if id !in needs || (id in state && state[id].Finished?) {
        return;
      }
      if id in state {
        Report(id, path);
        return;
      }
      Explore(id, path);
    }

    method Explore(id: Id, path: seq<Id>)
      requires Valid() && OnPath(path) && id in White()
      requires path != [] ==> Edge(needs, path[|path| - 1], id)
      modifies this`state, this`cycles, this`finished
      ensures Valid() && OnPath(path)
      ensures forall a :: a in old(state) && old(state[a]).Finished? ==> a in state && state[a].Finished?
      ensures White() <= old(White()) && |old(cycles)| <= |cycles|
      ensures id in state && state[id].Finished?
      decreases White(), 0
    {
      var here := path + [id];
      state := state[id := Visiting];
      forall k | 0 <= k < |here| - 1
        ensures Edge(needs, here[k], here[k + 1])
      {
        if k < |path| - 1 {
          assert Edge(needs, path[k], path[k + 1]);
        }
      }
      assert Walk(needs, here);
      var todo := needs[id];
      for i := 0 to |todo|
        invariant Valid() && OnPath(here)
        invariant White() < old(White()) && |old(cycles)| <= |cycles|
        invariant forall a :: a in old(state) && old(state[a]).Finished? ==> a in state && state[a].Finished?
        invariant forall k :: 0 <= k < i && todo[k] in needs ==>
          (todo[k] in state && state[todo[k]].Finished?) || cycles != []
      {
        assert todo[i] in needs ==> Edge(needs, id, todo[i]);
        Visit(todo[i], here);
      }
      Finish(id, path);
    }

    /** Blacken the last sub-goal of the path; all it needs is finished or a cycle was reported. */
    method Finish(id: Id, path: seq<Id>)
      requires Valid() && OnPath(path + [id]) && id in needs
      requires forall k :: 0 <= k < |needs[id]| && needs[id][k] in needs ==>
        (needs[id][k] in state && state[needs[id][k]].Finished?) || cycles != []
      modifies this`state, this`finished
      ensures state == old(state)[id := Finished] && finished == old(finished) + [id]
      ensures Valid() && OnPath(path)
    {
      var here := path + [id];
      assert id in here && id !in path by {
        assert here[|path|] == id;
        forall k | 0 <= k < |path| ensures path[k] != id { assert here[k] != here[|path|]; }
      }
      forall a | a in path
        ensures a in here && a != id
      {
      }
      forall k | 0 <= k < |path| - 1
        ensures Edge(needs, path[k], path[k + 1])
      {
        assert Edge(needs, here[k], here[k + 1]);
      }
      state := state[id := Finished];
      finished := finished + [id];
      assert Distinct(path) by {
        forall i, j | 0 <= i < j < |path| ensures path[i] != path[j] { assert here[i] != here[j]; }
      }
      if cycles == [] {
        forall i, b | 0 <= i < |finished| && Edge(needs, finished[i], b)
          ensures b in finished[..i]
        {
          if i < |finished| - 1 {
            assert finished[i] == old(finished)[i] && finished[..i] == old(finished)[..i];
          } else {
            var k :| 0 <= k < |needs[id]| && needs[id][k] == b;
            assert finished[..i] == old(finished);
          }
        }
      }
    }

    /** The loop over all known sub-goals. */
    method Check(roots: seq<Id>)
      requires state == map[] && cycles == [] && finished == []
      requires forall a :: a in roots <==> a in needs
      modifies this`state, this`cycles, this`finished
      ensures cycles == [] <==> Acyclic(needs)
      ensures forall k :: 0 <= k < |cycles| ==> ClosedWalk(needs, cycles[k])
      ensures cycles == [] ==> Ordered(needs, finished) && Distinct(finished)
      ensures cycles == [] ==> forall a :: a in finished <==> a in needs
    {
      for i := 0 to |roots|
        invariant Valid() && OnPath([])
        invariant forall k :: 0 <= k < i ==> (roots[k] in state && state[roots[k]].Finished?) || cycles != []
      {
        assert roots[i] in roots;
        Visit(roots[i], []);
      }
      if cycles == [] {
        forall a | a in needs
          ensures a in finished
        {
          assert a in roots;
        }
        OrderedIsAcyclic(needs, finished);
      } else {
        assert ClosedWalk(needs, cycles[0]);
      }
    }
  }

  // ---- actionable -----------------------------------------------------

  datatype Status = Todo | Doing | Blocked | Decision | Done | Dropped | Unset

  /** Horizon and priority are positions in the lists of known ones. */
  datatype SubGoal = SubGoal(id: Id, horizon: nat, priority: nat, status: Status, needs: seq<Id>)

  predicate Closed(s: Status) {
    s.Done? || s.Dropped?
  }

  function ById(subs: seq<SubGoal>): map<Id, SubGoal> {
    if subs == [] then map[] else ById(subs[..|subs| - 1])[subs[|subs| - 1].id := subs[|subs| - 1]]
  }

  function NeedsGraph(subs: seq<SubGoal>): (g: Graph)
    ensures g.Keys == ById(subs).Keys
  {
    map a | a in ById(subs) :: ById(subs)[a].needs
  }

  predicate Ready(byId: map<Id, SubGoal>, s: SubGoal, horizon: Option<nat>) {
    && (s.status.Todo? || s.status.Doing?)
    && (forall k :: 0 <= k < |s.needs| && s.needs[k] in byId ==> Closed(byId[s.needs[k]].status))
    && (horizon.None? || s.horizon == horizon.value)
  }

  function Keep(subs: seq<SubGoal>, byId: map<Id, SubGoal>, horizon: Option<nat>): (r: seq<SubGoal>)
    ensures forall s :: s in r <==> s in subs && Ready(byId, s, horizon)
  {
    if subs == [] then []
    else (if Ready(byId, subs[0], horizon) then [subs[0]] else []) + Keep(subs[1..], byId, horizon)
  }

  predicate GoesFirst(x: SubGoal, y: SubGoal) {
    if x.horizon != y.horizon then x.horizon < y.horizon
    else if x.priority != y.priority then x.priority < y.priority
    else if x.status.Doing? != y.status.Doing? then x.status.Doing?
    else x.id.goal < y.id.goal || (x.id.goal == y.id.goal && x.id.sub <= y.id.sub)
  }

  function Actionable(subs: seq<SubGoal>, horizon: Option<nat>): seq<SubGoal> {
    SortBy(Keep(subs, ById(subs), horizon), GoesFirst)
  }

  ghost predicate UniqueIds(subs: seq<SubGoal>) {
    forall i, j :: 0 <= i < j < |subs| ==> subs[i].id != subs[j].id
  }

  lemma {:induction false} ByIdIs(subs: seq<SubGoal>)
    requires UniqueIds(subs)
    ensures forall k :: 0 <= k < |subs| ==> subs[k].id in ById(subs) && ById(subs)[subs[k].id] == subs[k]
    ensures forall a :: a in ById(subs) ==> ById(subs)[a] in subs && ById(subs)[a].id == a
  {
    if subs != [] {
      var init := subs[..|subs| - 1];
      ByIdIs(init);
      forall k | 0 <= k < |subs|
        ensures subs[k].id in ById(subs) && ById(subs)[subs[k].id] == subs[k]
      {
        if k < |init| {
          assert init[k] == subs[k];
        }
      }
    }
  }

  /** What is listed is open work whose known prerequisites are all closed, best first. */
  lemma ActionableIsReady(subs: seq<SubGoal>, horizon: Option<nat>)
    ensures forall s :: s in Actionable(subs, horizon) <==> s in subs && Ready(ById(subs), s, horizon)
    ensures IsSorted(Actionable(subs, horizon), GoesFirst)
  {
    SortByCorrect(Keep(subs, ById(subs), horizon), GoesFirst);
    assert TotalOrder(GoesFirst);
  }

  /** Open work: todo or doing, nothing it needs is still open, and of the horizon asked for. */
  ghost predicate CanStart(subs: seq<SubGoal>, s: SubGoal, horizon: Option<nat>) {
    && (s.status == Todo || s.status == Doing)
    && (forall n, t :: n in s.needs && t in subs && t.id == n ==> t.status == Done || t.status == Dropped)
    && (horizon.Some? ==> s.horizon == horizon.value)
  }

  /** x is listed before y: nearer horizon, then higher priority, then work in hand, then the smaller number. */
  predicate ListedBefore(x: SubGoal, y: SubGoal) {
    || x.horizon < y.horizon
    || (x.horizon == y.horizon && x.priority < y.priority)
    || (x.horizon == y.horizon && x.priority == y.priority && x.status == Doing && y.status != Doing)
    || (x.horizon == y.horizon && x.priority == y.priority && (x.status == Doing <==> y.status == Doing)
        && (x.id.goal < y.id.goal || (x.id.goal == y.id.goal && x.id.sub <= y.id.sub)))
  }

  lemma ReadyCanStart(subs: seq<SubGoal>, s: SubGoal, horizon: Option<nat>)
    requires UniqueIds(subs)
    ensures Ready(ById(subs), s, horizon) <==> CanStart(subs, s, horizon)
  {
    ByIdIs(subs);
    hide ById;
    var byId := ById(subs);
    if CanStart(subs, s, horizon) {
      forall k | 0 <= k < |s.needs| && s.needs[k] in byId
        ensures Closed(byId[s.needs[k]].status)
      {
        assert s.needs[k] in s.needs && byId[s.needs[k]] in subs;
      }
    }
    if Ready(byId, s, horizon) {
      forall n, t | n in s.needs && t in subs && t.id == n
        ensures t.status == Done || t.status == Dropped
      {
        var k :| 0 <= k < |s.needs| && s.needs[k] == n;
        var i :| 0 <= i < |subs| && subs[i] == t;
        assert byId[subs[i].id] == subs[i];
      }
    }
  }

  /** What is listed, and in which order, read off the sub-goals. */
  lemma ActionableIs(subs: seq<SubGoal>, horizon: Option<nat>)
    requires UniqueIds(subs)
    ensures var list := Actionable(subs, horizon);
      && (forall s :: s in list <==> s in subs && CanStart(subs, s, horizon))
      && (forall i, j :: 0 <= i < j < |list| ==> ListedBefore(list[i], list[j]))
  {
    hide Actionable, CanStart, Ready, ById;
    ActionableIsReady(subs, horizon);
    forall s
      ensures Ready(ById(subs), s, horizon) <==> CanStart(subs, s, horizon)
    {
      ReadyCanStart(subs, s, horizon);
    }
  }

  lemma {:induction false} DistinctFits(w: seq<Id>, s: set<Id>)
    requires Distinct(w) && forall a :: a in w ==> a in s
    ensures |w| <= |s|
  {
    if w != [] {
      var tail := w[1..];
      assert Distinct(tail);
      forall a | a in tail
        ensures a in s - {w[0]}
      {
        var k :| 0 <= k < |tail| && tail[k] == a;
        assert w[0] != w[k + 1];
      }
      DistinctFits(tail, s - {w[0]});
    }
  }

  ghost predicate NeedsOneOf(g: Graph, s: set<Id>, a: Id) {
    exists b :: b in s && Edge(g, a, b)
  }

  ghost predicate StuckIn(g: Graph, s: set<Id>) {
    forall a {:trigger NeedsOneOf(g, s, a)} :: a in s ==> NeedsOneOf(g, s, a)
  }

  lemma {:induction false} LongWalk(g: Graph, s: set<Id>, a: Id, n: nat) returns (w: seq<Id>)
    requires a in s && StuckIn(g, s)
    ensures |w| == n + 1 && Walk(g, w) && forall x :: x in w ==> x in s
  {
    if n == 0 {
      w := [a];
    } else {
      var v := LongWalk(g, s, a, n - 1);
      assert v[n - 1] in v && NeedsOneOf(g, s, v[n - 1]);
      var b :| b in s && Edge(g, v[n - 1], b);
      w := v + [b];
      forall i | 0 <= i < |w| - 1
        ensures Edge(g, w[i], w[i + 1])
      {
        if i < |v| - 1 {
          assert Edge(g, v[i], v[i + 1]);
        }
      }
    }
  }

  /** A set of sub-goals that each need another of the set holds a cycle. */
  lemma StuckHasCycle(g: Graph, s: set<Id>, a: Id)
    requires a in s && StuckIn(g, s)
    ensures !Acyclic(g)
  {
    var w := LongWalk(g, s, a, |s|);
    if Distinct(w) {
      DistinctFits(w, s);
    } else {
      var i, j :| 0 <= i < j < |w| && w[i] == w[j];
      var c := w[i..j + 1];
      forall k | 0 <= k < |c| - 1
        ensures Edge(g, c[k], c[k + 1])
      {
        assert Edge(g, w[i + k], w[i + k + 1]);
      }
      assert ClosedWalk(g, c);
    }
  }

  /**
   * An acyclic roadmap with unique ids, whose open sub-goals are all todo or doing, always has
   * something actionable while anything is open.
   */
  lemma ActionableNotEmpty(subs: seq<SubGoal>, open: SubGoal)
    requires UniqueIds(subs) && Acyclic(NeedsGraph(subs))
    requires forall s :: s in subs && !Closed(s.status) ==> s.status.Todo? || s.status.Doing?
    requires open in subs && !Closed(open.status)
    ensures Actionable(subs, None) != []
  {
    var byId, g := ById(subs), NeedsGraph(subs);
    ByIdIs(subs);
    ActionableIsReady(subs, None);
    if Actionable(subs, None) == [] {
      var s := set a | a in byId && !Closed(byId[a].status);
      forall a | a in s
        ensures NeedsOneOf(g, s, a)
      {
        assert !Ready(byId, byId[a], None);
        var k :| 0 <= k < |byId[a].needs| && byId[a].needs[k] in byId && !Closed(byId[byId[a].needs[k]].status);
        assert Edge(g, a, byId[a].needs[k]);
      }
      StuckHasCycle(g, s, open.id);
    }
  }
}
