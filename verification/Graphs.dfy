// Finite directed graphs as adjacency maps, the vocabulary that the cycle detector, the
// import walk, the re-export walk and the resolution stage share.
module Graphs {

  datatype Option<+T> = None | Some(value: T)

  /** A node that is not a key has no outgoing edges, as reading a missing key of a Go map
      yields the nil slice. */
  type Graph<T> = map<T, seq<T>>

  function Deps<T>(g: Graph<T>, n: T): seq<T> {
    if n in g then g[n] else []
  }

  predicate NoDup<T(==)>(s: seq<T>) {
    forall i, j :: 0 <= i < j < |s| ==> s[i] != s[j]
  }

  function Elems<T>(s: seq<T>): set<T> {
    set x | x in s
  }

  lemma ConcatIsAssociative<T>(a: seq<T>, b: seq<T>, c: seq<T>)
    ensures (a + b) + c == a + (b + c)
  {
  }

  /** Consecutive nodes of a walk are joined by edges; a walk of n + 1 nodes has length n. */
  ghost predicate Walk<T>(g: Graph<T>, p: seq<T>) {
    |p| > 0 && forall i, j :: 0 <= i < j < |p| && j == i + 1 ==> p[j] in Deps(g, p[i])
  }

  ghost predicate ClosedWalk<T>(g: Graph<T>, p: seq<T>) {
    |p| >= 2 && Walk(g, p) && p[0] == p[|p| - 1]
  }

  ghost predicate Cyclic<T(!new)>(g: Graph<T>) {
    exists p: seq<T> :: ClosedWalk(g, p)
  }

  /** A closed walk that meets no node twice, its end point apart. */
  ghost predicate SimpleCycle<T>(g: Graph<T>, p: seq<T>) {
    ClosedWalk(g, p) && NoDup(p[1..])
  }

  /** Every dependency of an entry stands before it. */
  ghost predicate Topological<T>(g: Graph<T>, order: seq<T>) {
    && NoDup(order)
    && forall i, d :: 0 <= i < |order| && d in Deps(g, order[i]) ==> d in order[..i]
  }

  /** One more than the position of x, or zero where x does not occur. */
  ghost function Rank<T>(order: seq<T>, x: T): (r: nat)
    ensures r > 0 <==> x in order
    ensures r > 0 ==> r <= |order| && order[r - 1] == x
  {
    if order == [] then 0
    else if order[|order| - 1] == x then |order|
    else Rank(order[..|order| - 1], x)
  }

  lemma EdgesDescend<T>(g: Graph<T>, order: seq<T>, u: T, v: T)
    requires Topological(g, order) && u in order && v in Deps(g, u)
    ensures v in order && Rank(order, v) < Rank(order, u)
  {
    var i := Rank(order, u) - 1;
    assert order[i] == u;
    var j :| 0 <= j < i && order[j] == v;
    var k := Rank(order, v) - 1;
    assert k == j;
  }

  lemma {:induction false} WalksDescend<T>(g: Graph<T>, order: seq<T>, p: seq<T>)
    requires Topological(g, order) && Walk(g, p) && p[0] in order
    ensures p[|p| - 1] in order
    ensures Rank(order, p[|p| - 1]) <= Rank(order, p[0])
    ensures |p| >= 2 ==> Rank(order, p[|p| - 1]) < Rank(order, p[0])
  {
    if |p| >= 2 {
      EdgesDescend(g, order, p[0], p[1]);
      WalksDescend(g, order, p[1..]);
    }
  }

  lemma TopologicalIsAcyclic<T(!new)>(g: Graph<T>, order: seq<T>)
    requires Topological(g, order) && g.Keys <= Elems(order)
    ensures !Cyclic(g)
  {
    forall p | ClosedWalk(g, p) ensures false {
      assert p[1] in Deps(g, p[0]);
      WalksDescend(g, order, p);
    }
  }

  /** A walk of n edges leads from root to x. */
  ghost predicate Steps<T(!new)>(g: Graph<T>, root: T, x: T, n: nat) {
    if n == 0 then x == root
    else exists y :: Steps(g, root, y, n - 1) && x in Deps(g, y)
  }

  ghost predicate Reaches<T(!new)>(g: Graph<T>, root: T, x: T) {
    exists n: nat :: Steps(g, root, x, n)
  }

  ghost predicate ClosedUnder<T>(g: Graph<T>, s: set<T>) {
    forall x, y :: x in s && y in Deps(g, x) ==> y in s
  }

  lemma ReachesSelf<T(!new)>(g: Graph<T>, x: T)
    ensures Reaches(g, x, x)
  {
    assert Steps(g, x, x, 0);
  }

  lemma ReachesStep<T(!new)>(g: Graph<T>, root: T, x: T, y: T)
    requires Reaches(g, root, x) && y in Deps(g, x)
    ensures Reaches(g, root, y)
  {
    var n: nat :| Steps(g, root, x, n);
    assert Steps(g, root, y, n + 1);
  }

  lemma {:induction false} StepsFromDep<T(!new)>(g: Graph<T>, root: T, x: T, y: T, n: nat)
    requires x in Deps(g, root) && Steps(g, x, y, n)
    ensures Steps(g, root, y, n + 1)
  {
    if n == 0 {
      assert Steps(g, root, root, 0);
    } else {
      var z :| Steps(g, x, z, n - 1) && y in Deps(g, z);
      StepsFromDep(g, root, x, z, n - 1);
    }
  }

  lemma ReachesFromDep<T(!new)>(g: Graph<T>, root: T, x: T, y: T)
    requires x in Deps(g, root) && Reaches(g, x, y)
    ensures Reaches(g, root, y)
  {
    var n: nat :| Steps(g, x, y, n);
    StepsFromDep(g, root, x, y, n);
  }

  lemma {:induction false} StepsStayInside<T(!new)>(g: Graph<T>, s: set<T>, root: T, x: T, n: nat)
    requires ClosedUnder(g, s) && root in s && Steps(g, root, x, n)
    ensures x in s
  {
    if n > 0 {
      var y :| Steps(g, root, y, n - 1) && x in Deps(g, y);
      StepsStayInside(g, s, root, y, n - 1);
    }
  }

  lemma ReachableStaysInside<T(!new)>(g: Graph<T>, s: set<T>, root: T, x: T)
    requires ClosedUnder(g, s) && root in s && Reaches(g, root, x)
    ensures x in s
  {
    var n: nat :| Steps(g, root, x, n);
    StepsStayInside(g, s, root, x, n);
  }

  // ---- depth-first order ----

  /** Depth-first preorder of the nodes on the stack, those already visited left out. */
  function Preorder<T(==)>(g: Graph<T>, stack: seq<T>, visited: set<T>): seq<T>
    decreases g.Keys - visited, |stack|
  {
    if stack == [] then []
    else if stack[0] in visited then Preorder(g, stack[1..], visited)
    else [stack[0]] + Preorder(g, Deps(g, stack[0]) + stack[1..], visited + {stack[0]})
  }

  /** Splitting the stack: the second part starts from everything the first part visited. */
  lemma {:induction false} PreorderSplits<T>(g: Graph<T>, a: seq<T>, b: seq<T>, visited: set<T>)
    ensures var first := Preorder(g, a, visited);
            Preorder(g, a + b, visited) == first + Preorder(g, b, visited + Elems(first))
    decreases g.Keys - visited, |a|
  {
    if a == [] {
      assert a + b == b && visited + Elems([]) == visited;
    } else {
      assert (a + b)[1..] == a[1..] + b;
      if a[0] in visited {
        PreorderSplits(g, a[1..], b, visited);
      } else {
        var deps := Deps(g, a[0]);
        assert deps + (a + b)[1..] == (deps + a[1..]) + b;
        PreorderSplits(g, deps + a[1..], b, visited + {a[0]});
        var rest := Preorder(g, deps + a[1..], visited + {a[0]});
        assert visited + Elems([a[0]] + rest) == (visited + {a[0]}) + Elems(rest);
      }
    }
  }

  /** The order repeats nothing and visits the stack, except for what was visited before. */
  lemma {:induction false} PreorderVisits<T>(g: Graph<T>, stack: seq<T>, visited: set<T>)
    ensures var r := Preorder(g, stack, visited);
            && NoDup(r)
            && (forall m :: m in r ==> m !in visited)
            && (forall m :: m in stack ==> m in visited || m in r)
    decreases g.Keys - visited, |stack|
  {
    if stack == [] {
    } else if stack[0] in visited {
      PreorderVisits(g, stack[1..], visited);
    } else {
      PreorderVisits(g, Deps(g, stack[0]) + stack[1..], visited + {stack[0]});
      assert forall y :: y in stack[1..] ==> y in Deps(g, stack[0]) + stack[1..];
    }
  }

  /** With what was visited before it is closed, except where the earlier set was not. */
  lemma {:induction false} PreorderClosed<T>(g: Graph<T>, stack: seq<T>, visited: set<T>)
    ensures forall x, y :: x in Preorder(g, stack, visited) && y in Deps(g, x) ==>
              y in visited || y in Preorder(g, stack, visited)
    decreases g.Keys - visited, |stack|
  {
    if stack == [] {
    } else if stack[0] in visited {
      PreorderClosed(g, stack[1..], visited);
    } else {
      PreorderVisits(g, Deps(g, stack[0]) + stack[1..], visited + {stack[0]});
      PreorderClosed(g, Deps(g, stack[0]) + stack[1..], visited + {stack[0]});
      assert forall y :: y in Deps(g, stack[0]) ==> y in Deps(g, stack[0]) + stack[1..];
    }
  }

  lemma {:induction false} PreorderReached<T(!new)>(g: Graph<T>, root: T, stack: seq<T>, visited: set<T>)
    requires forall m :: m in stack ==> Reaches(g, root, m)
    ensures forall m :: m in Preorder(g, stack, visited) ==> Reaches(g, root, m)
    decreases g.Keys - visited, |stack|
  {
    if stack == [] {
    } else if stack[0] in visited {
      PreorderReached(g, root, stack[1..], visited);
    } else {
      forall y | y in Deps(g, stack[0]) ensures Reaches(g, root, y) {
        ReachesStep(g, root, stack[0], y);
      }
      PreorderReached(g, root, Deps(g, stack[0]) + stack[1..], visited + {stack[0]});
    }
  }

  /** The depth-first order from a node is exactly what it reaches, each once. */
  lemma PreorderIsReachable<T(!new)>(g: Graph<T>, root: T)
    ensures NoDup(Preorder(g, [root], {}))
    ensures forall x :: x in Preorder(g, [root], {}) <==> Reaches(g, root, x)
  {
    var order := Preorder(g, [root], {});
    PreorderVisits(g, [root], {});
    PreorderClosed(g, [root], {});
    ReachesSelf(g, root);
    PreorderReached(g, root, [root], {});
    forall x | Reaches(g, root, x) ensures x in order {
      ReachableStaysInside(g, Elems(order), root, x);
    }
  }
}
