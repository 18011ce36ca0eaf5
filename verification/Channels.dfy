// Cancellation channels shared by the GraphQL realtime handlers, and the two lock regions that
// give them up.
module Channels {
  import opened Graphs

  type OpId = string

  /** A chan struct{} that is only ever closed; closing it twice panics. */
  class Chan {
    var closed: bool

    constructor ()
      ensures !closed
    {
      closed := false;
    }

    method Close()
      requires !closed
      modifies this
      ensures closed
    {
      closed := true;
    }
  }

  /** What a lookup-and-delete under the lock hands out. */
  function Taken<C>(ops: map<OpId, C>, id: OpId): Option<C> {
    if id in ops then Some(ops[id]) else None
  }

  /** A table after a registration, and after a removal. */
  function WithOp<C>(ops: map<OpId, C>, id: OpId, c: C): map<OpId, C> {
    ops[id := c]
  }

  function WithoutOp<C>(ops: map<OpId, C>, id: OpId): map<OpId, C> {
    ops - {id}
  }

  /** No channel is registered twice, and none of the registered ones is closed. */
  ghost predicate OpenAndDistinct(ops: map<OpId, Chan>)
    reads ops.Values
  {
    && (forall id :: id in ops ==> !ops[id].closed)
    && (forall a, b :: a in ops && b in ops && a != b ==> ops[a] != ops[b])
  }

  /** Empties a table into a list, as the range loops under the lock do. */
  method DrainTable(ops: map<OpId, Chan>) returns (toClose: seq<Chan>)
    requires OpenAndDistinct(ops)
    ensures NoDup(toClose) && forall c :: c in toClose <==> c in ops.Values
  {
    toClose := [];
    var todo := ops.Keys;
    while todo != {}
      invariant todo <= ops.Keys && NoDup(toClose)
      invariant forall c :: c in toClose <==> exists id :: id in ops && id !in todo && ops[id] == c
    {
      var id :| id in todo;
      todo := todo - {id};
      assert ops[id] !in toClose;
      toClose := toClose + [ops[id]];
    }
  }

  /** Closes every channel of the list once the lock is released. */
  method CloseAll(toClose: seq<Chan>)
    requires NoDup(toClose) && forall c :: c in toClose ==> !c.closed
    modifies toClose
    ensures forall c :: c in toClose ==> c.closed
  {
    for i := 0 to |toClose|
      invariant forall j :: 0 <= j < |toClose| ==> (toClose[j].closed <==> j < i)
    {
      toClose[i].Close();
    }
  }

  // ---- counting, for the step systems ----

  /** In a step system channels are numbered in the order they are made. */
  type ChanId = nat

  /** Whether channel c is what the table holds under id. */
  function Registration(table: map<OpId, ChanId>, id: OpId, c: ChanId): nat {
    if id in table && table[id] == c then 1 else 0
  }

  function Total<A>(weight: A -> nat, agents: seq<A>): nat {
    if agents == [] then 0 else Total(weight, agents[..|agents| - 1]) + weight(agents[|agents| - 1])
  }

  lemma {:induction false} TotalUpdates<A>(weight: A -> nat, agents: seq<A>, k: nat, a: A)
    requires k < |agents|
    ensures Total(weight, agents[k := a]) + weight(agents[k]) == Total(weight, agents) + weight(a)
  {
    var last := |agents| - 1;
    if k < last {
      TotalUpdates(weight, agents[..last], k, a);
      assert agents[k := a][..last] == agents[..last][k := a];
    } else {
      assert agents[k := a][..last] == agents[..last];
    }
  }

  lemma TotalAppends<A>(weight: A -> nat, agents: seq<A>, a: A)
    ensures Total(weight, agents + [a]) == Total(weight, agents) + weight(a)
  {
    assert (agents + [a])[..|agents|] == agents;
  }

  lemma {:induction false} TotalIsZero<A>(weight: A -> nat, agents: seq<A>)
    requires forall k :: 0 <= k < |agents| ==> weight(agents[k]) == 0
    ensures Total(weight, agents) == 0
  {
    if agents != [] {
      TotalIsZero(weight, agents[..|agents| - 1]);
    }
  }
}
