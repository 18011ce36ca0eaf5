// internal/module/module.go: effective exports, the walk along re-export chains with one
// visited set that every branch shares.
module EffectiveExports {
  import opened Graphs
  import opened Modules

  function ReexportGraph(decls: Decls): Graph<ModuleId> {
    map m | m in decls :: decls[m].exportedModules
  }

  function OwnExports(decls: Decls, m: ModuleId): seq<Provider> {
    if m in decls then decls[m].exports else []
  }

  /** Appends the providers that are not there yet. */
  function AddAll(out: seq<Provider>, ps: seq<Provider>): seq<Provider>
    decreases |ps|
  {
    if ps == [] then out
    else AddAll(if ps[0] in out then out else out + [ps[0]], ps[1..])
  }

  // ---- the reference: first occurrences along the depth-first order ----

  function ExportsOf(decls: Decls, mods: seq<ModuleId>): seq<Provider> {
    if mods == [] then [] else OwnExports(decls, mods[0]) + ExportsOf(decls, mods[1..])
  }

  /** What an importer of m sees: the exports of the modules in depth-first order, first
      occurrences only. */
  function Effective(decls: Decls, m: ModuleId): seq<Provider> {
    AddAll([], ExportsOf(decls, Preorder(ReexportGraph(decls), [m], {})))
  }

  // ---- facts about the reference ----

  lemma {:induction false} AddAllAdds(out: seq<Provider>, ps: seq<Provider>)
    requires NoDup(out)
    ensures NoDup(AddAll(out, ps)) && forall p :: p in AddAll(out, ps) <==> p in out || p in ps
    decreases |ps|
  {
    if ps != [] {
      AddAllAdds(if ps[0] in out then out else out + [ps[0]], ps[1..]);
    }
  }

  lemma {:induction false} AddAllConcat(out: seq<Provider>, a: seq<Provider>, b: seq<Provider>)
    ensures AddAll(AddAll(out, a), b) == AddAll(out, a + b)
    decreases |a|
  {
    if a == [] {
      assert a + b == b;
    } else {
      var out1 := if a[0] in out then out else out + [a[0]];
      AddAllConcat(out1, a[1..], b);
      assert (a + b)[1..] == a[1..] + b;
    }
  }

  lemma {:induction false} AddAllExtends(out: seq<Provider>, ps: seq<Provider>)
    ensures out <= AddAll(out, ps)
    decreases |ps|
  {
    if ps != [] {
      AddAllExtends(if ps[0] in out then out else out + [ps[0]], ps[1..]);
    }
  }

  /** First occurrences keep their order: what stands earlier comes first. */
  lemma EarlierComesFirst(a: seq<Provider>, b: seq<Provider>)
    ensures AddAll([], a) <= AddAll([], a + b)
  {
    AddAllConcat([], a, b);
    AddAllExtends(AddAll([], a), b);
  }

  /** Its own exports are what an importer of a module sees first. */
  lemma OwnExportsFirst(decls: Decls, m: ModuleId)
    ensures AddAll([], OwnExports(decls, m)) <= Effective(decls, m)
  {
    var g := ReexportGraph(decls);
    var order := Preorder(g, [m], {});
    assert m !in {} && order[0] == m;
    EarlierComesFirst(OwnExports(decls, m), ExportsOf(decls, order[1..]));
  }

  /** Adding what another accumulation left over adds the same providers in the same order. */
  lemma {:induction false} AddAllAbsorbs(out: seq<Provider>, acc: seq<Provider>, a: seq<Provider>)
    requires NoDup(acc)
    ensures AddAll(out, AddAll(acc, a)) == AddAll(out, acc + a)
    decreases |a|
  {
    if a == [] {
      assert acc + a == acc;
    } else if a[0] in acc {
      AddAllAbsorbs(out, acc, a[1..]);
      AddAllConcat(out, acc, a[1..]);
      AddAllConcat(out, acc, a);
      AddAllAddsSubset(out, acc, a[0]);
    } else {
      AddAllAbsorbs(out, acc + [a[0]], a[1..]);
      assert acc + [a[0]] + a[1..] == acc + a;
    }
  }

  lemma {:induction false} AddAllAddsSubset(out: seq<Provider>, ps: seq<Provider>, p: Provider)
    requires p in ps || p in out
    ensures p in AddAll(out, ps)
    decreases |ps|
  {
    if ps != [] {
      AddAllAddsSubset(if ps[0] in out then out else out + [ps[0]], ps[1..], p);
    }
  }

  lemma {:induction false} ExportsOfConcat(decls: Decls, a: seq<ModuleId>, b: seq<ModuleId>)
    ensures ExportsOf(decls, a + b) == ExportsOf(decls, a) + ExportsOf(decls, b)
  {
    if a == [] {
      assert a + b == b;
    } else {
      ExportsOfConcat(decls, a[1..], b);
      assert (a + b)[1..] == a[1..] + b;
    }
  }

  lemma {:induction false} InExportsOf(decls: Decls, mods: seq<ModuleId>, p: Provider)
    ensures p in ExportsOf(decls, mods) <==> exists m :: m in mods && p in OwnExports(decls, m)
  {
    if mods != [] {
      InExportsOf(decls, mods[1..], p);
    }
  }

  /** Cyclic and self re-exports included, the effective exports are exactly the providers
      that some module reachable along re-exports exports itself, without repetition. */
  lemma EffectiveIsUnion(decls: Decls, m: ModuleId)
    ensures NoDup(Effective(decls, m))
    ensures forall p :: p in Effective(decls, m) <==>
              exists x :: Reaches(ReexportGraph(decls), m, x) && p in OwnExports(decls, x)
  {
    var order := Preorder(ReexportGraph(decls), [m], {});
    PreorderIsReachable(ReexportGraph(decls), m);
    AddAllAdds([], ExportsOf(decls, order));
    forall p ensures p in Effective(decls, m) <==>
        exists x :: Reaches(ReexportGraph(decls), m, x) && p in OwnExports(decls, x) {
      InExportsOf(decls, order, p);
      if x :| Reaches(ReexportGraph(decls), m, x) && p in OwnExports(decls, x) {
        assert x in order;
      }
    }
  }

  // ---- the recursive worker ----

  /** What a module exports itself, and after it what the modules expanded so far export. */
  function Collected(decls: Decls, m: ModuleId, expanded: seq<ModuleId>): seq<Provider>
    requires m in decls
  {
    AddAll([], decls[m].exports + ExportsOf(decls, expanded))
  }

  lemma NothingExpanded(decls: Decls, m: ModuleId, deps: seq<ModuleId>, before: set<ModuleId>)
    requires m in decls
    ensures deps[..0] == [] && before == before + Elems(Preorder(ReexportGraph(decls), [], before))
    ensures Collected(decls, m, Preorder(ReexportGraph(decls), [], before)) == AddAll([], decls[m].exports)
  {
    assert decls[m].exports + [] == decls[m].exports;
  }

  lemma ExpandedOneMore(decls: Decls, m: ModuleId, deps: seq<ModuleId>, before: set<ModuleId>, i: nat)
    requires m in decls && i < |deps|
    ensures var sofar := Preorder(ReexportGraph(decls), deps[..i], before);
            var next := Preorder(ReexportGraph(decls), [deps[i]], before + Elems(sofar));
            && before + Elems(sofar) + Elems(next)
                == before + Elems(Preorder(ReexportGraph(decls), deps[..i + 1], before))
            && AddAll(Collected(decls, m, sofar), AddAll([], ExportsOf(decls, next)))
                == Collected(decls, m, Preorder(ReexportGraph(decls), deps[..i + 1], before))
  {
    var g := ReexportGraph(decls);
    var sofar := Preorder(g, deps[..i], before);
    var next := Preorder(g, [deps[i]], before + Elems(sofar));
    assert deps[..i + 1] == deps[..i] + [deps[i]];
    PreorderSplits(g, deps[..i], [deps[i]], before);
    assert before + Elems(sofar) + Elems(next) == before + Elems(sofar + next);
    MergesInOrder(decls, decls[m].exports, sofar, next);
  }

  class ExportWalk {
    const decls: Decls
    var visited: set<ModuleId>

    constructor (decls: Decls)
      ensures this.decls == decls && visited == {}
    {
      this.decls := decls;
      visited := {};
    }

    /** Each call removes duplicates from its own result only, yet the results merge into the
        first occurrences along the depth-first order. */
    method Expand(m: ModuleId) returns (out: seq<Provider>)
      requires ClosedUnder(ReexportGraph(decls), decls.Keys) && m in decls
      modifies this
      ensures var order := Preorder(ReexportGraph(decls), [m], old(visited));
              out == AddAll([], ExportsOf(decls, order)) && visited == old(visited) + Elems(order)
      decreases decls.Keys - visited
    {
      if m in visited {
        return [];
      }
      ghost var before := visited + {m};
      visited := visited + {m};
      out := ExpandOwn(m);
      var deps := decls[m].exportedModules;
      assert forall y :: y in deps ==> y in Deps(ReexportGraph(decls), m);
      NothingExpanded(decls, m, deps, before);
      for i := 0 to |deps|
        invariant visited == before + Elems(Preorder(ReexportGraph(decls), deps[..i], before))
        invariant out == Collected(decls, m, Preorder(ReexportGraph(decls), deps[..i], before))
      {
        assert m in decls.Keys - old(visited) && m in visited;
        var more := Expand(deps[i]);
        ExpandedOneMore(decls, m, deps, before, i);
        out := Merge(out, more);
      }
      assert deps[..|deps|] == deps && deps + [m][1..] == deps;
      assert old(visited) + Elems([m] + Preorder(ReexportGraph(decls), deps, before))
          == before + Elems(Preorder(ReexportGraph(decls), deps, before));
    }

    method ExpandOwn(m: ModuleId) returns (out: seq<Provider>)
      requires m in decls
      ensures out == AddAll([], decls[m].exports)
    {
      out := [];
      var own := decls[m].exports;
      for i := 0 to |own|
        invariant out == AddAll([], own[..i])
      {
        AddAllConcat([], own[..i], [own[i]]);
        assert own[..i + 1] == own[..i] + [own[i]];
        out := Add(out, own[i]);
      }
      assert own[..|own|] == own;
    }

    method Add(out: seq<Provider>, p: Provider) returns (r: seq<Provider>)
      ensures r == AddAll(out, [p])
    {
      r := if p in out then out else out + [p];
    }

    method Merge(out: seq<Provider>, more: seq<Provider>) returns (r: seq<Provider>)
      ensures r == AddAll(out, more)
    {
      r := out;
      for i := 0 to |more|
        invariant r == AddAll(out, more[..i])
      {
        AddAllConcat(out, more[..i], [more[i]]);
        assert more[..i + 1] == more[..i] + [more[i]];
        r := Add(r, more[i]);
      }
      assert more[..|more|] == more;
    }
  }

  lemma MergesInOrder(decls: Decls, own: seq<Provider>, sofar: seq<ModuleId>, next: seq<ModuleId>)
    ensures AddAll(AddAll([], own + ExportsOf(decls, sofar)), AddAll([], ExportsOf(decls, next)))
         == AddAll([], own + ExportsOf(decls, sofar + next))
  {
    MergeAbsorbs(own + ExportsOf(decls, sofar), ExportsOf(decls, next));
    ExportsOfConcat(decls, sofar, next);
    ConcatIsAssociative(own, ExportsOf(decls, sofar), ExportsOf(decls, next));
  }

  lemma MergeAbsorbs(a: seq<Provider>, b: seq<Provider>)
    ensures AddAll(AddAll([], a), AddAll([], b)) == AddAll([], a + b)
  {
    AddAllAbsorbs(AddAll([], a), [], b);
    assert [] + b == b;
    AddAllConcat([], a, b);
  }

  method EffectiveExports(decls: Decls, m: ModuleId) returns (out: seq<Provider>)
    requires ClosedUnder(ReexportGraph(decls), decls.Keys) && m in decls
    ensures out == Effective(decls, m)
  {
    var walk := new ExportWalk(decls);
    out := walk.Expand(m);
  }
}
