// internal/validate/validate.go: when the recursive validation comes to an end, although schemas
// may refer to themselves and sanitizers may return any value.
module Termination {
  import opened Graphs
  import opened Validation

  // ---- sanitizers that do not deepen values ----

  /** How deeply a value is nested: at most n containers inside one another. */
  ghost predicate Within(v: Json, n: nat) {
    match v
    case Arr(items) => n > 0 && forall i :: 0 <= i < |items| ==> Within(items[i], n - 1)
    case Obj(fields) => n > 0 && forall k :: k in fields ==> Within(fields[k], n - 1)
    case _ => true
  }

  lemma {:induction false} WithinMore(v: Json, n: nat, m: nat)
    requires Within(v, n) && n <= m
    ensures Within(v, m)
    decreases n
  {
    match v
    case Arr(items) =>
      forall i | 0 <= i < |items| ensures Within(items[i], m - 1) {
        WithinMore(items[i], n - 1, m - 1);
      }
    case Obj(fields) =>
      forall k | k in fields ensures Within(fields[k], m - 1) {
        WithinMore(fields[k], n - 1, m - 1);
      }
    case _ =>
  }

  lemma {:induction false} ItemsWithin(v: Json) returns (n: nat)
    requires v.Arr?
    ensures forall i :: 0 <= i < |v.items| ==> Within(v.items[i], n)
    decreases v, 0
  {
    var items := v.items;
    n := 0;
    for i := 0 to |items|
      invariant forall j :: 0 <= j < i ==> Within(items[j], n)
    {
      var d := EveryValueIsFinite(v.items[i]);
      forall j | 0 <= j <= i ensures Within(items[j], n + d) {
        WithinMore(items[j], if j < i then n else d, n + d);
      }
      n := n + d;
    }
  }

  lemma {:induction false} FieldsWithin(v: Json) returns (n: nat)
    requires v.Obj?
    ensures forall k :: k in v.fields ==> Within(v.fields[k], n)
    decreases v, 0
  {
    var fields := v.fields;
    n := 0;
    var todo := fields.Keys;
    while todo != {}
      invariant todo <= fields.Keys && forall k :: k in fields && k !in todo ==> Within(fields[k], n)
    {
      var key :| key in todo;
      var d := EveryValueIsFinite(v.fields[key]);
      forall k | k in fields && (k == key || k !in todo) ensures Within(fields[k], n + d) {
        WithinMore(fields[k], if k == key then d else n, n + d);
      }
      n, todo := n + d, todo - {key};
    }
  }

  /** Every JSON value is nested to some finite depth. */
  lemma {:induction false} EveryValueIsFinite(v: Json) returns (n: nat)
    ensures Within(v, n)
    decreases v, 1
  {
    match v
    case Arr(_) =>
      n := ItemsWithin(v);
      n := n + 1;
    case Obj(_) =>
      n := FieldsWithin(v);
      n := n + 1;
    case _ => n := 0;
  }

  /** A sanitizer that never returns a deeper value than it is given. */
  ghost predicate Gentle(f: Json -> Json) {
    forall v, n: nat :: Within(v, n) ==> Within(f(v), n)
  }

  ghost predicate GentleProperty(p: Property) {
    && (p.sanitize.Some? ==> Gentle(p.sanitize.value))
    && (p.shape.ArrayShape? ==> GentleProperty(p.shape.item))
  }

  ghost predicate AllGentle(c: Catalog) {
    forall id, offset :: id in c && offset in c[id] ==> GentleProperty(c[id][offset])
  }

  ghost predicate Shallow(c: Catalog, site: Site, n: nat) {
    match site
    case Missing(_) => true
    case Value(p, raw) => GentleProperty(p) && Within(raw, n)
    case Element(_, v) => Within(v, n)
    case Whole(_, fields) => n > 0 && forall k :: k in fields ==> Within(fields[k], n - 1)
  }

  lemma ChildIsShallow(c: Catalog, site: Site, n: nat, step: Step)
    requires AllGentle(c) && Shallow(c, site, n) && Child(c, site, step).Some?
    ensures n > 0 && Shallow(c, Child(c, site, step).value, n - 1)
  {
    if site.Value? && site.p.sanitize.Some? {
      assert Within(site.p.sanitize.value(site.raw), n);
    }
  }

  lemma {:induction false} ShallowIsBounded(c: Catalog, site: Site, n: nat)
    requires AllGentle(c) && Shallow(c, site, n)
    ensures Bounded(c, site, n)
    decreases n
  {
    forall step | Child(c, site, step).Some? ensures n > 0 && Bounded(c, Child(c, site, step).value, n - 1) {
      ChildIsShallow(c, site, n, step);
      ShallowIsBounded(c, Child(c, site, step).value, n - 1);
    }
  }

  /** With gentle sanitizers the recursion is bounded on every value, however the schemas refer
      to one another. */
  lemma GentleSchemasTerminate(c: Catalog, p: Property, v: Json) returns (n: nat)
    requires AllGentle(c) && GentleProperty(p)
    ensures Bounded(c, Value(p, v), n)
  {
    n := EveryValueIsFinite(v);
    ShallowIsBounded(c, Value(p, v), n);
  }

  // ---- schemas without a cycle of references ----

  /** The schemas that the validation of a property goes on to. */
  function Follows(p: Property): set<SchemaId> {
    if p.custom.Some? then {}
    else
      match p.shape
      case ArrayShape(item, itemRef) => if itemRef.Some? then {itemRef.value} else Follows(item)
      case ObjectShape(additional, ref) => if !additional && ref.Some? then {ref.value} else {}
      case _ => {}
  }

  ghost predicate FollowedFrom(s: Schema, t: SchemaId) {
    exists offset :: offset in s && Key(s[offset]).Some? && t in Follows(s[offset])
  }

  /** The graph has the references that the validator follows, in some order. */
  ghost predicate FollowGraph(c: Catalog, g: Graph<SchemaId>) {
    forall s, t :: t in Deps(g, s) <==> s in c && FollowedFrom(c[s], t)
  }

  /** How many arrays are nested in a property before a schema is followed. */
  function Nest(p: Property): nat {
    if p.shape.ArrayShape? then 1 + (if p.shape.itemRef.None? then Nest(p.shape.item) else 0) else 0
  }

  lemma {:induction false} BoundedMore(c: Catalog, site: Site, n: nat, m: nat)
    requires Bounded(c, site, n) && n <= m
    ensures Bounded(c, site, m)
    decreases n
  {
    forall step | Child(c, site, step).Some? ensures m > 0 && Bounded(c, Child(c, site, step).value, m - 1) {
      BoundedMore(c, Child(c, site, step).value, n - 1, m - 1);
    }
  }

  lemma ElementBounded(c: Catalog, t: SchemaId, v: Json, w: nat)
    requires forall fields :: Bounded(c, Whole(t, fields), w)
    ensures Bounded(c, Element(t, v), w)
  {
    if v.Obj? {
      SameChildren(c, Whole(t, v.fields), Element(t, v), w);
    }
  }

  /** If the schemas that a property leads to are bounded whatever the object, so is the property
      whatever its value, before and after its sanitizers. */
  lemma {:induction false} ValueBounded(c: Catalog, p: Property, raw: Json, w: nat)
    requires forall t, fields :: t in Follows(p) ==> Bounded(c, Whole(t, fields), w)
    ensures Bounded(c, Value(p, raw), Nest(p) + w)
    decreases p
  {
    var v := Sanitized(p, raw);
    forall step | Child(c, Value(p, raw), step).Some?
      ensures Nest(p) + w > 0 && Bounded(c, Child(c, Value(p, raw), step).value, Nest(p) + w - 1) {
      if p.shape.ArrayShape? {
        var item := v.items[step.i];
        if p.shape.itemRef.None? {
          ValueBounded(c, p.shape.item, item, w);
        } else {
          ElementBounded(c, p.shape.itemRef.value, item, w);
        }
      } else {
        assert Bounded(c, Whole(p.shape.ref.value, v.fields), w);
        assert Child(c, Whole(p.shape.ref.value, v.fields), step) == Child(c, Value(p, raw), step);
      }
    }
  }

  ghost predicate NestsAtMost(c: Catalog, most: nat) {
    forall id, offset :: id in c && offset in c[id] ==> Nest(c[id][offset]) <= most
  }

  lemma DeepestOf(s: Schema) returns (most: nat)
    ensures forall offset :: offset in s ==> Nest(s[offset]) <= most
  {
    most := 0;
    var todo := s.Keys;
    while todo != {}
      invariant todo <= s.Keys && forall offset :: offset in s && offset !in todo ==> Nest(s[offset]) <= most
    {
      var offset :| offset in todo;
      most, todo := most + Nest(s[offset]), todo - {offset};
    }
  }

  lemma DeepestNest(c: Catalog) returns (most: nat)
    ensures NestsAtMost(c, most)
  {
    most := 0;
    var todo := c.Keys;
    while todo != {}
      invariant todo <= c.Keys && forall id, offset :: id in c && id !in todo && offset in c[id] ==>
                  Nest(c[id][offset]) <= most
    {
      var id :| id in todo;
      var d := DeepestOf(c[id]);
      most, todo := most + d, todo - {id};
    }
  }

  /** Without closed walks, a walk repeats nothing and is no longer than the catalog. */
  lemma WalkIsShort(c: Catalog, g: Graph<SchemaId>, walk: seq<SchemaId>)
    requires Walk(g, walk) && Elems(walk) <= c.Keys
    ensures |walk| <= |c| || Cyclic(g)
  {
    if NoDup(walk) {
      DistinctElems(walk);
      SubsetIsSmaller(Elems(walk), c.Keys);
    } else {
      var i, j :| 0 <= i < j < |walk| && walk[i] == walk[j];
      assert ClosedWalk(g, walk[i..j + 1]);
    }
  }

  lemma {:induction false} DistinctElems(s: seq<SchemaId>)
    requires NoDup(s)
    ensures |Elems(s)| == |s|
  {
    if s != [] {
      DistinctElems(s[1..]);
      assert Elems(s) == {s[0]} + Elems(s[1..]);
    }
  }

  lemma {:induction false} SubsetIsSmaller(a: set<SchemaId>, b: set<SchemaId>)
    requires a <= b
    ensures |a| <= |b|
  {
    if a != {} {
      var x :| x in a;
      SubsetIsSmaller(a - {x}, b - {x});
    }
  }

  /** The steps left below the end of a walk. */
  function Budget(size: nat, length: nat, most: nat): nat
    decreases size + 1 - length
  {
    if length > size then 0 else (most + 1) + Budget(size, length + 1, most)
  }

  lemma {:induction false} SchemaBounded(c: Catalog, g: Graph<SchemaId>, walk: seq<SchemaId>, most: nat,
                                         fields: map<string, Json>)
    requires AllSound(c) && FollowGraph(c, g) && !Cyclic(g) && NestsAtMost(c, most)
    requires Walk(g, walk) && Elems(walk) <= c.Keys
    ensures Bounded(c, Whole(walk[|walk| - 1], fields), Budget(|c|, |walk|, most))
    decreases |c| + 1 - |walk|
  {
    WalkIsShort(c, g, walk);
    var id := walk[|walk| - 1];
    var w := Budget(|c|, |walk| + 1, most);
    forall step | Child(c, Whole(id, fields), step).Some?
      ensures Bounded(c, Child(c, Whole(id, fields), step).value, most + w) {
      PropertyBounded(c, g, walk, most, step.offset, if step.key in fields then fields[step.key] else Null);
    }
  }

  lemma {:induction false} PropertyBounded(c: Catalog, g: Graph<SchemaId>, walk: seq<SchemaId>, most: nat, offset: nat,
                                           raw: Json)
    requires AllSound(c) && FollowGraph(c, g) && !Cyclic(g) && NestsAtMost(c, most)
    requires Walk(g, walk) && Elems(walk) <= c.Keys && |walk| <= |c|
    requires var id := walk[|walk| - 1]; id in c && offset in c[id] && Key(c[id][offset]).Some?
    ensures Bounded(c, Value(c[walk[|walk| - 1]][offset], raw), most + Budget(|c|, |walk| + 1, most))
    decreases |c| + 1 - |walk|, 0
  {
    var p := c[walk[|walk| - 1]][offset];
    var w := Budget(|c|, |walk| + 1, most);
    forall t, fields | t in Follows(p) ensures Bounded(c, Whole(t, fields), w) {
      FollowedIsSound(c, p, t);
      assert t in Deps(g, walk[|walk| - 1]);
      SchemaBounded(c, g, walk + [t], most, fields);
    }
    ValueBounded(c, p, raw, w);
    BoundedMore(c, Value(p, raw), Nest(p) + w, most + w);
  }

  lemma {:induction false} FollowedIsSound(c: Catalog, p: Property, t: SchemaId)
    requires Sound(c, p) && t in Follows(p)
    ensures t in c
  {
    if p.shape.ArrayShape? && p.shape.itemRef.None? {
      FollowedIsSound(c, p.shape.item, t);
    }
  }

  /** Without a cycle of references the recursion is bounded whatever the sanitizers do. */
  lemma AcyclicSchemasTerminate(c: Catalog, g: Graph<SchemaId>, id: SchemaId, fields: map<string, Json>)
    returns (n: nat)
    requires AllSound(c) && FollowGraph(c, g) && !Cyclic(g) && id in c
    ensures Bounded(c, Whole(id, fields), n)
  {
    var most := DeepestNest(c);
    SchemaBounded(c, g, [id], most, fields);
    n := Budget(|c|, 1, most);
  }

  // ---- and with one ----

  /** Every key that some property looks for. */
  function KeysOf(c: Catalog): set<string> {
    set id, offset | id in c && offset in c[id] && Key(c[id][offset]).Some? :: Key(c[id][offset]).value
  }

  /** An object with all these keys. */
  function AllNull(keys: set<string>): map<string, Json> {
    map k | k in keys :: Null
  }

  /** Sanitizers that answer any value with one that goes on. */
  function Regrow(p: Property, keys: set<string>): Property {
    match p.shape
    case ArrayShape(item, itemRef) =>
      p.(shape := ArrayShape(Regrow(item, keys), itemRef), sanitize := Some((v: Json) => Arr([Obj(AllNull(keys))])))
    case ObjectShape(_, _) => p.(sanitize := Some((v: Json) => Obj(AllNull(keys))))
    case _ => p
  }

  function RegrowAll(c: Catalog, keys: set<string>): Catalog {
    map id | id in c :: map offset | offset in c[id] :: Regrow(c[id][offset], keys)
  }

  /** The same property without its sanitizers, those of its items included. */
  function Bare(p: Property): Property {
    var shape := if p.shape.ArrayShape? then ArrayShape(Bare(p.shape.item), p.shape.itemRef) else p.shape;
    p.(shape := shape, sanitize := None)
  }

  /** Two catalogs that differ in their sanitizers only. */
  ghost predicate SameSchemas(c: Catalog, d: Catalog) {
    && c.Keys == d.Keys
    && forall id :: id in c ==> c[id].Keys == d[id].Keys && forall offset :: offset in c[id] ==>
        Bare(c[id][offset]) == Bare(d[id][offset])
  }

  lemma {:induction false} RegrowIsBare(p: Property, keys: set<string>)
    ensures Bare(Regrow(p, keys)) == Bare(p)
  {
    if p.shape.ArrayShape? {
      RegrowIsBare(p.shape.item, keys);
    }
  }

  lemma {:induction false} BareKeeps(c: Catalog, p: Property)
    ensures Follows(Bare(p)) == Follows(p) && Key(Bare(p)) == Key(p) && (Sound(c, Bare(p)) <==> Sound(c, p))
  {
    if p.shape.ArrayShape? {
      BareKeeps(c, p.shape.item);
    }
  }

  lemma SameSchemasFollow(c: Catalog, d: Catalog, g: Graph<SchemaId>)
    requires SameSchemas(c, d) && FollowGraph(c, g) && AllSound(c)
    ensures FollowGraph(d, g) && AllSound(d)
  {
    forall id, offset | id in c && offset in c[id]
      ensures Follows(c[id][offset]) == Follows(d[id][offset]) && Key(c[id][offset]) == Key(d[id][offset])
                && Sound(d, d[id][offset]) {
      BareKeeps(c, c[id][offset]);
      BareKeeps(c, d[id][offset]);
      SoundAnywhere(c, d, d[id][offset]);
    }
    forall s, t ensures t in Deps(g, s) <==> s in d && FollowedFrom(d[s], t) {
      if s in c {
        assert FollowedFrom(c[s], t) <==> FollowedFrom(d[s], t);
      }
    }
  }

  lemma {:induction false} SoundAnywhere(c: Catalog, d: Catalog, p: Property)
    requires c.Keys == d.Keys && Sound(c, p)
    ensures Sound(d, p)
  {
    if p.shape.ArrayShape? {
      SoundAnywhere(c, d, p.shape.item);
    }
  }

  /** A regrown property leads on to whatever schema it follows. */
  lemma {:induction false} RegrowLeadsOn(d: Catalog, p: Property, keys: set<string>, raw: Json, t: SchemaId, n: nat)
    requires t in Follows(p) && Bounded(d, Value(Regrow(p, keys), raw), n)
    ensures Bounded(d, Whole(t, AllNull(keys)), n)
    decreases p
  {
    var site, whole := Value(Regrow(p, keys), raw), Whole(t, AllNull(keys));
    if p.shape.ObjectShape? {
      SameChildren(d, site, whole, n);
    } else if p.shape.itemRef.Some? {
      var element := Element(t, Obj(AllNull(keys)));
      assert Child(d, site, Index(0)) == Some(element);
      SameChildren(d, element, whole, n - 1);
      BoundedMore(d, whole, n - 1, n);
    } else {
      assert Child(d, site, Index(0)) == Some(Value(Regrow(p.shape.item, keys), Obj(AllNull(keys))));
      RegrowLeadsOn(d, p.shape.item, keys, Obj(AllNull(keys)), t, n - 1);
      BoundedMore(d, whole, n - 1, n);
    }
  }

  /** What bounds the recursion at one schema bounds it at another, a step further down. */
  ghost predicate Descends(d: Catalog, fields: map<string, Json>, s: SchemaId, t: SchemaId) {
    forall n: nat :: Bounded(d, Whole(s, fields), n) ==> n > 0 && Bounded(d, Whole(t, fields), n - 1)
  }

  lemma RegrownDescends(c: Catalog, keys: set<string>, s: SchemaId, t: SchemaId)
    requires s in c && FollowedFrom(c[s], t) && keys == KeysOf(c)
    ensures Descends(RegrowAll(c, keys), AllNull(keys), s, t)
  {
    var d := RegrowAll(c, keys);
    var offset :| offset in c[s] && Key(c[s][offset]).Some? && t in Follows(c[s][offset]);
    var p, key := c[s][offset], Key(c[s][offset]).value;
    assert key in keys && d[s][offset] == Regrow(p, keys);
    forall n: nat | Bounded(d, Whole(s, AllNull(keys)), n) ensures n > 0 && Bounded(d, Whole(t, AllNull(keys)), n - 1) {
      RegrownStep(d, p, keys, s, offset, key, t, n);
    }
  }

  lemma RegrownStep(d: Catalog, p: Property, keys: set<string>, s: SchemaId, offset: nat, key: string, t: SchemaId,
                    n: nat)
    requires s in d && offset in d[s] && d[s][offset] == Regrow(p, keys)
    requires Key(p) == Some(key) && key in keys && t in Follows(p)
    requires Bounded(d, Whole(s, AllNull(keys)), n)
    ensures n > 0 && Bounded(d, Whole(t, AllNull(keys)), n - 1)
  {
    assert Child(d, Whole(s, AllNull(keys)), Prop(offset, key)) == Some(Value(Regrow(p, keys), Null));
    RegrowLeadsOn(d, p, keys, Null, t, n - 1);
  }

  /** Around a cycle there is always a step further down. */
  lemma {:induction false} CircleNeverEnds(d: Catalog, fields: map<string, Json>, cycle: seq<SchemaId>, i: nat, n: nat)
    requires i < |cycle| - 1 && cycle[0] == cycle[|cycle| - 1]
    requires forall k :: 0 <= k < |cycle| - 1 ==> Descends(d, fields, cycle[k], cycle[k + 1])
    ensures !Bounded(d, Whole(cycle[i], fields), n)
    decreases n
  {
    if Bounded(d, Whole(cycle[i], fields), n) {
      assert Descends(d, fields, cycle[i], cycle[i + 1]);
      CircleNeverEnds(d, fields, cycle, if i + 1 < |cycle| - 1 then i + 1 else 0, n - 1);
    }
  }

  /** Along a cycle of references such sanitizers never let the validator come to an end. */
  lemma CyclicNeverEnds(c: Catalog, g: Graph<SchemaId>, cycle: seq<SchemaId>, n: nat)
    requires FollowGraph(c, g) && ClosedWalk(g, cycle)
    ensures cycle[0] in c && !Bounded(RegrowAll(c, KeysOf(c)), Whole(cycle[0], AllNull(KeysOf(c))), n)
  {
    forall k | 0 <= k < |cycle| - 1
      ensures cycle[k] in c && Descends(RegrowAll(c, KeysOf(c)), AllNull(KeysOf(c)), cycle[k], cycle[k + 1]) {
      assert cycle[k + 1] in Deps(g, cycle[k]);
      RegrownDescends(c, KeysOf(c), cycle[k], cycle[k + 1]);
    }
    CircleNeverEnds(RegrowAll(c, KeysOf(c)), AllNull(KeysOf(c)), cycle, 0, n);
  }

  ghost predicate Terminates(c: Catalog, id: SchemaId, fields: map<string, Json>) {
    exists n: nat :: Bounded(c, Whole(id, fields), n)
  }

  /** Validation comes to an end on every body, for every schema, and whatever the sanitizers do,
      if and only if the references that it follows have no cycle. */
  lemma TerminatesIffAcyclic(c: Catalog, g: Graph<SchemaId>)
    requires AllSound(c) && FollowGraph(c, g)
    ensures (forall d, id, fields :: SameSchemas(c, d) && id in c ==> Terminates(d, id, fields)) <==> !Cyclic(g)
  {
    if !Cyclic(g) {
      forall d, id, fields | SameSchemas(c, d) && id in c ensures Terminates(d, id, fields) {
        SameSchemasFollow(c, d, g);
        var n := AcyclicSchemasTerminate(d, g, id, fields);
      }
    } else {
      var cycle :| ClosedWalk(g, cycle);
      var d, all := RegrowAll(c, KeysOf(c)), AllNull(KeysOf(c));
      forall id, offset | id in c && offset in c[id] ensures Bare(c[id][offset]) == Bare(d[id][offset]) {
        RegrowIsBare(c[id][offset], KeysOf(c));
      }
      assert SameSchemas(c, d);
      forall n: nat ensures cycle[0] in c && !Bounded(d, Whole(cycle[0], all), n) {
        CyclicNeverEnds(c, g, cycle, n);
      }
      CyclicNeverEnds(c, g, cycle, 0);
      assert !Terminates(d, cycle[0], all);
    }
  }

  // ---- gentle cycles ----

  /** A property that leads back to the schema it belongs to. */
  ghost predicate OnCycle(g: Graph<SchemaId>, s: SchemaId, p: Property) {
    exists t :: t in Follows(p) && Reaches(g, t, s)
  }

  /** Only properties that do not lead back to their schema have sanitizers that deepen values. */
  ghost predicate CyclesAreGentle(c: Catalog, g: Graph<SchemaId>) {
    forall id, offset :: id in c && offset in c[id] && Key(c[id][offset]).Some? && OnCycle(g, id, c[id][offset]) ==>
      GentleProperty(c[id][offset])
  }

  lemma GentleCatalogIsEnough(c: Catalog, g: Graph<SchemaId>)
    requires FollowGraph(c, g) && (AllGentle(c) || !Cyclic(g))
    ensures CyclesAreGentle(c, g)
  {
    forall id, offset | id in c && offset in c[id] && Key(c[id][offset]).Some? && OnCycle(g, id, c[id][offset])
      ensures GentleProperty(c[id][offset]) {
      var t :| t in Follows(c[id][offset]) && Reaches(g, t, id);
      assert t in Deps(g, id);
      ReturningIsCyclic(g, id, t);
    }
  }

  lemma {:induction false} StepsAreWalk(g: Graph<SchemaId>, root: SchemaId, x: SchemaId, n: nat)
    returns (walk: seq<SchemaId>)
    requires Steps(g, root, x, n)
    ensures Walk(g, walk) && walk[0] == root && walk[|walk| - 1] == x
    decreases n
  {
    if n == 0 {
      walk := [x];
    } else {
      var y :| Steps(g, root, y, n - 1) && x in Deps(g, y);
      walk := StepsAreWalk(g, root, y, n - 1);
      walk := walk + [x];
    }
  }

  lemma ReturningIsCyclic(g: Graph<SchemaId>, s: SchemaId, t: SchemaId)
    requires t in Deps(g, s) && Reaches(g, t, s)
    ensures Cyclic(g)
  {
    var n: nat :| Steps(g, t, s, n);
    var walk := StepsAreWalk(g, t, s, n);
    assert ClosedWalk(g, [s] + walk);
  }

  /** The schemas that validation can come to from a schema. */
  ghost function Ahead(c: Catalog, g: Graph<SchemaId>, s: SchemaId): set<SchemaId> {
    set x | x in c && Reaches(g, s, x)
  }

  lemma AheadShrinks(c: Catalog, g: Graph<SchemaId>, s: SchemaId, t: SchemaId)
    requires s in c && t in Deps(g, s)
    ensures |Ahead(c, g, t)| <= |Ahead(c, g, s)|
    ensures !Reaches(g, t, s) ==> |Ahead(c, g, t)| < |Ahead(c, g, s)|
  {
    forall x | x in Ahead(c, g, t) ensures x in Ahead(c, g, s) {
      ReachesFromDep(g, s, t, x);
    }
    ReachesSelf(g, s);
    SubsetIsSmaller(Ahead(c, g, t), Ahead(c, g, s));
    if !Reaches(g, t, s) {
      SubsetIsSmaller(Ahead(c, g, t), Ahead(c, g, s) - {s});
    }
  }

  /** The schemas that a property of s leads to are no further from the end than s. */
  ghost predicate LeadsAhead(c: Catalog, g: Graph<SchemaId>, p: Property, size: nat) {
    forall t :: t in Follows(p) ==> t in c && |Ahead(c, g, t)| <= size
  }

  /** An object of a schema, nested at most d deep, has a bound. */
  lemma {:induction false} SchemaEnds(c: Catalog, g: Graph<SchemaId>, id: SchemaId, fields: map<string, Json>, d: nat)
    returns (n: nat)
    requires AllSound(c) && FollowGraph(c, g) && CyclesAreGentle(c, g) && id in c && Within(Obj(fields), d)
    ensures Bounded(c, Whole(id, fields), n)
    decreases |Ahead(c, g, id)|, d, 1
  {
    n := 0;
    var todo := c[id].Keys;
    while todo != {}
      invariant todo <= c[id].Keys
      invariant forall o, key :: o in c[id] && o !in todo && Child(c, Whole(id, fields), Prop(o, key)).Some? ==>
                  Bounded(c, Child(c, Whole(id, fields), Prop(o, key)).value, n)
    {
      var offset :| offset in todo;
      var m := 0;
      if Key(c[id][offset]).Some? && Key(c[id][offset]).value in fields {
        m := PropertyEnds(c, g, id, offset, fields[Key(c[id][offset]).value], d - 1);
      }
      forall o, key | o in c[id] && (o == offset || o !in todo) && Child(c, Whole(id, fields), Prop(o, key)).Some?
        ensures Bounded(c, Child(c, Whole(id, fields), Prop(o, key)).value, n + m) {
        BoundedMore(c, Child(c, Whole(id, fields), Prop(o, key)).value, if o == offset then m else n, n + m);
      }
      n, todo := n + m, todo - {offset};
    }
    n := n + 1;
  }

  lemma {:induction false} PropertyEnds(c: Catalog, g: Graph<SchemaId>, id: SchemaId, offset: nat, raw: Json, d: nat)
    returns (n: nat)
    requires AllSound(c) && FollowGraph(c, g) && CyclesAreGentle(c, g)
    requires id in c && offset in c[id] && Key(c[id][offset]).Some? && Within(raw, d)
    ensures Bounded(c, Value(c[id][offset], raw), n)
    decreases |Ahead(c, g, id)|, d, 4
  {
    var p, size := c[id][offset], |Ahead(c, g, id)|;
    forall t | t in Follows(p)
      ensures t in c && |Ahead(c, g, t)| <= size && (!OnCycle(g, id, p) ==> |Ahead(c, g, t)| < size) {
      FollowedIsSound(c, p, t);
      assert t in Deps(g, id);
      AheadShrinks(c, g, id, t);
    }
    ReachesSelf(g, id);
    assert id in Ahead(c, g, id);
    if OnCycle(g, id, p) {
      n := GentleEnds(c, g, p, raw, size, d);
    } else {
      n := AnyEnds(c, g, p, raw, size - 1);
    }
  }

  /** A property with gentle sanitizers passes on values that are no deeper. */
  lemma {:induction false} GentleEnds(c: Catalog, g: Graph<SchemaId>, p: Property, raw: Json, size: nat, d: nat)
    returns (n: nat)
    requires AllSound(c) && FollowGraph(c, g) && CyclesAreGentle(c, g)
    requires LeadsAhead(c, g, p, size) && GentleProperty(p) && Within(raw, d)
    ensures Bounded(c, Value(p, raw), n)
    decreases size, d, 3
  {
    var v := Sanitized(p, raw);
    assert Within(v, d);
    n := 0;
    if Checked(p, v) && p.shape.ArrayShape? && v.Arr? {
      for i := 0 to |v.items|
        invariant forall j :: 0 <= j < i ==> Bounded(c, ItemSite(p, v.items[j]), n)
      {
        var m := 0;
        if p.shape.itemRef.None? {
          m := GentleEnds(c, g, p.shape.item, v.items[i], size, d - 1);
        } else if v.items[i].Obj? {
          m := SchemaEnds(c, g, p.shape.itemRef.value, v.items[i].fields, d - 1);
          SameChildren(c, Whole(p.shape.itemRef.value, v.items[i].fields), ItemSite(p, v.items[i]), m);
        }
        ItemsMore(c, p, v.items, i, n, m);
        n := n + m;
      }
      n := n + 1;
    } else if Checked(p, v) && p.shape.ObjectShape? && !p.shape.additional && p.shape.ref.Some? && v.Obj? {
      n := SchemaEnds(c, g, p.shape.ref.value, v.fields, d);
      SameChildren(c, Whole(p.shape.ref.value, v.fields), Value(p, raw), n);
    }
  }

  lemma ItemsMore(c: Catalog, p: Property, items: seq<Json>, i: nat, n: nat, m: nat)
    requires p.shape.ArrayShape? && i < |items| && Bounded(c, ItemSite(p, items[i]), m)
    requires forall j :: 0 <= j < i ==> Bounded(c, ItemSite(p, items[j]), n)
    ensures forall j :: 0 <= j <= i ==> Bounded(c, ItemSite(p, items[j]), n + m)
  {
    forall j | 0 <= j <= i ensures Bounded(c, ItemSite(p, items[j]), n + m) {
      BoundedMore(c, ItemSite(p, items[j]), if j < i then n else m, n + m);
    }
  }

  /** A property that does not lead back may make a value of any depth, but leaves its schema. */
  lemma {:induction false} AnyEnds(c: Catalog, g: Graph<SchemaId>, p: Property, raw: Json, size: nat) returns (n: nat)
    requires AllSound(c) && FollowGraph(c, g) && CyclesAreGentle(c, g) && LeadsAhead(c, g, p, size)
    ensures Bounded(c, Value(p, raw), n)
    decreases size + 1, 0, 0, p
  {
    var v := Sanitized(p, raw);
    n := 0;
    if Checked(p, v) && p.shape.ArrayShape? && v.Arr? {
      for i := 0 to |v.items|
        invariant forall j :: 0 <= j < i ==> Bounded(c, ItemSite(p, v.items[j]), n)
      {
        var m := 0;
        if p.shape.itemRef.None? {
          m := AnyEnds(c, g, p.shape.item, v.items[i], size);
        } else if v.items[i].Obj? {
          var d := EveryValueIsFinite(v.items[i]);
          m := SchemaEnds(c, g, p.shape.itemRef.value, v.items[i].fields, d);
          SameChildren(c, Whole(p.shape.itemRef.value, v.items[i].fields), ItemSite(p, v.items[i]), m);
        }
        ItemsMore(c, p, v.items, i, n, m);
        n := n + m;
      }
      n := n + 1;
    } else if Checked(p, v) && p.shape.ObjectShape? && !p.shape.additional && p.shape.ref.Some? && v.Obj? {
      var d := EveryValueIsFinite(v);
      n := SchemaEnds(c, g, p.shape.ref.value, v.fields, d);
      SameChildren(c, Whole(p.shape.ref.value, v.fields), Value(p, raw), n);
    }
  }

  // ---- the whole body ----

  /** If no sanitizer on a cycle of references deepens values, the pass ends on every body. */
  method ValidateAnyBody(lib: Library, c: Catalog, id: SchemaId, body: Json, ghost g: Graph<SchemaId>)
    returns (vs: seq<Violation>)
    requires AllSound(c) && id in c && FollowGraph(c, g) && CyclesAreGentle(c, g)
    ensures Reports(vs, lib, c, Whole(id, FieldsOf(body)), [])
    ensures vs == [] <==> Conforms(lib, c, Whole(id, FieldsOf(body)))
  {
    ghost var d := EveryValueIsFinite(Obj(FieldsOf(body)));
    ghost var n := SchemaEnds(c, g, id, FieldsOf(body), d);
    vs := ValidateBody(lib, c, id, body, n);
  }
}
