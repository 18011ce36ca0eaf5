// internal/openapi/generate.go: the walk over the modules, and the registration of a possibly
// cyclic schema graph as OpenAPI components, each schema reserved before its properties are walked.
module Documentation {
  import opened Graphs
  import opened ApiDocument
  import opened References
  import opened Validation
  import Modules

  /** From one of these schemas the references lead to t. */
  ghost predicate From(refs: Graph<SchemaId>, sources: set<SchemaId>, t: SchemaId) {
    exists s :: s in sources && Reaches(refs, s, t)
  }

  lemma ReachedFromDeps(refs: Graph<SchemaId>, s: SchemaId)
    ensures forall t :: From(refs, Elems(Deps(refs, s)), t) ==> From(refs, {s}, t)
  {
    forall t | From(refs, Elems(Deps(refs, s)), t) ensures From(refs, {s}, t) {
      var u :| u in Elems(Deps(refs, s)) && Reaches(refs, u, t);
      ReachesFromDep(refs, s, u, t);
      assert s in {s};
    }
  }

  // ---- facts about the walk over the modules ----

  ghost predicate ControllersKnown(g: Registry, cs: seq<Controller>) {
    forall c, r :: c in cs && c.Routable? && r in c.routes ==> RouteKnown(g, r)
  }

  ghost predicate AppKnown(g: Registry, app: Application) {
    forall m :: m in app.controllers ==> ControllersKnown(g, app.controllers[m])
  }

  lemma DocumentedByOneMore(g: Registry, entries: seq<Entry>, exception: SchemaId, e: Entry, s: SchemaId)
    ensures Documented(g, entries + [e], exception, s) <==>
              Documented(g, entries, exception, s) || From(g.refs, RouteRefs(g, e.route, exception), s)
  {
    if Documented(g, entries, exception, s) {
      var e0, t :| e0 in entries && t in RouteRefs(g, e0.route, exception) && Reaches(g.refs, t, s);
      assert e0 in entries + [e];
    }
    if From(g.refs, RouteRefs(g, e.route, exception), s) {
      assert e in entries + [e];
    }
  }

  lemma RouteEntriesGrow(entries: seq<Entry>, prefix: string, routes: seq<Route>, i: nat)
    requires i < |routes|
    ensures entries + RouteEntries(prefix, routes[..i + 1]) ==
            if routes[i].excluded then entries + RouteEntries(prefix, routes[..i])
            else entries + RouteEntries(prefix, routes[..i]) + [Entry(prefix + routes[i].path, routes[i])]
  {
    var sofar := RouteEntries(prefix, routes[..i]);
    assert routes[..i + 1][..i] == routes[..i] && sofar + [] == sofar;
    ConcatIsAssociative(entries, sofar, [Entry(prefix + routes[i].path, routes[i])]);
  }

  lemma ControllerEntriesGrow(entries: seq<Entry>, cs: seq<Controller>, i: nat)
    requires i < |cs|
    ensures entries + ControllerEntries(cs[..i + 1]) ==
            if cs[i].Routable? then entries + ControllerEntries(cs[..i]) + RouteEntries(cs[i].prefix, cs[i].routes)
            else entries + ControllerEntries(cs[..i])
  {
    var sofar := ControllerEntries(cs[..i]);
    assert cs[..i + 1][..i] == cs[..i] && sofar + [] == sofar;
    if cs[i].Routable? {
      ConcatIsAssociative(entries, sofar, RouteEntries(cs[i].prefix, cs[i].routes));
    }
  }

  lemma EntriesKnown(g: Registry, entries: seq<Entry>, prefix: string, routes: seq<Route>, i: nat)
    requires RoutesKnown(g, entries) && i <= |routes| && forall r :: r in routes ==> RouteKnown(g, r)
    ensures RoutesKnown(g, entries + RouteEntries(prefix, routes[..i]))
  {
    forall e | e in RouteEntries(prefix, routes[..i]) ensures RouteKnown(g, e.route) {
      InRouteEntries(prefix, routes[..i], e);
    }
  }

  lemma ControllersKnownUpTo(g: Registry, entries: seq<Entry>, cs: seq<Controller>, i: nat)
    requires RoutesKnown(g, entries) && i <= |cs| && ControllersKnown(g, cs)
    ensures RoutesKnown(g, entries + ControllerEntries(cs[..i]))
  {
    forall e | e in ControllerEntries(cs[..i]) ensures RouteKnown(g, e.route) {
      InControllerEntries(cs[..i], e);
    }
  }

  lemma WalkedKnown(g: Registry, app: Application, entries: seq<Entry>, m: Modules.ModuleId,
                    order: seq<Modules.ModuleId>)
    requires RoutesKnown(g, entries) && AppKnown(g, app)
    ensures RoutesKnown(g, entries + ControllerEntries(ControllersOf(app, m)) + EntriesOf(app, order))
  {
    ControllersKnownUpTo(g, entries, ControllersOf(app, m), |ControllersOf(app, m)|);
    assert ControllersOf(app, m)[..|ControllersOf(app, m)|] == ControllersOf(app, m);
    forall e | e in EntriesOf(app, order) ensures RouteKnown(g, e.route) {
      InEntriesOf(app, order, e);
    }
  }

  lemma WalkBegins(app: Application, deps: seq<Modules.ModuleId>, before: set<Modules.ModuleId>, entries: seq<Entry>,
                   own: seq<Entry>)
    ensures deps[..0] == [] && before == before + Elems(Preorder(app.imports, [], before))
    ensures entries + own + EntriesOf(app, Preorder(app.imports, [], before)) == entries + own
  {
  }

  lemma WalkGoesOn(app: Application, deps: seq<Modules.ModuleId>, before: set<Modules.ModuleId>, entries: seq<Entry>,
                   i: nat)
    requires i < |deps|
    ensures var sofar := Preorder(app.imports, deps[..i], before);
            var next := Preorder(app.imports, [deps[i]], before + Elems(sofar));
            && before + Elems(sofar) + Elems(next) == before + Elems(Preorder(app.imports, deps[..i + 1], before))
            && entries + EntriesOf(app, sofar) + EntriesOf(app, next)
                == entries + EntriesOf(app, Preorder(app.imports, deps[..i + 1], before))
  {
    var sofar := Preorder(app.imports, deps[..i], before);
    var next := Preorder(app.imports, [deps[i]], before + Elems(sofar));
    assert deps[..i + 1] == deps[..i] + [deps[i]];
    PreorderSplits(app.imports, deps[..i], [deps[i]], before);
    EntriesConcat(app, sofar, next);
    assert before + Elems(sofar) + Elems(next) == before + Elems(sofar + next);
    ConcatIsAssociative(entries, EntriesOf(app, sofar), EntriesOf(app, next));
  }

  lemma WalkEnds(app: Application, m: Modules.ModuleId, deps: seq<Modules.ModuleId>, visited: set<Modules.ModuleId>,
                 entries: seq<Entry>)
    requires m !in visited && deps == Deps(app.imports, m)
    ensures var rest := Preorder(app.imports, deps, visited + {m});
            && deps[..|deps|] == deps
            && visited + {m} + Elems(rest) == visited + Elems(Preorder(app.imports, [m], visited))
            && entries + ControllerEntries(ControllersOf(app, m)) + EntriesOf(app, rest)
                == entries + EntriesOf(app, Preorder(app.imports, [m], visited))
  {
    var rest := Preorder(app.imports, deps, visited + {m});
    assert deps + [m][1..] == deps && Preorder(app.imports, [m], visited) == [m] + rest;
    assert visited + {m} + Elems(rest) == visited + Elems([m] + rest);
    assert ([m] + rest)[1..] == rest;
    ConcatIsAssociative(entries, ControllerEntries(ControllersOf(app, m)), EntriesOf(app, rest));
  }

  lemma RefToIsInjective(name: string)
    ensures forall other :: RefTo(other) == RefTo(name) ==> other == name
  {
    forall other | RefTo(other) == RefTo(name) ensures other == name {
      assert RefTo(other)[|SCHEMAS|..] == other && RefTo(name)[|SCHEMAS|..] == name;
    }
  }

  // The parts of what registration keeps, on the values of its fields.

  ghost predicate NamesKnown(g: Registry, names: map<SchemaId, string>) {
    forall s :: s in names ==> s in g.schemas && names[s] == NameOf(g, s)
  }

  /** Each reserved schema was walked once. */
  ghost predicate WalkedOnce(names: map<SchemaId, string>, walks: seq<SchemaId>) {
    NoDup(walks) && Elems(walks) == names.Keys
  }

  /** Reserved schemas that are not on the recursion stack have been written. */
  ghost predicate AllWritten(g: Registry, names: map<SchemaId, string>, components: map<string, Component>,
                             stack: set<SchemaId>)
  {
    stack <= names.Keys && forall s :: s in names && s !in stack ==> NameOf(g, s) in components
  }

  /** What they refer to is reserved. */
  ghost predicate RefsReserved(g: Registry, names: map<SchemaId, string>, stack: set<SchemaId>) {
    forall s, t :: s in names && s !in stack && t in Deps(g.refs, s) ==> t in names
  }

  ghost predicate DescribesWritten(g: Registry, names: map<SchemaId, string>, stack: set<SchemaId>, name: string,
                                   d: Component)
  {
    d.owner in names && d.owner !in stack && d.title == name && Describes(g, d)
  }

  /** Every component describes one of the written schemas of its name. */
  ghost predicate AllFaithful(g: Registry, names: map<SchemaId, string>, components: map<string, Component>,
                              stack: set<SchemaId>)
  {
    forall name :: name in components ==> DescribesWritten(g, names, stack, name, components[name])
  }

  lemma ReserveWalks(names: map<SchemaId, string>, walks: seq<SchemaId>, s: SchemaId, name: string)
    requires WalkedOnce(names, walks) && s !in names
    ensures WalkedOnce(names[s := name], walks + [s])
  {
    assert s in walks ==> s in Elems(walks);
  }

  lemma ReserveWritten(g: Registry, names: map<SchemaId, string>, components: map<string, Component>,
                       stack: set<SchemaId>, s: SchemaId, name: string)
    requires AllWritten(g, names, components, stack) && s !in names
    ensures AllWritten(g, names[s := name], components, stack + {s})
  {
  }

  lemma ReserveFaithful(g: Registry, names: map<SchemaId, string>, components: map<string, Component>,
                        stack: set<SchemaId>, s: SchemaId, name: string)
    requires AllFaithful(g, names, components, stack) && s !in names
    ensures AllFaithful(g, names[s := name], components, stack + {s})
  {
    forall n | n in components ensures DescribesWritten(g, names[s := name], stack + {s}, n, components[n]) {
      assert DescribesWritten(g, names, stack, n, components[n]);
    }
  }

  lemma WriteWritten(g: Registry, names: map<SchemaId, string>, components: map<string, Component>,
                     stack: set<SchemaId>, s: SchemaId, d: Component)
    requires AllWritten(g, names, components, stack) && d.title == NameOf(g, s)
    ensures AllWritten(g, names, components[d.title := d], stack - {s})
  {
  }

  lemma WriteFaithful(g: Registry, names: map<SchemaId, string>, components: map<string, Component>,
                      stack: set<SchemaId>, s: SchemaId, d: Component)
    requires AllFaithful(g, names, components, stack) && s in names && d.owner == s && Describes(g, d)
    ensures AllFaithful(g, names, components[d.title := d], stack - {s})
  {
    var written := components[d.title := d];
    forall n | n in written ensures DescribesWritten(g, names, stack - {s}, n, written[n]) {
      if n != d.title {
        assert DescribesWritten(g, names, stack, n, components[n]);
      }
    }
  }

  class OpenApi {
    var paths: Paths
    var schemas: map<string, Component>
    var schemaNames: map<SchemaId, string>
    ghost var stack: set<SchemaId>
    ghost var walks: seq<SchemaId>

    /** Reserved are the schemas that were walked, each once; of these, all that are not on the
        recursion stack have been written, with everything they refer to reserved. */
    ghost predicate Valid(g: Registry)
      reads `schemas, `schemaNames, `stack, `walks
    {
      && NamesKnown(g, schemaNames) && WalkedOnce(schemaNames, walks)
      && AllWritten(g, schemaNames, schemas, stack) && RefsReserved(g, schemaNames, stack)
      && AllFaithful(g, schemaNames, schemas, stack)
    }

    ghost predicate Reserved(refs: seq<SchemaId>)
      reads this
    {
      forall t :: t in refs ==> t in schemaNames
    }

    ghost predicate ReservedAll(refs: set<SchemaId>)
      reads this
    {
      forall t :: t in refs ==> t in schemaNames
    }

    /** What registration does to the document: it only adds, schemas that its sources reach. */
    twostate predicate Grows(refs: Graph<SchemaId>, sources: set<SchemaId>)
      reads this
    {
      && stack == old(stack) && paths == old(paths)
      && old(schemaNames).Keys <= schemaNames.Keys && old(schemas).Keys <= schemas.Keys
      && (forall t :: t in schemaNames && t !in old(schemaNames) ==> From(refs, sources, t))
    }

    constructor ()
      ensures paths == map[] && schemas == map[] && schemaNames == map[] && stack == {} && walks == []
      ensures forall g :: Valid(g)
    {
      paths, schemas, schemaNames, stack, walks := map[], map[], map[], {}, [];
    }

    ghost function Unreserved(g: Registry): set<SchemaId>
      reads this
    {
      g.schemas.Keys - schemaNames.Keys
    }

    method RefSchema(g: Registry, s: SchemaId) returns (d: Doc)
      requires Valid(g) && s in g.schemas
      modifies this
      ensures Valid(g) && Grows(g.refs, {s}) && s in schemaNames
      ensures d == Ref(RefTo(NameOf(g, s)))
      decreases Unreserved(g), 2
    {
      var name := RegisterSchema(g, s);
      return Ref(RefTo(name));
    }

    method SchemaFor(g: Registry, p: Property) returns (d: Doc)
      requires Valid(g) && Sound(g.schemas, p)
      modifies this
      ensures Valid(g) && Grows(g.refs, RefsOf(p)) && ReservedAll(RefsOf(p))
      ensures d == DocOf(g, p)
      decreases Unreserved(g), 3, p
    {
      if p.custom.Some? {
        return Anything;
      }
      match p.shape
      case StringShape => d := Typed("string", p.nullable, Limits(p.min, p.max, p.pattern, p.enumString, None));
      case IntegerShape => d := Typed("integer", p.nullable, Limits(p.min, p.max, "", None, p.enumInt));
      case NumberShape => d := Typed("number", p.nullable, Limits(p.min, p.max, "", None, p.enumInt));
      case BooleanShape => d := Typed("boolean", p.nullable, Limits(None, None, "", None, None));
      case ArrayShape(item, itemRef) =>
        var items;
        if itemRef.Some? {
          items := RefSchema(g, itemRef.value);
        } else {
          items := SchemaFor(g, item);
        }
        d := ArrayDoc(items, p.nullable, Limits(p.min, p.max, "", None, None));
      case ObjectShape(additional, ref) =>
        if ref.None? {
          d := OpenObject(additional, p.nullable);
        } else if p.nullable {
          var name := RegisterSchema(g, ref.value);
          d := RefOrNull(RefTo(name));
        } else {
          d := RefSchema(g, ref.value);
        }
      case _ => d := Anything;
    }

    /** A schema that is already reserved is not walked again, whether it was written or is still
        being walked further up; otherwise it is reserved first, walked, and written. */
    method RegisterSchema(g: Registry, s: SchemaId) returns (name: string)
      requires Valid(g) && s in g.schemas
      modifies this
      ensures Valid(g) && Grows(g.refs, {s}) && s in schemaNames
      ensures name == NameOf(g, s)
      decreases Unreserved(g), 1
    {
      if s in schemaNames {
        return schemaNames[s];
      }
      name := if g.titles[s] != "" then g.titles[s] else g.typeNames[s];
      WalkSchema(g, s, name);
    }

    method WalkSchema(g: Registry, s: SchemaId, name: string)
      requires Valid(g)
      requires Known(g, s) && s !in schemaNames && name == NameOf(g, s)
      modifies this
      ensures Valid(g) && Grows(g.refs, {s}) && s in schemaNames
      decreases Unreserved(g), 0
    {
      Reserve(g, s, name);
      var properties, required := WalkProperties(g, s);
      Write(g, s, Component(s, name, properties, required));
      ReachedFromDeps(g.refs, s);
      ReachesSelf(g.refs, s);
    }

    /** The name is taken before the properties are walked. */
    method Reserve(g: Registry, s: SchemaId, name: string)
      requires Valid(g) && s in g.schemas && s !in schemaNames && name == NameOf(g, s)
      modifies this
      ensures Valid(g) && stack == old(stack) + {s} && walks == old(walks) + [s]
      ensures schemaNames == old(schemaNames)[s := name] && schemas == old(schemas) && paths == old(paths)
    {
      ReserveWalks(schemaNames, walks, s, name);
      ReserveWritten(g, schemaNames, schemas, stack, s, name);
      ReserveFaithful(g, schemaNames, schemas, stack, s, name);
      schemaNames := schemaNames[s := name];
      stack, walks := stack + {s}, walks + [s];
    }

    method Write(g: Registry, s: SchemaId, d: Component)
      requires Valid(g) && s in stack && Reserved(Deps(g.refs, s))
      requires d.owner == s && Describes(g, d)
      modifies this
      ensures Valid(g) && stack == old(stack) - {s} && walks == old(walks)
      ensures schemaNames == old(schemaNames) && schemas == old(schemas)[d.title := d] && paths == old(paths)
    {
      WriteWritten(g, schemaNames, schemas, stack, s, d);
      WriteFaithful(g, schemaNames, schemas, stack, s, d);
      schemas := schemas[d.title := d];
      stack := stack - {s};
    }

    method WalkProperties(g: Registry, s: SchemaId)
      returns (properties: map<string, Doc>, required: seq<string>)
      requires Valid(g) && Known(g, s)
      modifies this
      ensures Valid(g) && Grows(g.refs, Elems(Deps(g.refs, s)))
      ensures Reserved(Deps(g.refs, s))
      ensures DescribesUpTo(g, s, properties, required, g.schemas[s].Keys)
      decreases Unreserved(g), 5
    {
      properties, required := map[], [];
      var todo := g.schemas[s].Keys;
      while todo != {}
        invariant todo <= g.schemas[s].Keys
        invariant Valid(g) && Grows(g.refs, Elems(Deps(g.refs, s)))
        invariant forall o, t :: o in g.schemas[s] && o !in todo && t in RefsOf(g.schemas[s][o]) ==> t in schemaNames
        invariant DescribesUpTo(g, s, properties, required, g.schemas[s].Keys - todo)
      {
        var offset :| offset in todo;
        properties, required := WalkProperty(g, s, properties, required, offset, todo);
        todo := todo - {offset};
      }
    }

    /** Describes one property, registering what it refers to. */
    method WalkProperty(g: Registry, s: SchemaId,
                        properties0: map<string, Doc>, required0: seq<string>, offset: nat, ghost todo: set<nat>)
      returns (properties: map<string, Doc>, required: seq<string>)
      requires Valid(g)
      requires Known(g, s) && todo <= g.schemas[s].Keys && offset in todo
      requires DescribesUpTo(g, s, properties0, required0, g.schemas[s].Keys - todo)
      modifies this
      ensures Valid(g) && Grows(g.refs, Elems(Deps(g.refs, s)))
      ensures ReservedAll(RefsOf(g.schemas[s][offset]))
      ensures DescribesUpTo(g, s, properties, required, g.schemas[s].Keys - (todo - {offset}))
      decreases Unreserved(g), 4
    {
      var p := g.schemas[s][offset];
      var d := SchemaFor(g, p);
      var key := DisplayKey(p);
      properties := properties0[key := d];
      required := if p.required then required0 + [key] else required0;
      DescribesOneMore(g, s, properties0, required0, todo, offset);
    }

    /** The Schema Objects of all properties of a schema that stays inline. */
    method WalkInline(g: Registry, s: Option<SchemaId>) returns (docs: map<nat, Doc>)
      requires Valid(g) && (s.Some? ==> s.value in g.schemas)
      modifies this
      ensures Valid(g) && Grows(g.refs, PropertyRefs(g, s)) && ReservedAll(PropertyRefs(g, s))
      ensures docs == PropertyDocs(g, s)
    {
      if s.None? {
        return map[];
      }
      docs := WalkEach(g, s.value);
    }

    method WalkEach(g: Registry, s: SchemaId) returns (docs: map<nat, Doc>)
      requires Valid(g) && s in g.schemas
      modifies this
      ensures Valid(g) && Grows(g.refs, PropertyRefs(g, Some(s)))
      ensures docs.Keys == g.schemas[s].Keys && forall o :: o in docs ==> PropertyWalked(g, s, o, docs[o])
    {
      docs := map[];
      var todo := g.schemas[s].Keys;
      while todo != {}
        invariant todo <= g.schemas[s].Keys && docs.Keys == g.schemas[s].Keys - todo
        invariant Valid(g) && Grows(g.refs, PropertyRefs(g, Some(s)))
        invariant forall o :: o in docs ==> PropertyWalked(g, s, o, docs[o])
      {
        var offset :| offset in todo;
        var d := WalkParameter(g, s, offset);
        docs, todo := docs[offset := d], todo - {offset};
      }
    }

    ghost predicate PropertyWalked(g: Registry, s: SchemaId, offset: nat, d: Doc)
      reads this
    {
      s in g.schemas && offset in g.schemas[s] && ReservedAll(RefsOf(g.schemas[s][offset]))
          && d == DocOf(g, g.schemas[s][offset])
    }

    method WalkParameter(g: Registry, s: SchemaId, offset: nat) returns (d: Doc)
      requires Valid(g) && s in g.schemas && offset in g.schemas[s]
      modifies this
      ensures Valid(g) && Grows(g.refs, PropertyRefs(g, Some(s))) && PropertyWalked(g, s, offset, d)
    {
      InlineRefs(g, s);
      d := SchemaFor(g, g.schemas[s][offset]);
    }

    method WalkResponses(g: Registry, r: Route, exception: SchemaId) returns (docs: map<nat, Option<Doc>>)
      requires Valid(g) && RouteKnown(g, r) && exception in g.schemas
      modifies this
      ensures Valid(g) && Grows(g.refs, ResponseRefs(r, exception, r.responses.Keys))
      ensures ReservedAll(ResponseRefs(r, exception, r.responses.Keys))
      ensures docs == ResponseDocs(g, r, exception)
    {
      if r.responses == map[] {
        return map[r.code := None];
      }
      docs := WalkDeclared(g, r, exception);
    }

    method WalkDeclared(g: Registry, r: Route, exception: SchemaId) returns (docs: map<nat, Option<Doc>>)
      requires Valid(g) && RouteKnown(g, r) && exception in g.schemas
      modifies this
      ensures Valid(g) && Grows(g.refs, ResponseRefs(r, exception, r.responses.Keys))
      ensures docs.Keys == r.responses.Keys && forall st :: st in docs ==> ResponseWalked(g, r, exception, st, docs[st])
    {
      docs := map[];
      var todo := r.responses.Keys;
      while todo != {}
        invariant todo <= r.responses.Keys && docs.Keys == r.responses.Keys - todo
        invariant Valid(g) && Grows(g.refs, ResponseRefs(r, exception, r.responses.Keys))
        invariant forall st :: st in docs ==> ResponseWalked(g, r, exception, st, docs[st])
      {
        var status :| status in todo;
        var d := WalkResponse(g, r, exception, status);
        docs, todo := docs[status := d], todo - {status};
      }
    }

    ghost predicate ResponseWalked(g: Registry, r: Route, exception: SchemaId, status: nat, d: Option<Doc>)
      reads this
    {
      status in r.responses && ResponseReserved(r, exception, status)
          && d == ResponseDoc(g, status, r.responses[status], exception)
    }

    ghost predicate ResponseReserved(r: Route, exception: SchemaId, status: nat)
      requires status in r.responses
      reads this
    {
      var shown := ResponseSchema(status, r.responses[status], exception);
      shown.Some? ==> shown.value in schemaNames
    }

    method WalkResponse(g: Registry, r: Route, exception: SchemaId, status: nat) returns (d: Option<Doc>)
      requires Valid(g) && RouteKnown(g, r) && exception in g.schemas
      requires status in r.responses
      modifies this
      ensures Valid(g) && Grows(g.refs, ResponseRefs(r, exception, r.responses.Keys))
      ensures ResponseReserved(r, exception, status)
      ensures d == ResponseDoc(g, status, r.responses[status], exception)
    {
      var shown := ResponseSchema(status, r.responses[status], exception);
      if shown.None? {
        return None;
      }
      var ref := RefSchema(g, shown.value);
      return Some(ref);
    }

    /** Describes one operation; every schema it refers to is registered on the way. */
    method WalkRoute(g: Registry, r: Route, exception: SchemaId) returns (op: Operation)
      requires Valid(g) && RouteKnown(g, r) && exception in g.schemas
      modifies this
      ensures Valid(g) && Grows(g.refs, RouteRefs(g, r, exception)) && ReservedAll(RouteRefs(g, r, exception))
      ensures op == OperationOf(g, r, exception)
    {
      RouteRefsSplit(g, r, exception);
      var params, query := WalkParameters(g, r, exception);
      var form, body := WalkBody(g, r, exception);
      var responses := WalkResponses(g, r, exception);
      op := Operation(params, query, form, body, responses);
    }

    method WalkParameters(g: Registry, r: Route, exception: SchemaId)
      returns (params: map<nat, Doc>, query: map<nat, Doc>)
      requires Valid(g) && RouteKnown(g, r)
      modifies this
      ensures Valid(g) && Grows(g.refs, RouteRefs(g, r, exception))
      ensures ReservedAll(PropertyRefs(g, r.params)) && ReservedAll(PropertyRefs(g, r.query))
      ensures params == PropertyDocs(g, r.params) && query == PropertyDocs(g, r.query)
    {
      RouteRefsSplit(g, r, exception);
      params := WalkInline(g, r.params);
      query := WalkInline(g, r.query);
    }

    method WalkBody(g: Registry, r: Route, exception: SchemaId) returns (form: map<nat, Doc>, body: Option<Doc>)
      requires Valid(g) && RouteKnown(g, r)
      modifies this
      ensures Valid(g) && Grows(g.refs, RouteRefs(g, r, exception))
      ensures ReservedAll(PropertyRefs(g, r.form)) && ReservedAll(BodyRefs(r))
      ensures form == OperationOf(g, r, exception).form && body == OperationOf(g, r, exception).body
    {
      RouteRefsSplit(g, r, exception);
      form, body := map[], None;
      if r.form.Some? {
        form := WalkInline(g, r.form);
      } else if r.body.Some? {
        var ref := RefSchema(g, r.body.value);
        body := Some(ref);
      }
    }

    // ---- the walk over modules, controllers and routes ----

    /** The document shows these routes, and has registered exactly the schemas they reach. */
    ghost predicate Shows(g: Registry, entries: seq<Entry>, exception: SchemaId)
      reads this
    {
      && Valid(g) && stack == {} && paths == PathsOf(g, entries, exception)
      && forall s :: s in schemaNames <==> Documented(g, entries, exception, s)
    }

    method ShowRoute(g: Registry, prefix: string, r: Route, exception: SchemaId, ghost entries: seq<Entry>)
      requires Shows(g, entries, exception) && RoutesKnown(g, entries) && RouteKnown(g, r) && exception in g.schemas
      modifies this
      ensures Shows(g, entries + [Entry(prefix + r.path, r)], exception)
    {
      ghost var e := Entry(prefix + r.path, r);
      var op := WalkRoute(g, r, exception);
      RegisteredIffDocumented(g, entries, exception, e, old(schemaNames));
      PathsOfOneMore(g, entries, exception, e);
      PutOperation(prefix + r.path, r.verb, op);
    }

    method PutOperation(fullPath: string, methodKey: string, op: Operation)
      modifies `paths
      ensures paths == old(paths)[fullPath := PathItem(old(paths), fullPath)[methodKey := op]]
    {
      if fullPath !in paths {
        paths := paths[fullPath := map[]];
      }
      paths := paths[fullPath := paths[fullPath][methodKey := op]];
    }

    lemma RegisteredIffDocumented(g: Registry, entries: seq<Entry>, exception: SchemaId, e: Entry, before: map<SchemaId,
                                  string>)
      requires Valid(g) && stack == {} && RefsReserved(g, before, {})
      requires forall s :: s in before <==> Documented(g, entries, exception, s)
      requires forall s :: s in before ==> s in schemaNames
      requires forall s :: s in schemaNames && s !in before ==> From(g.refs, RouteRefs(g, e.route, exception), s)
      requires ReservedAll(RouteRefs(g, e.route, exception))
      ensures forall s :: s in schemaNames <==> Documented(g, entries + [e], exception, s)
    {
      var longer := entries + [e];
      forall s ensures s in schemaNames <==> Documented(g, longer, exception, s) {
        DocumentedByOneMore(g, entries, exception, e, s);
        if t :| t in RouteRefs(g, e.route, exception) && Reaches(g.refs, t, s) {
          ReachableStaysInside(g.refs, schemaNames.Keys, t, s);
        }
      }
    }

    /** A controller's routes, but for those that are excluded from the documentation. */
    method WalkController(g: Registry, prefix: string, routes: seq<Route>, exception: SchemaId,
                          ghost entries: seq<Entry>)
      requires Shows(g, entries, exception) && RoutesKnown(g, entries) && exception in g.schemas && forall r ::
                 r in routes ==> RouteKnown(g, r)
      modifies this
      ensures Shows(g, entries + RouteEntries(prefix, routes), exception)
    {
      assert entries + [] == entries;
      for i := 0 to |routes|
        invariant Shows(g, entries + RouteEntries(prefix, routes[..i]), exception)
      {
        RouteEntriesGrow(entries, prefix, routes, i);
        if !routes[i].excluded {
          EntriesKnown(g, entries, prefix, routes, i);
          ShowRoute(g, prefix, routes[i], exception, entries + RouteEntries(prefix, routes[..i]));
        }
      }
      assert routes[..|routes|] == routes;
    }

    method WalkControllers(g: Registry, cs: seq<Controller>, exception: SchemaId, ghost entries: seq<Entry>)
      requires Shows(g, entries, exception) && RoutesKnown(g, entries) && exception in g.schemas
                 && ControllersKnown(g, cs)
      modifies this
      ensures Shows(g, entries + ControllerEntries(cs), exception)
    {
      assert entries + [] == entries;
      for i := 0 to |cs|
        invariant Shows(g, entries + ControllerEntries(cs[..i]), exception)
      {
        ControllerEntriesGrow(entries, cs, i);
        if cs[i].Routable? {
          ControllersKnownUpTo(g, entries, cs, i);
          WalkController(g, cs[i].prefix, cs[i].routes, exception, entries + ControllerEntries(cs[..i]));
        }
      }
      assert cs[..|cs|] == cs;
    }

    /** A module that was visited is not walked again; otherwise its controllers come first, then
        the modules it imports. */
    method WalkModule(g: Registry, app: Application, m: Modules.ModuleId, visited: set<Modules.ModuleId>,
                      exception: SchemaId, ghost entries: seq<Entry>)
      returns (after: set<Modules.ModuleId>)
      requires Shows(g, entries, exception) && RoutesKnown(g, entries) && exception in g.schemas && AppKnown(g, app)
      modifies this
      ensures after == visited + Elems(Preorder(app.imports, [m], visited))
      ensures Shows(g, entries + EntriesOf(app, Preorder(app.imports, [m], visited)), exception)
      decreases app.imports.Keys - visited
    {
      if m in visited {
        assert entries + [] == entries;
        return visited;
      }
      ghost var before := visited + {m};
      after := visited + {m};
      ghost var own := ControllerEntries(ControllersOf(app, m));
      WalkControllers(g, ControllersOf(app, m), exception, entries);
      var deps := Deps(app.imports, m);
      WalkBegins(app, deps, before, entries, own);
      for i := 0 to |deps|
        invariant after == before + Elems(Preorder(app.imports, deps[..i], before))
        invariant Shows(g, entries + own + EntriesOf(app, Preorder(app.imports, deps[..i], before)), exception)
      {
        assert m in app.imports.Keys - visited && m in after;
        ghost var sofar := EntriesOf(app, Preorder(app.imports, deps[..i], before));
        WalkedKnown(g, app, entries, m, Preorder(app.imports, deps[..i], before));
        WalkGoesOn(app, deps, before, entries + own, i);
        after := WalkModule(g, app, deps[i], after, exception, entries + own + sofar);
      }
      WalkEnds(app, m, deps, visited, entries);
    }

    /** The whole walk, starting from an empty document. */
    method Generate(g: Registry, app: Application, root: Modules.ModuleId, exception: SchemaId)
      requires paths == map[] && schemas == map[] && schemaNames == map[] && stack == {} && walks == []
      requires exception in g.schemas && AppKnown(g, app)
      modifies this
      ensures Shows(g, AppEntries(app, root), exception)
    {
      var visited := WalkModule(g, app, root, {}, exception, []);
      assert [] + AppEntries(app, root) == AppEntries(app, root);
    }

    // ---- the references of the document ----

    /** The references that the document holds, in an operation or in a component. */
    ghost predicate Holds(target: string)
      reads this
    {
      || (exists path, verb :: path in paths && verb in paths[path] && Mentions(paths[path][verb], target))
      || (exists owner, key ::
          owner in schemas && key in schemas[owner].properties && target in Targets(schemas[owner].properties[key]))
    }

    /** The components are named after the schemas that the routes reach, no more and no less, and
        every reference in the document is made of the name of one of them. */
    lemma ReferencesAreMade(g: Registry, entries: seq<Entry>, exception: SchemaId)
      requires Shows(g, entries, exception) && exception in g.schemas && RoutesKnown(g, entries)
      ensures forall name :: name in schemas <==>
                exists s :: Documented(g, entries, exception, s) && NameOf(g, s) == name
      ensures forall target :: Holds(target) ==> exists name :: name in schemas && target == RefTo(name)
    {
      forall name | name in schemas ensures exists s :: Documented(g, entries, exception, s) && NameOf(g, s) == name {
        assert DescribesWritten(g, schemaNames, stack, name, schemas[name]);
        assert NameOf(g, schemas[name].owner) == name;
      }
      forall target | Holds(target) ensures exists name :: name in schemas && target == RefTo(name) {
        if path, verb :| path in paths && verb in paths[path] && Mentions(paths[path][verb], target) {
          OperationReferenceIsMade(g, entries, exception, path, verb, target);
        } else {
          var owner, key :| owner in schemas && key in schemas[owner].properties
              && target in Targets(schemas[owner].properties[key]);
          ComponentReferenceIsMade(g, owner, key, target);
        }
      }
    }

    lemma OperationReferenceIsMade(g: Registry, entries: seq<Entry>, exception: SchemaId, path: string, verb: string,
                                   target: string)
      requires Shows(g, entries, exception) && exception in g.schemas && RoutesKnown(g, entries)
      requires path in paths && verb in paths[path] && Mentions(paths[path][verb], target)
      ensures exists name :: name in schemas && target == RefTo(name)
    {
      LastRouteIsShown(g, entries, exception, path, verb);
      var i: nat :| LastOf(entries, path, verb, i);
      var r := entries[i].route;
      MentionedIsReferred(g, r, exception, target);
      var t :| RouteRef(g, r, exception, t) && RefTo(NameOf(g, t)) == target;
      RouteRefIsDocumented(g, entries, exception, entries[i], t);
    }

    lemma ComponentReferenceIsMade(g: Registry, owner: string, key: string, target: string)
      requires Valid(g) && stack == {}
      requires owner in schemas && key in schemas[owner].properties && target in Targets(schemas[owner].properties[key])
      ensures exists name :: name in schemas && target == RefTo(name)
    {
      assert DescribesWritten(g, schemaNames, stack, owner, schemas[owner]);
      var s := schemas[owner].owner;
      var o :| o in g.schemas[s] && schemas[owner].properties[key] == DocOf(g, g.schemas[s][o]);
      TargetsAreRefs(g, g.schemas[s][o]);
      var t :| t in RefsOf(g.schemas[s][o]) && RefTo(NameOf(g, t)) == target;
      assert t in Deps(g.refs, s);
    }

    /** A reference resolves if, read as a URI fragment with a JSON pointer in it, it leads to the
        component it was made for. */
    ghost predicate Resolves(target: string)
      reads this
    {
      var name := ComponentOf(target);
      name.Some? && name.value in schemas && target == RefTo(name.value)
    }

    /** Every reference that the document holds resolves if and only if none of the components
        referred to has a slash, a tilde or a percent sign in its name. */
    lemma ReferencesResolveIff(g: Registry, entries: seq<Entry>, exception: SchemaId)
      requires Shows(g, entries, exception) && exception in g.schemas && RoutesKnown(g, entries)
      ensures (forall target :: Holds(target) ==> Resolves(target))
         <==> (forall name :: name in schemas && Holds(RefTo(name)) ==> Plain(name))
    {
      ReferencesAreMade(g, entries, exception);
      forall name | name in schemas ensures Resolves(RefTo(name)) <==> Plain(name) {
        PointsHomeIff(name);
        RefToIsInjective(name);
      }
    }

    /** A response body of a schema titled "a/b" is documented by a reference that leads nowhere. */
    lemma SlashInTitleDangles(g: Registry, r: Route, exception: SchemaId, status: nat, s: SchemaId)
      requires Known(g, s) && g.titles[s] == "a/b" && status in r.responses && r.responses[status] == Some(s)
      ensures var op := OperationOf(g, r, exception);
              op.responses[status] == Some(Ref(RefTo("a/b"))) && !Resolves(RefTo("a/b"))
    {
      assert "a/b"[1] == '/';
      SlashPointsNowhere("a/b");
    }

    /** Every documented schema has a component of its own if and only if no two of them share
        a name. */
    lemma OwnComponentsIffDistinctNames(g: Registry)
      requires Valid(g) && stack == {}
      ensures (forall s :: s in schemaNames ==> NameOf(g, s) in schemas && schemas[NameOf(g, s)].owner == s)
         <==> (forall s, t :: s in schemaNames && t in schemaNames && NameOf(g, s) == NameOf(g, t) ==> s == t)
    {
      forall s | s in schemaNames
        ensures NameOf(g, s) in schemas && NameOf(g, schemas[NameOf(g, s)].owner) == NameOf(g, s) {
        assert DescribesWritten(g, schemaNames, stack, NameOf(g, s), schemas[NameOf(g, s)]);
      }
    }
  }
}
