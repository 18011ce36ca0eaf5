// internal/openapi/generate.go: what the OpenAPI document of an application says, as a function of
// its schemas, modules and routes.
module ApiDocument {
  import opened Graphs
  import opened References
  import opened Validation
  import Modules

  // ---- schemas and their names ----

  /** The schemas of an application: their properties, titles, Go type names, and the references
      between them as a graph, in some order. */
  datatype Schemata = Schemata(schemas: Catalog, titles: map<SchemaId, string>, typeNames: map<SchemaId, string>,
      refs: Graph<SchemaId>)

  type Registry = g: Schemata | Complete(g) witness Schemata(map[], map[], map[], map[])

  predicate Known(g: Schemata, s: SchemaId) {
    s in g.schemas && s in g.titles && s in g.typeNames
  }

  ghost predicate Complete(g: Schemata) {
    && g.titles.Keys == g.schemas.Keys == g.typeNames.Keys
    && (forall s, offset :: s in g.schemas && offset in g.schemas[s] ==> Sound(g.schemas, g.schemas[s][offset]))
    && forall s, t :: t in Deps(g.refs, s) <==>
        s in g.schemas && exists offset :: offset in g.schemas[s] && t in RefsOf(g.schemas[s][offset])
  }

  function NameOf(g: Registry, s: SchemaId): string {
    if !Known(g, s) then "" else if g.titles[s] != "" then g.titles[s] else g.typeNames[s]
  }

  /** A property is documented under its json name even where that is "-". */
  function DisplayKey(p: Property): string {
    if p.tag == "" || p.tag == "-" || BeforeComma(p.tag) == "" then p.name else BeforeComma(p.tag)
  }

  /** The schemas that the documentation of a property refers to. */
  function RefsOf(p: Property): set<SchemaId> {
    if p.custom.Some? then {}
    else
      match p.shape
      case ArrayShape(item, itemRef) => if itemRef.Some? then {itemRef.value} else RefsOf(item)
      case ObjectShape(_, ref) => if ref.Some? then {ref.value} else {}
      case _ => {}
  }

  // ---- the document ----

  /** A Schema Object: a reference, a reference or null, or what the kind of a property says. */
  datatype Doc =
    | Ref(target: string)
    | RefOrNull(target: string)
    | Anything
    | Typed(typ: string, nullable: bool, limits: Limits)
    | ArrayDoc(items: Doc, nullable: bool, limits: Limits)
    | OpenObject(additional: bool, nullable: bool)

  datatype Limits = Limits(min: Option<int>, max: Option<int>, pattern: string, strings: Option<seq<string>>,
      ints: Option<seq<int>>)

  /** The description of a property does not depend on when it is asked for. */
  function DocOf(g: Registry, p: Property): Doc {
    if p.custom.Some? then Anything
    else
      match p.shape
      case StringShape => Typed("string", p.nullable, Limits(p.min, p.max, p.pattern, p.enumString, None))
      case IntegerShape => Typed("integer", p.nullable, Limits(p.min, p.max, "", None, p.enumInt))
      case NumberShape => Typed("number", p.nullable, Limits(p.min, p.max, "", None, p.enumInt))
      case BooleanShape => Typed("boolean", p.nullable, Limits(None, None, "", None, None))
      case ArrayShape(item, itemRef) =>
        ArrayDoc(if itemRef.Some? then Ref(RefTo(NameOf(g, itemRef.value))) else DocOf(g, item),
                 p.nullable, Limits(p.min, p.max, "", None, None))
      case ObjectShape(additional, ref) =>
        if ref.None? then OpenObject(additional, p.nullable)
        else if p.nullable then RefOrNull(RefTo(NameOf(g, ref.value)))
        else Ref(RefTo(NameOf(g, ref.value)))
      case _ => Anything
  }

  /** The references that a Schema Object holds. */
  function Targets(d: Doc): set<string> {
    match d
    case Ref(target) => {target}
    case RefOrNull(target) => {target}
    case ArrayDoc(items, _, _) => Targets(items)
    case _ => {}
  }

  lemma {:induction false} TargetsAreRefs(g: Registry, p: Property)
    ensures Targets(DocOf(g, p)) == set t | t in RefsOf(p) :: RefTo(NameOf(g, t))
  {
    if p.custom.None? && p.shape.ArrayShape? && p.shape.itemRef.None? {
      TargetsAreRefs(g, p.shape.item);
    }
  }

  /** A component; owner is the schema it was made from. */
  datatype Component = Component(owner: SchemaId, title: string, properties: map<string, Doc>, required: seq<string>)

  /** Each property is described under its key, up to a choice among properties that share one,
      and exactly the required ones are required. */
  ghost predicate Describes(g: Registry, d: Component) {
    && Known(g, d.owner) && d.title == NameOf(g, d.owner)
    && DescribesUpTo(g, d.owner, d.properties, d.required, g.schemas[d.owner].Keys)
  }

  ghost predicate DescribesUpTo(g: Registry, s: SchemaId, properties: map<string, Doc>, required: seq<string>,
                                done: set<nat>)
    requires Known(g, s) && done <= g.schemas[s].Keys
  {
    && (forall key :: key in properties <==> exists offset :: offset in done && DisplayKey(g.schemas[s][offset]) == key)
    && (forall key :: key in properties ==>
          exists offset :: offset in done && DisplayKey(g.schemas[s][offset]) == key
              && properties[key] == DocOf(g, g.schemas[s][offset]))
    && (forall key :: key in required <==>
          exists offset :: offset in done && DisplayKey(g.schemas[s][offset]) == key && g.schemas[s][offset].required)
  }

  lemma DescribesNext(g: Registry, s: SchemaId, properties: map<string, Doc>, required: seq<string>, done: set<nat>,
                      offset: nat)
    requires Known(g, s) && done <= g.schemas[s].Keys && offset in g.schemas[s]
    requires DescribesUpTo(g, s, properties, required, done)
    ensures var p := g.schemas[s][offset]; var key := DisplayKey(p);
            DescribesUpTo(g, s, properties[key := DocOf(g, p)], if p.required then required + [key] else required,
                done + {offset})
  {
    var p := g.schemas[s][offset];
    var key := DisplayKey(p);
    var longer := properties[key := DocOf(g, p)];
    forall k | k in longer
      ensures exists o ::
                o in done + {offset} && DisplayKey(g.schemas[s][o]) == k && longer[k] == DocOf(g, g.schemas[s][o]) {
      if k == key {
        assert offset in done + {offset};
      } else {
        var o :| o in done && DisplayKey(g.schemas[s][o]) == k && properties[k] == DocOf(g, g.schemas[s][o]);
        assert o in done + {offset};
      }
    }
  }

  lemma DescribesOneMore(g: Registry, s: SchemaId, properties: map<string, Doc>, required: seq<string>, todo: set<nat>,
                         offset: nat)
    requires Known(g, s) && todo <= g.schemas[s].Keys && offset in todo
    requires DescribesUpTo(g, s, properties, required, g.schemas[s].Keys - todo)
    ensures var p := g.schemas[s][offset]; var key := DisplayKey(p);
            DescribesUpTo(g, s, properties[key := DocOf(g, p)], if p.required then required + [key] else required,
                          g.schemas[s].Keys - (todo - {offset}))
  {
    DescribesNext(g, s, properties, required, g.schemas[s].Keys - todo, offset);
    assert g.schemas[s].Keys - todo + {offset} == g.schemas[s].Keys - (todo - {offset});
  }

  /** The documentation names a property as the validator does, except where the tag is "-". */
  lemma DisplayedAsValidatedIff(p: Property)
    ensures Key(p) == Some(DisplayKey(p)) <==> p.tag != "-"
  {
    BeforeCommaIs("-", "-");
  }

  /** A property whose tag is "-" is documented, as required if it is so, although the validator
      finds it in no object and misses it in none. */
  lemma HiddenIsDocumented(g: Registry, d: Component, offset: nat, fields: map<string, Json>, key: string)
    requires Describes(g, d) && offset in g.schemas[d.owner] && g.schemas[d.owner][offset].tag == "-"
    ensures var p := g.schemas[d.owner][offset];
            && DisplayKey(p) in d.properties && (p.required ==> DisplayKey(p) in d.required)
            && Child(g.schemas, Whole(d.owner, fields), Prop(offset, key)) == None
  {
    var p := g.schemas[d.owner][offset];
    assert DisplayKey(p) in d.properties;
    assert p.required ==> DisplayKey(p) in d.required;
  }

  // ---- operations ----

  /** A route: where it is served, and the schemas it declares; a response may have none. */
  datatype Route = Route(
    path: string,
    verb: string,
    excluded: bool,
    code: nat,
    params: Option<SchemaId>,
    query: Option<SchemaId>,
    form: Option<SchemaId>,
    body: Option<SchemaId>,
    responses: map<nat, Option<SchemaId>>)

  /** The Schema Objects of an operation: of its parameters and form fields by field offset, of
      its body, and of its responses by status. */
  datatype Operation = Operation(
    params: map<nat, Doc>,
    query: map<nat, Doc>,
    form: map<nat, Doc>,
    body: Option<Doc>,
    responses: map<nat, Option<Doc>>)

  predicate RouteKnown(g: Registry, r: Route) {
    && (r.params.Some? ==> r.params.value in g.schemas) && (r.query.Some? ==> r.query.value in g.schemas)
    && (r.form.Some? ==> r.form.value in g.schemas) && (r.body.Some? ==> r.body.value in g.schemas)
    && forall status :: status in r.responses && r.responses[status].Some? ==> r.responses[status].value in g.schemas
  }

  function PropertyDocs(g: Registry, s: Option<SchemaId>): map<nat, Doc> {
    if s.None? || s.value !in g.schemas then map[]
    else map offset | offset in g.schemas[s.value] :: DocOf(g, g.schemas[s.value][offset])
  }

  /** The schema of a response: its own, or for an error without one that of the exceptions. */
  function ResponseSchema(status: nat, s: Option<SchemaId>, exception: SchemaId): Option<SchemaId> {
    if s.None? && status >= 400 then Some(exception) else s
  }

  function ResponseDoc(g: Registry, status: nat, s: Option<SchemaId>, exception: SchemaId): Option<Doc> {
    var shown := ResponseSchema(status, s, exception);
    if shown.Some? then Some(Ref(RefTo(NameOf(g, shown.value)))) else None
  }

  /** A route that declares no response is documented with its own status alone. */
  function ResponseDocs(g: Registry, r: Route, exception: SchemaId): map<nat, Option<Doc>> {
    if r.responses == map[] then map[r.code := None]
    else map status | status in r.responses :: ResponseDoc(g, status, r.responses[status], exception)
  }

  /** A form replaces a body. */
  function OperationOf(g: Registry, r: Route, exception: SchemaId): Operation {
    Operation(
      PropertyDocs(g, r.params), PropertyDocs(g, r.query), PropertyDocs(g, r.form),
      if r.form.None? && r.body.Some? then Some(Ref(RefTo(NameOf(g, r.body.value)))) else None,
      ResponseDocs(g, r, exception))
  }

  lemma {:induction false} RefsAreKnown(g: Registry, p: Property)
    requires Sound(g.schemas, p)
    ensures forall t :: t in RefsOf(p) ==> t in g.schemas
  {
    if p.shape.ArrayShape? {
      RefsAreKnown(g, p.shape.item);
    }
  }

  ghost predicate PropertyRef(g: Registry, s: Option<SchemaId>, t: SchemaId) {
    s.Some? && s.value in g.schemas && exists offset ::
        offset in g.schemas[s.value] && t in RefsOf(g.schemas[s.value][offset])
  }

  /** The schemas that a route refers to itself. */
  ghost predicate RouteRef(g: Registry, r: Route, exception: SchemaId, t: SchemaId) {
    || PropertyRef(g, r.params, t) || PropertyRef(g, r.query, t) || PropertyRef(g, r.form, t)
    || (r.form.None? && r.body == Some(t))
    || (exists status :: status in r.responses && ResponseSchema(status, r.responses[status], exception) == Some(t))
  }

  ghost function PropertyRefs(g: Registry, s: Option<SchemaId>): set<SchemaId> {
    set t | t in g.schemas && PropertyRef(g, s, t)
  }

  ghost function ResponseRefs(r: Route, exception: SchemaId, done: set<nat>): set<SchemaId> {
    set status | status in done && status in r.responses && ResponseSchema(status, r.responses[status], exception).Some?
             :: ResponseSchema(status, r.responses[status], exception).value
  }

  function BodyRefs(r: Route): set<SchemaId> {
    if r.form.None? && r.body.Some? then {r.body.value} else {}
  }

  lemma InlineRefs(g: Registry, s: SchemaId)
    requires s in g.schemas
    ensures forall o, t :: o in g.schemas[s] && t in RefsOf(g.schemas[s][o]) ==> t in PropertyRefs(g, Some(s))
  {
    forall o, t | o in g.schemas[s] && t in RefsOf(g.schemas[s][o]) ensures t in PropertyRefs(g, Some(s)) {
      RefsAreKnown(g, g.schemas[s][o]);
      assert PropertyRef(g, Some(s), t);
    }
  }

  lemma RouteRefsSplit(g: Registry, r: Route, exception: SchemaId)
    requires RouteKnown(g, r)
    ensures forall t ::
              t in PropertyRefs(g, r.params) || t in PropertyRefs(g, r.query) || t in PropertyRefs(g, r.form)
              || t in BodyRefs(r)
              ==> t in RouteRefs(g, r, exception)
    ensures exception in g.schemas ==> forall t :: t in ResponseRefs(r, exception, r.responses.Keys) ==>
              t in RouteRefs(g, r, exception)
    ensures forall t :: t in RouteRefs(g, r, exception) ==>
              || t in PropertyRefs(g, r.params) || t in PropertyRefs(g, r.query) || t in PropertyRefs(g, r.form)
                  || t in BodyRefs(r)
              || t in ResponseRefs(r, exception, r.responses.Keys)
  {
  }

  ghost function RouteRefs(g: Registry, r: Route, exception: SchemaId): set<SchemaId> {
    set t | t in g.schemas && RouteRef(g, r, exception, t)
  }

  lemma RouteRefIsKnown(g: Registry, r: Route, exception: SchemaId, t: SchemaId)
    requires RouteKnown(g, r) && exception in g.schemas && RouteRef(g, r, exception, t)
    ensures t in g.schemas
  {
    forall s | PropertyRef(g, s, t) ensures t in g.schemas {
      var o :| o in g.schemas[s.value] && t in RefsOf(g.schemas[s.value][o]);
      RefsAreKnown(g, g.schemas[s.value][o]);
    }
  }

  /** The references that an operation holds. */
  ghost predicate Mentions(op: Operation, target: string) {
    || (exists o :: o in op.params && target in Targets(op.params[o]))
    || (exists o :: o in op.query && target in Targets(op.query[o]))
    || (exists o :: o in op.form && target in Targets(op.form[o]))
    || (op.body.Some? && target in Targets(op.body.value))
    || (exists status ::
        status in op.responses && op.responses[status].Some? && target in Targets(op.responses[status].value))
  }

  lemma PropertyMentions(g: Registry, s: Option<SchemaId>, o: nat, target: string)
    requires o in PropertyDocs(g, s) && target in Targets(PropertyDocs(g, s)[o])
    ensures exists t :: PropertyRef(g, s, t) && RefTo(NameOf(g, t)) == target
  {
    var p := g.schemas[s.value][o];
    TargetsAreRefs(g, p);
    var t :| t in RefsOf(p) && RefTo(NameOf(g, t)) == target;
    assert PropertyRef(g, s, t);
  }

  /** What an operation points to are the schemas that its route refers to. */
  lemma MentionedIsReferred(g: Registry, r: Route, exception: SchemaId, target: string)
    requires Mentions(OperationOf(g, r, exception), target)
    ensures exists t :: RouteRef(g, r, exception, t) && RefTo(NameOf(g, t)) == target
  {
    var op := OperationOf(g, r, exception);
    if o :| o in op.params && target in Targets(op.params[o]) {
      PropertyMentions(g, r.params, o, target);
    } else if o :| o in op.query && target in Targets(op.query[o]) {
      PropertyMentions(g, r.query, o, target);
    } else if o :| o in op.form && target in Targets(op.form[o]) {
      PropertyMentions(g, r.form, o, target);
    } else if op.body.Some? && target in Targets(op.body.value) {
      assert RouteRef(g, r, exception, r.body.value);
    } else {
      var status :| status in op.responses && op.responses[status].Some?
          && target in Targets(op.responses[status].value);
      assert RouteRef(g, r, exception, ResponseSchema(status, r.responses[status], exception).value);
    }
  }

  // ---- the routes of an application ----

  datatype Controller = Routable(prefix: string, routes: seq<Route>) | Unroutable

  datatype Application = Application(controllers: map<Modules.ModuleId, seq<Controller>>,
      imports: Graph<Modules.ModuleId>)

  /** A route that is documented, and its full path. */
  datatype Entry = Entry(path: string, route: Route)

  function ControllersOf(app: Application, m: Modules.ModuleId): seq<Controller> {
    if m in app.controllers then app.controllers[m] else []
  }

  function RouteEntries(prefix: string, routes: seq<Route>): seq<Entry> {
    if routes == [] then []
    else
      RouteEntries(prefix, routes[..|routes| - 1])
      + (if routes[|routes| - 1].excluded then []
          else [Entry(prefix + routes[|routes| - 1].path, routes[|routes| - 1])])
  }

  function ControllerEntries(cs: seq<Controller>): seq<Entry> {
    if cs == [] then []
    else
      ControllerEntries(cs[..|cs| - 1])
      + match cs[|cs| - 1] case Routable(prefix, routes) => RouteEntries(prefix, routes) case Unroutable => []
  }

  /** The documented routes of some modules, in order. */
  function EntriesOf(app: Application, order: seq<Modules.ModuleId>): seq<Entry> {
    if order == [] then [] else ControllerEntries(ControllersOf(app, order[0])) + EntriesOf(app, order[1..])
  }

  lemma {:induction false} EntriesConcat(app: Application, a: seq<Modules.ModuleId>, b: seq<Modules.ModuleId>)
    ensures EntriesOf(app, a + b) == EntriesOf(app, a) + EntriesOf(app, b)
  {
    if a == [] {
      assert a + b == b;
    } else {
      EntriesConcat(app, a[1..], b);
      assert (a + b)[1..] == a[1..] + b;
      ConcatIsAssociative(ControllerEntries(ControllersOf(app, a[0])), EntriesOf(app, a[1..]), EntriesOf(app, b));
    }
  }

  /** The documented routes of an application: those of all modules that its imports reach. */
  function AppEntries(app: Application, root: Modules.ModuleId): seq<Entry> {
    EntriesOf(app, Preorder(app.imports, [root], {}))
  }

  ghost predicate Serves(cs: seq<Controller>, e: Entry) {
    exists c, r :: c in cs && c.Routable? && r in c.routes && !r.excluded && e == Entry(c.prefix + r.path, r)
  }

  lemma {:induction false} InRouteEntries(prefix: string, routes: seq<Route>, e: Entry)
    ensures e in RouteEntries(prefix, routes) <==>
              e.route in routes && !e.route.excluded && e.path == prefix + e.route.path
  {
    if routes != [] {
      InRouteEntries(prefix, routes[..|routes| - 1], e);
      assert routes == routes[..|routes| - 1] + [routes[|routes| - 1]];
    }
  }

  lemma {:induction false} InControllerEntries(cs: seq<Controller>, e: Entry)
    ensures e in ControllerEntries(cs) <==> Serves(cs, e)
  {
    if cs != [] {
      var before, last := cs[..|cs| - 1], cs[|cs| - 1];
      assert cs == before + [last];
      InControllerEntries(before, e);
      if last.Routable? {
        InRouteEntries(last.prefix, last.routes, e);
      }
      assert Serves(cs, e) <==> Serves(before, e) || Serves([last], e);
    }
  }

  lemma {:induction false} InEntriesOf(app: Application, order: seq<Modules.ModuleId>, e: Entry)
    ensures e in EntriesOf(app, order) <==> exists m :: m in order && Serves(ControllersOf(app, m), e)
  {
    if order != [] {
      InEntriesOf(app, order[1..], e);
      InControllerEntries(ControllersOf(app, order[0]), e);
    }
  }

  /** A route is documented if and only if it is not excluded and a module that is reachable from
      the root over imports owns its controller; however often modules import each other, each is
      walked once. */
  lemma DocumentedRoutes(app: Application, root: Modules.ModuleId)
    ensures NoDup(Preorder(app.imports, [root], {}))
    ensures forall e :: e in AppEntries(app, root) <==>
              exists m :: Reaches(app.imports, root, m) && Serves(ControllersOf(app, m), e)
  {
    PreorderIsReachable(app.imports, root);
    forall e ensures e in AppEntries(app, root) <==>
        exists m :: Reaches(app.imports, root, m) && Serves(ControllersOf(app, m), e) {
      InEntriesOf(app, Preorder(app.imports, [root], {}), e);
    }
  }

  type Paths = map<string, map<string, Operation>>

  function PathItem(paths: Paths, path: string): map<string, Operation> {
    if path in paths then paths[path] else map[]
  }

  /** The path items after some routes, one after the other. */
  function PathsOf(g: Registry, entries: seq<Entry>, exception: SchemaId): Paths {
    if entries == [] then map[]
    else
      var before, e := PathsOf(g, entries[..|entries| - 1], exception), entries[|entries| - 1];
      before[e.path := PathItem(before, e.path)[e.route.verb := OperationOf(g, e.route, exception)]]
  }

  lemma PathsOfOneMore(g: Registry, entries: seq<Entry>, exception: SchemaId, e: Entry)
    ensures var before := PathsOf(g, entries, exception);
            PathsOf(g, entries + [e], exception)
            == before[e.path := PathItem(before, e.path)[e.route.verb := OperationOf(g, e.route, exception)]]
  {
    assert (entries + [e])[..|entries|] == entries;
  }

  predicate SameSlot(e: Entry, path: string, verb: string) {
    e.path == path && e.route.verb == verb
  }

  ghost predicate LastOf(entries: seq<Entry>, path: string, verb: string, i: nat) {
    i < |entries| && SameSlot(entries[i], path, verb) && forall j :: i < j < |entries| ==>
        !SameSlot(entries[j], path, verb)
  }

  /** The document has an operation for exactly the paths and methods of the documented routes;
      of several routes with the same path and method the last one is shown. */
  lemma {:induction false} LastRouteIsShown(g: Registry, entries: seq<Entry>, exception: SchemaId, path: string,
                                            verb: string)
    ensures verb in PathItem(PathsOf(g, entries, exception), path) <==> exists i: nat :: LastOf(entries, path, verb, i)
    ensures forall i: nat :: LastOf(entries, path, verb, i) ==>
              verb in PathItem(PathsOf(g, entries, exception), path)
              && PathItem(PathsOf(g, entries, exception), path)[verb] == OperationOf(g, entries[i].route, exception)
  {
    if entries != [] {
      var n := |entries| - 1;
      LastRouteIsShown(g, entries[..n], exception, path, verb);
      if SameSlot(entries[n], path, verb) {
        assert LastOf(entries, path, verb, n);
      } else {
        forall i: nat ensures LastOf(entries, path, verb, i) <==> LastOf(entries[..n], path, verb, i) {
          LastStays(entries, path, verb, i);
        }
      }
    }
  }

  lemma LastStays(entries: seq<Entry>, path: string, verb: string, i: nat)
    requires entries != [] && !SameSlot(entries[|entries| - 1], path, verb)
    ensures LastOf(entries, path, verb, i) <==> LastOf(entries[..|entries| - 1], path, verb, i)
  {
    var before := entries[..|entries| - 1];
    if LastOf(before, path, verb, i) {
      forall j | i < j < |entries| ensures !SameSlot(entries[j], path, verb) {
        assert j < |before| ==> entries[j] == before[j];
      }
    }
  }

  ghost predicate RoutesKnown(g: Registry, entries: seq<Entry>) {
    forall e :: e in entries ==> RouteKnown(g, e.route)
  }

  /** The schemas that the documented routes reach. */
  ghost predicate Documented(g: Registry, entries: seq<Entry>, exception: SchemaId, s: SchemaId) {
    exists e, t :: e in entries && t in RouteRefs(g, e.route, exception) && Reaches(g.refs, t, s)
  }

  lemma RouteRefIsDocumented(g: Registry, entries: seq<Entry>, exception: SchemaId, e: Entry, t: SchemaId)
    requires e in entries && RouteKnown(g, e.route) && exception in g.schemas && RouteRef(g, e.route, exception, t)
    ensures Documented(g, entries, exception, t)
  {
    RouteRefIsKnown(g, e.route, exception, t);
    ReachesSelf(g.refs, t);
    assert t in RouteRefs(g, e.route, exception);
  }
}
