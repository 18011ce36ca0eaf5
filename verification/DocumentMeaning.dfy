// internal/openapi/generate.go against internal/validate/validate.go: which JSON values the document
// admits, by the rules of JSON Schema alone, and when these are the values that the validator accepts.
module DocumentMeaning {
  import opened Graphs
  import opened References
  import opened Validation
  import opened ApiDocument
  import Documentation

  type Components = map<string, Component>

  // ---- what a Schema Object admits ----

  /** The characters of a text in UTF-8: the bytes that do not continue one (section 3 of RFC 3629). */
  function Characters(s: string): nat {
    if s == "" then 0 else (if 0x80 <= s[0] as int < 0xC0 then 0 else 1) + Characters(s[1..])
  }

  predicate Within(min: Option<int>, max: Option<int>, n: int) {
    (min.Some? ==> min.value <= n) && (max.Some? ==> n <= max.value)
  }

  predicate Between(min: Option<int>, max: Option<int>, f: real) {
    (min.Some? ==> min.value as real <= f) && (max.Some? ==> f <= max.value as real)
  }

  predicate Integral(f: real) {
    f == f.Floor as real
  }

  predicate HasType(typ: string, v: Json) {
    match v
    case Str(_) => typ == "string"
    case Number(f) => typ == "number" || (typ == "integer" && Integral(f))
    case Bool(_) => typ == "boolean"
    case _ => false
  }

  /** minLength, maxLength and pattern of a text, minimum and maximum of a number, and enum, which
      no value escapes, null included. */
  predicate KeepsLimits(lib: Library, l: Limits, v: Json) {
    && (v.Str? ==> Within(l.min, l.max, Characters(v.s)))
    && (v.Str? && l.pattern != "" ==> lib.compiles(l.pattern) && lib.matches(l.pattern, v.s))
    && (v.Number? ==> Between(l.min, l.max, v.f))
    && (l.strings.Some? ==> v.Str? && v.s in l.strings.value)
    && (l.ints.Some? ==> v.Number? && Listed(v.f, l.ints.value))
  }

  /** What a Schema Object asks of a value itself. Every component is of type object. */
  predicate AdmitsHere(lib: Library, d: Doc, v: Json) {
    match d
    case Ref(_) => v.Obj?
    case RefOrNull(_) => v.Obj? || v.Null?
    case Anything => true
    case Typed(typ, nullable, l) => ((nullable && v.Null?) || HasType(typ, v)) && KeepsLimits(lib, l, v)
    case ArrayDoc(_, nullable, l) => (nullable && v.Null?) || (v.Arr? && Within(l.min, l.max, |v.items|))
    case OpenObject(_, nullable) => (nullable && v.Null?) || v.Obj?
  }

  /** What it asks of a value and of everything inside, along the references of the document. */
  ghost predicate Admits(lib: Library, comps: Components, d: Doc, v: Json)
    decreases v, 2
  {
    && AdmitsHere(lib, d, v)
    && match d
       case Ref(target) => AdmitsRef(lib, comps, target, v)
       case RefOrNull(target) => v.Null? || AdmitsRef(lib, comps, target, v)
       case ArrayDoc(items, _, _) =>
         v.Arr? ==> forall i :: 0 <= i < |v.items| ==> Admits(lib, comps, items, v.items[i])
       case _ => true
  }

  ghost predicate AdmitsRef(lib: Library, comps: Components, target: string, v: Json)
    decreases v, 1
  {
    ComponentOf(target).Some? && ComponentOf(target).value in comps
    && AdmitsComponent(lib, comps, comps[ComponentOf(target).value], v)
  }

  ghost predicate AdmitsComponent(lib: Library, comps: Components, d: Component, v: Json)
    decreases v, 0
  {
    && v.Obj? && (forall key :: key in d.required ==> key in v.fields)
    && forall key :: key in d.properties && key in v.fields ==> Admits(lib, comps, d.properties[key], v.fields[key])
  }

  // ---- where the document and the validator part, at one value ----

  /** Text in bounds by its bytes but not by its characters, or the other way round, or held against a
      pattern that does not compile. */
  predicate TextDiffers(lib: Library, p: Property, s: string) {
    && (p.enumString.Some? ==> s in p.enumString.value)
    && if p.pattern != "" && !lib.compiles(p.pattern) then Within(p.min, p.max, |s|)
       else (p.pattern != "" ==> lib.matches(p.pattern, s))
            && Within(p.min, p.max, |s|) != Within(p.min, p.max, Characters(s))
  }

  predicate IsDuration(lib: Library, p: Property, v: Json) {
    v.Str? && lib.duration(v.s).Some? && Within(p.min, p.max, lib.duration(v.s).value)
    && (p.enumInt.Some? ==> lib.duration(v.s).value in p.enumInt.value)
  }

  predicate Differs(lib: Library, p: Property, v: Json) {
    match p.shape
    case StringShape => if v.Null? then p.nullable && p.enumString.Some? else v.Str? && TextDiffers(lib, p, v.s)
    case IntegerShape =>
      if v.Null? then p.nullable && p.enumInt.Some?
      else v.Number? && Integral(v.f) && !IsInt64(v.f) && Between(p.min, p.max, v.f) && p.enumInt.None?
    case NumberShape =>
      if v.Null? then p.nullable && p.enumInt.Some?
      else v.Number? && !IsInt64(v.f) && Between(p.min, p.max, v.f) && p.enumInt.Some?
           && Int64Of(v.f) in p.enumInt.value
    case BooleanShape => false
    case ArrayShape(_, _) => false
    case ObjectShape(additional, ref) => (additional || ref.None?) && !v.Obj? && !v.Null?
    case DurationShape => if v.Null? then !p.nullable else !IsDuration(lib, p, v)
    case Unshaped => v.Null? && !p.nullable
  }

  /** The validator lets the value through, inside it left aside. */
  predicate Passes(lib: Library, p: Property, v: Json)
    requires p.custom.None?
  {
    if v.Null? then p.nullable
    else
      match p.shape
      case StringShape =>
        v.Str? && Within(p.min, p.max, |v.s|) && (p.enumString.Some? ==> v.s in p.enumString.value)
        && (p.pattern != "" && lib.compiles(p.pattern) ==> lib.matches(p.pattern, v.s))
      case IntegerShape =>
        v.Number? && IsInt64(v.f) && Between(p.min, p.max, v.f)
        && (p.enumInt.Some? ==> Int64Of(v.f) in p.enumInt.value)
      case NumberShape =>
        v.Number? && Between(p.min, p.max, v.f) && (p.enumInt.Some? ==> Int64Of(v.f) in p.enumInt.value)
      case BooleanShape => v.Bool?
      case DurationShape => IsDuration(lib, p, v)
      case ArrayShape(_, _) => v.Arr? && Within(p.min, p.max, |v.items|)
      case ObjectShape(additional, ref) => additional || ref.None? || v.Obj?
      case Unshaped => true
  }

  lemma StringPasses(lib: Library, p: Property, s: string)
    ensures (forall m :: !StringFails(lib, p, s, m)) <==>
              && Within(p.min, p.max, |s|) && (p.enumString.Some? ==> s in p.enumString.value)
              && (p.pattern != "" && lib.compiles(p.pattern) ==> lib.matches(p.pattern, s))
  {
    if p.min.Some? { assert StringFails(lib, p, s, LengthBelow(p.min.value)) <==> |s| < p.min.value; }
    if p.max.Some? { assert StringFails(lib, p, s, LengthAbove(p.max.value)) <==> |s| > p.max.value; }
    if p.enumString.Some? {
      assert StringFails(lib, p, s, MustBeOneOf(p.enumString.value)) <==> s !in p.enumString.value;
    }
    assert StringFails(lib, p, s, MustMatch(p.pattern)) <==>
        p.pattern != "" && lib.compiles(p.pattern) && !lib.matches(p.pattern, s);
  }

  lemma NumberPasses(p: Property, f: real)
    ensures (forall m :: !NumberFails(p, f, m)) <==>
              Between(p.min, p.max, f) && (p.enumInt.Some? ==> Int64Of(f) in p.enumInt.value)
  {
    if p.min.Some? { assert NumberFails(p, f, Below(p.min.value)) <==> f < p.min.value as real; }
    if p.max.Some? { assert NumberFails(p, f, Above(p.max.value)) <==> f > p.max.value as real; }
    if p.enumInt.Some? {
      assert NumberFails(p, f, MustBeOneOfInts(p.enumInt.value)) <==> Int64Of(f) !in p.enumInt.value;
    }
  }

  lemma DurationPasses(p: Property, d: int)
    ensures (forall m :: !DurationFails(p, d, m)) <==>
              Within(p.min, p.max, d) && (p.enumInt.Some? ==> d in p.enumInt.value)
  {
    if p.min.Some? { assert DurationFails(p, d, DurationBelow(p.min.value)) <==> d < p.min.value; }
    if p.max.Some? { assert DurationFails(p, d, DurationAbove(p.max.value)) <==> d > p.max.value; }
    if p.enumInt.Some? {
      assert DurationFails(p, d, MustBeOneOfInts(p.enumInt.value)) <==> d !in p.enumInt.value;
    }
  }

  lemma QuantityPasses(p: Property, n: nat)
    ensures (forall m :: !QuantityFails(p, n, m)) <==> Within(p.min, p.max, n)
  {
    if p.min.Some? { assert QuantityFails(p, n, FewerItemsThan(p.min.value)) <==> n < p.min.value; }
    if p.max.Some? { assert QuantityFails(p, n, MoreItemsThan(p.max.value)) <==> n > p.max.value; }
  }

  ghost predicate Silent(lib: Library, p: Property, v: Json) {
    forall m :: !ValueFails(lib, p, v, m)
  }

  lemma PrimitiveIsSilent(lib: Library, p: Property, v: Json)
    requires p.custom.None? && !v.Null? && !p.shape.ArrayShape? && !p.shape.ObjectShape?
    ensures Silent(lib, p, v) <==> forall m :: !PrimitiveFails(lib, p, v, m)
  {
    forall m ensures ValueFails(lib, p, v, m) <==> PrimitiveFails(lib, p, v, m) {
    }
  }

  lemma StringIsSilentIff(lib: Library, p: Property, v: Json)
    requires p.custom.None? && !v.Null? && p.shape.StringShape?
    ensures Silent(lib, p, v) <==> Passes(lib, p, v)
  {
    PrimitiveIsSilent(lib, p, v);
    if v.Str? {
      StringPasses(lib, p, v.s);
      assert forall m :: PrimitiveFails(lib, p, v, m) <==> StringFails(lib, p, v.s, m);
    } else {
      assert PrimitiveFails(lib, p, v, ExpectedString);
    }
  }

  lemma NumberIsSilentIff(lib: Library, p: Property, v: Json)
    requires p.custom.None? && !v.Null? && (p.shape.IntegerShape? || p.shape.NumberShape?)
    ensures Silent(lib, p, v) <==> Passes(lib, p, v)
  {
    PrimitiveIsSilent(lib, p, v);
    if !v.Number? {
      assert PrimitiveFails(lib, p, v, ExpectedNumber);
    } else if p.shape.IntegerShape? && !IsInt64(v.f) {
      assert PrimitiveFails(lib, p, v, ExpectedInteger);
    } else {
      NumberPasses(p, v.f);
      assert forall m :: PrimitiveFails(lib, p, v, m) <==> NumberFails(p, v.f, m);
    }
  }

  lemma DurationIsSilentIff(lib: Library, p: Property, v: Json)
    requires p.custom.None? && !v.Null? && p.shape.DurationShape?
    ensures Silent(lib, p, v) <==> Passes(lib, p, v)
  {
    PrimitiveIsSilent(lib, p, v);
    if !v.Str? {
      assert PrimitiveFails(lib, p, v, ExpectedString);
    } else if lib.duration(v.s).None? {
      assert PrimitiveFails(lib, p, v, InvalidDuration);
    } else {
      DurationPasses(p, lib.duration(v.s).value);
      assert forall m :: PrimitiveFails(lib, p, v, m) <==> DurationFails(p, lib.duration(v.s).value, m);
    }
  }

  lemma ContainerIsSilentIff(lib: Library, p: Property, v: Json)
    requires p.custom.None? && !v.Null? && (p.shape.ArrayShape? || p.shape.ObjectShape?)
    ensures Silent(lib, p, v) <==> Passes(lib, p, v)
  {
    if p.shape.ArrayShape? {
      if v.Arr? {
        QuantityPasses(p, |v.items|);
        assert forall m :: ValueFails(lib, p, v, m) <==> QuantityFails(p, |v.items|, m);
      } else {
        assert ValueFails(lib, p, v, ExpectedArray);
      }
    } else if !p.shape.additional && p.shape.ref.Some? && !v.Obj? {
      assert ValueFails(lib, p, v, ExpectedObject);
    }
  }

  /** The validator has nothing to say about the value itself. */
  lemma SilentIff(lib: Library, p: Property, v: Json)
    requires p.custom.None?
    ensures Silent(lib, p, v) <==> Passes(lib, p, v)
  {
    if v.Null? {
      assert ValueFails(lib, p, v, CannotBeNull) <==> !p.nullable;
      assert forall m :: ValueFails(lib, p, v, m) ==> m == CannotBeNull && !p.nullable;
    } else {
      match p.shape
      case StringShape => StringIsSilentIff(lib, p, v);
      case IntegerShape => NumberIsSilentIff(lib, p, v);
      case NumberShape => NumberIsSilentIff(lib, p, v);
      case DurationShape => DurationIsSilentIff(lib, p, v);
      case ArrayShape(_, _) => ContainerIsSilentIff(lib, p, v);
      case ObjectShape(_, _) => ContainerIsSilentIff(lib, p, v);
      case BooleanShape =>
        PrimitiveIsSilent(lib, p, v);
        assert PrimitiveFails(lib, p, v, ExpectedBoolean) <==> !v.Bool?;
      case Unshaped => PrimitiveIsSilent(lib, p, v);
    }
  }

  /** Enumerations of integers list Go integers of 64 bits. */
  predicate GoEnums(p: Property) {
    p.enumInt.Some? ==> ListsInt64(p.enumInt.value)
  }

  lemma Int64IsIntegral(f: real)
    ensures IsInt64(f) ==> Integral(f)
  {
  }

  lemma TypedAgreesIff(lib: Library, g: Registry, p: Property, v: Json)
    requires p.custom.None? && GoEnums(p) && !v.Null?
    requires p.shape.StringShape? || p.shape.IntegerShape? || p.shape.NumberShape? || p.shape.BooleanShape?
    ensures (AdmitsHere(lib, DocOf(g, p), v) <==> Passes(lib, p, v)) <==> !Differs(lib, p, v)
  {
    if v.Number? {
      Int64IsIntegral(v.f);
      if p.enumInt.Some? {
        ListedIsInt64(v.f, p.enumInt.value);
      }
    }
  }

  /** At one value, document and validator agree if and only if it is none of these: null for a
      nullable enumeration, or for no declared kind; a text whose bytes, but not its characters, are in
      bounds, or the other way round; a pattern that does not compile; an integral number beyond 64
      bits; a number taken for an enumerated one when truncated; anything but an object where an open
      one is declared; what is no duration. */
  lemma HereAgreesIff(lib: Library, g: Registry, p: Property, v: Json)
    requires p.custom.None? && GoEnums(p)
    ensures (AdmitsHere(lib, DocOf(g, p), v) <==> Silent(lib, p, v)) <==> !Differs(lib, p, v)
  {
    SilentIff(lib, p, v);
    if !v.Null? && (p.shape.StringShape? || p.shape.IntegerShape? || p.shape.NumberShape? || p.shape.BooleanShape?) {
      TypedAgreesIff(lib, g, p, v);
    }
  }

  /** The bytes of a text are its characters if all of them are ASCII. */
  lemma {:induction false} AsciiIsCharacters(s: string)
    requires forall i :: 0 <= i < |s| ==> s[i] as int < 0x80
    ensures Characters(s) == |s|
  {
    if s != "" {
      AsciiIsCharacters(s[1..]);
    }
  }

  // ---- a whole value ----

  /** No hook changes or replaces the check, and no open object refers to a schema all the same. */
  predicate Unhooked(p: Property) {
    && p.custom.None? && p.sanitize.None? && GoEnums(p)
    && match p.shape
       case ArrayShape(item, itemRef) => itemRef.Some? || Unhooked(item)
       case ObjectShape(additional, ref) => !(additional && ref.Some?)
       case _ => true
  }

  /** Each property is found under the key that is documented, no two under the same. */
  ghost predicate Distinct(g: Registry, s: SchemaId)
    requires s in g.schemas
  {
    && (forall o :: o in g.schemas[s] ==> g.schemas[s][o].tag != "-" && Unhooked(g.schemas[s][o]))
    && forall o, o' :: o in g.schemas[s] && o' in g.schemas[s] && o != o' ==>
      DisplayKey(g.schemas[s][o]) != DisplayKey(g.schemas[s][o'])
  }

  /** The references to the schema lead to a component that describes it. */
  ghost predicate Pictured(g: Registry, comps: Components, s: SchemaId) {
    && Known(g, s) && Distinct(g, s) && NameOf(g, s) in comps && comps[NameOf(g, s)].owner == s
    && Describes(g, comps[NameOf(g, s)]) && ComponentOf(RefTo(NameOf(g, s))) == Some(NameOf(g, s))
  }

  /** All schemas that some of these refer to are among them, and pictured. */
  ghost predicate Drawn(g: Registry, comps: Components, shown: set<SchemaId>) {
    (forall s :: s in shown ==> Pictured(g, comps, s))
    && forall s, o :: s in shown && o in g.schemas[s] ==> RefsOf(g.schemas[s][o]) <= shown
  }

  /** At no place of the value do document and validator part. */
  ghost predicate Even(lib: Library, c: Catalog, site: Site) {
    forall path :: EvenAt(lib, SiteAt(c, site, path))
  }

  predicate EvenAt(lib: Library, site: Option<Site>) {
    site.Some? && site.value.Value? ==> !Differs(lib, site.value.p, site.value.raw)
  }

  lemma EvenBelow(lib: Library, c: Catalog, site: Site, step: Step)
    requires Even(lib, c, site) && Child(c, site, step).Some?
    ensures Even(lib, c, Child(c, site, step).value)
  {
    var child := Child(c, site, step).value;
    forall path ensures EvenAt(lib, SiteAt(c, child, path)) {
      assert ([step] + path)[1..] == path && SiteAt(c, site, [step] + path) == SiteAt(c, child, path);
      assert EvenAt(lib, SiteAt(c, site, [step] + path));
    }
  }

  lemma EvenHere(lib: Library, c: Catalog, p: Property, v: Json)
    requires Even(lib, c, Value(p, v))
    ensures !Differs(lib, p, v)
  {
    assert SiteAt(c, Value(p, v), []) == Some(Value(p, v));
    assert EvenAt(lib, SiteAt(c, Value(p, v), []));
  }

  lemma SilentSite(lib: Library, p: Property, v: Json)
    requires p.sanitize.None?
    ensures Silent(lib, p, v) <==> forall m :: !Fails(lib, Value(p, v), m)
  {
    assert forall m :: Fails(lib, Value(p, v), m) <==> ValueFails(lib, p, v, m);
  }

  /** The document admits a value for a property just if the validator has nothing to report. */
  ghost predicate Agrees(lib: Library, g: Registry, comps: Components, p: Property, v: Json) {
    Admits(lib, comps, DocOf(g, p), v) <==> Conforms(lib, g.schemas, Value(p, v))
  }

  lemma LeafAgrees(lib: Library, g: Registry, comps: Components, p: Property, v: Json)
    requires Unhooked(p) && !Differs(lib, p, v)
    requires forall step :: Child(g.schemas, Value(p, v), step).None?
    requires Admits(lib, comps, DocOf(g, p), v) <==> AdmitsHere(lib, DocOf(g, p), v)
    ensures Agrees(lib, g, comps, p, v)
  {
    HereAgreesIff(lib, g, p, v);
    SilentSite(lib, p, v);
    ConformsUnfolds(lib, g.schemas, Value(p, v));
  }

  /** An object for a schema: its component admits it just if nothing is wrong with its properties. */
  lemma {:induction false} ObjectAgrees(lib: Library, g: Registry, comps: Components, shown: set<SchemaId>, s: SchemaId,
                                        v: Json)
    requires Drawn(g, comps, shown) && s in shown && v.Obj? && Even(lib, g.schemas, Whole(s, v.fields))
    ensures AdmitsRef(lib, comps, RefTo(NameOf(g, s)), v) <==> Conforms(lib, g.schemas, Whole(s, v.fields))
    decreases v, 0
  {
    var d, whole := comps[NameOf(g, s)], Whole(s, v.fields);
    assert Pictured(g, comps, s);
    forall o | o in g.schemas[s]
      ensures var p := g.schemas[s][o]; var key := DisplayKey(p);
              key in v.fields ==> Agrees(lib, g, comps, p, v.fields[key]) {
      var p := g.schemas[s][o];
      var key := DisplayKey(p);
      if key in v.fields {
        KeyOfProperty(g, s, o, v.fields);
        EvenBelow(lib, g.schemas, whole, Prop(o, key));
        ValueAgrees(lib, g, comps, shown, p, v.fields[key]);
      }
    }
    ComponentAgrees(lib, g, comps, s, v);
  }

  lemma KeyOfProperty(g: Registry, s: SchemaId, o: nat, fields: map<string, Json>)
    requires s in g.schemas && o in g.schemas[s] && g.schemas[s][o].tag != "-"
    ensures var p := g.schemas[s][o]; var key := DisplayKey(p);
            && Child(g.schemas, Whole(s, fields), Prop(o, key))
                == Some(if key in fields then Value(p, fields[key]) else Missing(p))
            && forall k :: k != key ==> Child(g.schemas, Whole(s, fields), Prop(o, k)).None?
  {
    DisplayedAsValidatedIff(g.schemas[s][o]);
  }

  /** What a schema asks of one of its properties in an object. */
  ghost predicate PropertyConforms(lib: Library, g: Registry, p: Property, fields: map<string, Json>) {
    if DisplayKey(p) in fields then Conforms(lib, g.schemas, Value(p, fields[DisplayKey(p)])) else !p.required
  }

  ghost predicate PropertyAdmitted(lib: Library, g: Registry, comps: Components, p: Property, fields: map<string, Json>)
  {
    if DisplayKey(p) in fields then Admits(lib, comps, DocOf(g, p), fields[DisplayKey(p)]) else !p.required
  }

  lemma MissingConformsIff(lib: Library, c: Catalog, p: Property)
    ensures Conforms(lib, c, Missing(p)) <==> !p.required
  {
    ConformsUnfolds(lib, c, Missing(p));
    assert Fails(lib, Missing(p), Required) <==> p.required;
  }

  lemma WholeConformsIff(lib: Library, g: Registry, s: SchemaId, fields: map<string, Json>)
    requires s in g.schemas && Distinct(g, s)
    ensures Conforms(lib, g.schemas, Whole(s, fields))
       <==> forall o :: o in g.schemas[s] ==> PropertyConforms(lib, g, g.schemas[s][o], fields)
  {
    var whole := Whole(s, fields);
    ConformsUnfolds(lib, g.schemas, whole);
    forall o | o in g.schemas[s]
      ensures Child(g.schemas, whole, Prop(o, DisplayKey(g.schemas[s][o]))).Some?
      ensures PropertyConforms(lib, g, g.schemas[s][o], fields)
         <==> Conforms(lib, g.schemas, Child(g.schemas, whole, Prop(o, DisplayKey(g.schemas[s][o]))).value) {
      KeyOfProperty(g, s, o, fields);
      MissingConformsIff(lib, g.schemas, g.schemas[s][o]);
    }
    forall step | Child(g.schemas, whole, step).Some?
      ensures step.Prop? && step.offset in g.schemas[s] && step.key == DisplayKey(g.schemas[s][step.offset]) {
      KeyOfProperty(g, s, step.offset, fields);
    }
  }

  /** What a component says about a key is what it says about the only property of that key. */
  lemma DescribedOnce(g: Registry, d: Component, o: nat)
    requires Describes(g, d) && Distinct(g, d.owner) && o in g.schemas[d.owner]
    ensures var p := g.schemas[d.owner][o]; var key := DisplayKey(p);
            key in d.properties && d.properties[key] == DocOf(g, p) && (key in d.required <==> p.required)
  {
    var key := DisplayKey(g.schemas[d.owner][o]);
    assert key in d.properties;
    var o' :| o' in g.schemas[d.owner].Keys && DisplayKey(g.schemas[d.owner][o']) == key
        && d.properties[key] == DocOf(g, g.schemas[d.owner][o']);
    if key in d.required {
      var r :| r in g.schemas[d.owner].Keys && DisplayKey(g.schemas[d.owner][r]) == key
          && g.schemas[d.owner][r].required;
    }
  }

  lemma ComponentAdmitsIff(lib: Library, g: Registry, comps: Components, d: Component, v: Json)
    requires Describes(g, d) && Distinct(g, d.owner) && v.Obj?
    ensures AdmitsComponent(lib, comps, d, v)
       <==> forall o :: o in g.schemas[d.owner] ==> PropertyAdmitted(lib, g, comps, g.schemas[d.owner][o], v.fields)
  {
    var schema := g.schemas[d.owner];
    forall o | o in schema
      ensures var key := DisplayKey(schema[o]);
              key in d.properties && d.properties[key] == DocOf(g, schema[o])
                  && (key in d.required <==> schema[o].required) {
      DescribedOnce(g, d, o);
    }
    if AdmitsComponent(lib, comps, d, v) {
      forall o | o in schema ensures PropertyAdmitted(lib, g, comps, schema[o], v.fields) {
        assert DisplayKey(schema[o]) in d.properties;
      }
    }
    if forall o :: o in schema ==> PropertyAdmitted(lib, g, comps, schema[o], v.fields) {
      forall key | key in d.required ensures key in v.fields {
        var o :| o in schema.Keys && DisplayKey(schema[o]) == key && schema[o].required;
        assert PropertyAdmitted(lib, g, comps, schema[o], v.fields);
      }
      forall key | key in d.properties && key in v.fields ensures Admits(lib, comps, d.properties[key], v.fields[key]) {
        var o :| o in schema.Keys && DisplayKey(schema[o]) == key;
        assert PropertyAdmitted(lib, g, comps, schema[o], v.fields);
      }
    }
  }

  lemma ComponentAgrees(lib: Library, g: Registry, comps: Components, s: SchemaId, v: Json)
    requires Pictured(g, comps, s) && v.Obj?
    requires forall o :: o in g.schemas[s] && DisplayKey(g.schemas[s][o]) in v.fields ==>
               Agrees(lib, g, comps, g.schemas[s][o], v.fields[DisplayKey(g.schemas[s][o])])
    ensures AdmitsRef(lib, comps, RefTo(NameOf(g, s)), v) <==> Conforms(lib, g.schemas, Whole(s, v.fields))
  {
    ComponentAdmitsIff(lib, g, comps, comps[NameOf(g, s)], v);
    WholeConformsIff(lib, g, s, v.fields);
    forall o | o in g.schemas[s]
      ensures PropertyAdmitted(lib, g, comps, g.schemas[s][o], v.fields)
         <==> PropertyConforms(lib, g, g.schemas[s][o], v.fields) {
    }
  }

  /** An object is looked into in the same way wherever a schema is asked for. */
  predicate LooksInto(c: Catalog, site: Site, s: SchemaId, v: Json) {
    v.Obj? && match site
              case Element(ref, x) => ref == s && x == v
              case Value(p, x) => x == v && p.custom.None? && p.sanitize.None? && p.shape == ObjectShape(false, Some(s))
              case _ => false
  }

  lemma LooksAlike(lib: Library, c: Catalog, site: Site, s: SchemaId, v: Json)
    requires LooksInto(c, site, s, v)
    ensures Conforms(lib, c, site) <==> (forall m :: !Fails(lib, site, m)) && Conforms(lib, c, Whole(s, v.fields))
    ensures Even(lib, c, site) ==> Even(lib, c, Whole(s, v.fields))
  {
    var whole := Whole(s, v.fields);
    ConformsUnfolds(lib, c, site);
    ConformsUnfolds(lib, c, whole);
    assert forall step :: Child(c, site, step) == Child(c, whole, step);
    if Even(lib, c, site) {
      forall path ensures EvenAt(lib, SiteAt(c, whole, path)) {
        assert EvenAt(lib, SiteAt(c, site, path));
        if path != [] {
          assert SiteAt(c, site, path) == SiteAt(c, whole, path);
        }
      }
    }
  }

  lemma ReferredAgrees(lib: Library, g: Registry, comps: Components, shown: set<SchemaId>, p: Property, s: SchemaId,
                       v: Json)
    requires Drawn(g, comps, shown) && s in shown && v.Obj? && Unhooked(p) && p.shape == ObjectShape(false, Some(s))
    requires Even(lib, g.schemas, Value(p, v))
    ensures Agrees(lib, g, comps, p, v)
    decreases v, 1
  {
    LooksAlike(lib, g.schemas, Value(p, v), s, v);
    ObjectAgrees(lib, g, comps, shown, s, v);
    EvenHere(lib, g.schemas, p, v);
    HereAgreesIff(lib, g, p, v);
    SilentSite(lib, p, v);
  }

  /** An element of an array, by its own description or by a reference. */
  lemma ItemAgrees(lib: Library, g: Registry, comps: Components, shown: set<SchemaId>, p: Property, x: Json)
    requires p.shape.ArrayShape? && Drawn(g, comps, shown) && Unhooked(p) && RefsOf(p) <= shown
    requires Even(lib, g.schemas, ItemSite(p, x))
    ensures Admits(lib, comps, DocOf(g, p).items, x) <==> Conforms(lib, g.schemas, ItemSite(p, x))
    decreases x, 3
  {
    if p.shape.itemRef.None? {
      ValueAgrees(lib, g, comps, shown, p.shape.item, x);
    } else if x.Obj? {
      var s := p.shape.itemRef.value;
      assert s in RefsOf(p);
      LooksAlike(lib, g.schemas, Element(s, x), s, x);
      ObjectAgrees(lib, g, comps, shown, s, x);
    } else {
      ConformsUnfolds(lib, g.schemas, ItemSite(p, x));
      assert Fails(lib, ItemSite(p, x), ExpectedObject);
    }
  }

  lemma ArrayAgrees(lib: Library, g: Registry, comps: Components, shown: set<SchemaId>, p: Property, v: Json)
    requires p.shape.ArrayShape? && v.Arr? && Drawn(g, comps, shown) && Unhooked(p) && RefsOf(p) <= shown
    requires Even(lib, g.schemas, Value(p, v))
    ensures Agrees(lib, g, comps, p, v)
    decreases v, 1
  {
    var site := Value(p, v);
    forall i: nat | i < |v.items|
      ensures Child(g.schemas, site, Index(i)) == Some(ItemSite(p, v.items[i]))
      ensures Admits(lib, comps, DocOf(g, p).items, v.items[i]) <==> Conforms(lib, g.schemas, ItemSite(p, v.items[i])) {
      assert Child(g.schemas, site, Index(i)) == Some(ItemSite(p, v.items[i]));
      EvenBelow(lib, g.schemas, site, Index(i));
      ItemAgrees(lib, g, comps, shown, p, v.items[i]);
    }
    EvenHere(lib, g.schemas, p, v);
    HereAgreesIff(lib, g, p, v);
    SilentSite(lib, p, v);
    ConformsUnfolds(lib, g.schemas, site);
    forall step | Child(g.schemas, site, step).Some? ensures step.Index? && step.i < |v.items| {
    }
  }

  /** A value for a property: the document admits it just if the validator has nothing to report,
      provided that they do not part at any place in it. */
  lemma ValueAgrees(lib: Library, g: Registry, comps: Components, shown: set<SchemaId>, p: Property, v: Json)
    requires Drawn(g, comps, shown) && Unhooked(p) && RefsOf(p) <= shown && Even(lib, g.schemas, Value(p, v))
    ensures Agrees(lib, g, comps, p, v)
    decreases v, 2
  {
    if p.shape.ArrayShape? && v.Arr? {
      ArrayAgrees(lib, g, comps, shown, p, v);
    } else if p.shape.ObjectShape? && p.shape.ref.Some? && v.Obj? {
      assert p.shape.ref.value in RefsOf(p);
      ReferredAgrees(lib, g, comps, shown, p, p.shape.ref.value, v);
    } else {
      EvenHere(lib, g.schemas, p, v);
      LeafAgrees(lib, g, comps, p, v);
    }
  }

  // ---- what the document says about requests and responses ----

  /** A property of a request's parameters, query, form or whatever else a schema describes. */
  lemma ParameterAgrees(lib: Library, g: Registry, comps: Components, shown: set<SchemaId>, s: SchemaId, o: nat,
                        v: Json)
    requires Drawn(g, comps, shown) && s in shown && o in g.schemas[s]
               && Even(lib, g.schemas, Value(g.schemas[s][o], v))
    ensures o in PropertyDocs(g, Some(s))
    ensures Admits(lib, comps, PropertyDocs(g, Some(s))[o], v) <==> Conforms(lib, g.schemas, Value(g.schemas[s][o], v))
  {
    assert Pictured(g, comps, s);
    ValueAgrees(lib, g, comps, shown, g.schemas[s][o], v);
  }

  /** What a route declares for a property of its path, query or form is what is documented there. */
  lemma RequestAgrees(lib: Library, g: Registry, comps: Components, shown: set<SchemaId>, r: Route, exception: SchemaId,
                      s: SchemaId, o: nat, v: Json)
    requires Drawn(g, comps, shown) && s in shown && o in g.schemas[s]
               && Even(lib, g.schemas, Value(g.schemas[s][o], v))
    ensures var op, ok := OperationOf(g, r, exception), Conforms(lib, g.schemas, Value(g.schemas[s][o], v));
            && (r.params == Some(s) ==> o in op.params && (Admits(lib, comps, op.params[o], v) <==> ok))
            && (r.query == Some(s) ==> o in op.query && (Admits(lib, comps, op.query[o], v) <==> ok))
            && (r.form == Some(s) ==> o in op.form && (Admits(lib, comps, op.form[o], v) <==> ok))
  {
    ParameterAgrees(lib, g, comps, shown, s, o, v);
  }

  /** A body that is an object is admitted just if the validator passes it; any other is not admitted,
      but passes for an object without keys. */
  lemma BodyAgrees(lib: Library, g: Registry, comps: Components, shown: set<SchemaId>, s: SchemaId, body: Json)
    requires Drawn(g, comps, shown) && s in shown && Even(lib, g.schemas, Whole(s, FieldsOf(body)))
    ensures var admitted := Admits(lib, comps, Ref(RefTo(NameOf(g, s))), body);
            var passed := Conforms(lib, g.schemas, Whole(s, FieldsOf(body)));
            if body.Obj? then admitted <==> passed
            else !admitted && (passed <==> forall o :: o in g.schemas[s] ==> !g.schemas[s][o].required)
  {
    if body.Obj? {
      ObjectAgrees(lib, g, comps, shown, s, body);
    } else {
      assert Pictured(g, comps, s);
      WholeConformsIff(lib, g, s, map[]);
      assert forall o :: o in g.schemas[s] ==>
        (PropertyConforms(lib, g, g.schemas[s][o], map[]) <==> !g.schemas[s][o].required);
    }
  }

  /** A Schema Object admits just the objects that pass for a schema. */
  ghost predicate AdmitsJust(lib: Library, g: Registry, comps: Components, d: Option<Doc>, s: SchemaId, body: Json)
    requires body.Obj?
  {
    d.Some? && (Admits(lib, comps, d.value, body) <==> Conforms(lib, g.schemas, Whole(s, body.fields)))
  }

  /** The body of a route is documented by the schema it declares, unless it declares a form. */
  lemma RequestBodyAgrees(lib: Library, g: Registry, comps: Components, shown: set<SchemaId>, r: Route,
                          exception: SchemaId, s: SchemaId, body: Json)
    requires Drawn(g, comps, shown) && s in shown && body.Obj? && Even(lib, g.schemas, Whole(s, body.fields))
    requires r.body == Some(s)
    ensures var d := OperationOf(g, r, exception).body;
            if r.form.Some? then d.None? else AdmitsJust(lib, g, comps, d, s, body)
  {
    BodyAgrees(lib, g, comps, shown, s, body);
  }

  /** A response is documented by its own schema or, from status 400 on, by that of the exceptions. */
  lemma ResponseAgrees(lib: Library, g: Registry, comps: Components, shown: set<SchemaId>, r: Route,
                       exception: SchemaId, status: nat, s: SchemaId, body: Json)
    requires Drawn(g, comps, shown) && s in shown && body.Obj? && Even(lib, g.schemas, Whole(s, body.fields))
    requires status in r.responses
    ensures var d, own := OperationOf(g, r, exception).responses[status], r.responses[status];
            && (own == Some(s) ==> AdmitsJust(lib, g, comps, d, s, body))
            && (own.None? && status >= 400 && s == exception ==> AdmitsJust(lib, g, comps, d, s, body))
            && (own.None? && status < 400 ==> d.None?)
  {
    BodyAgrees(lib, g, comps, shown, s, body);
  }

  /** The document that a finished walk has written is drawn, if names are distinct and hold no
      characters that break a reference, and each schema is plain. */
  lemma WrittenIsDrawn(doc: Documentation.OpenApi, g: Registry)
    requires doc.Valid(g) && doc.stack == {}
    requires forall s :: s in doc.schemaNames ==> s in g.schemas && Distinct(g, s) && Plain(NameOf(g, s))
    requires forall s, t :: s in doc.schemaNames && t in doc.schemaNames && NameOf(g, s) == NameOf(g, t) ==> s == t
    ensures Drawn(g, doc.schemas, doc.schemaNames.Keys)
  {
    doc.OwnComponentsIffDistinctNames(g);
    forall s | s in doc.schemaNames ensures Pictured(g, doc.schemas, s) {
      PointsHomeIff(NameOf(g, s));
      assert Documentation.DescribesWritten(g, doc.schemaNames, doc.stack, NameOf(g, s), doc.schemas[NameOf(g, s)]);
    }
    forall s, o | s in doc.schemaNames && o in g.schemas[s] ensures RefsOf(g.schemas[s][o]) <= doc.schemaNames.Keys {
      forall t | t in RefsOf(g.schemas[s][o]) ensures t in doc.schemaNames {
        assert t in Graphs.Deps(g.refs, s);
      }
    }
  }

  /** Documentation and validation of a body agree: what the generated document admits under the
      reference to its schema is what the validator reports nothing about. */
  lemma DocumentAgrees(doc: Documentation.OpenApi, g: Registry, lib: Library, s: SchemaId, body: Json)
    requires doc.Valid(g) && doc.stack == {} && s in doc.schemaNames
    requires forall t :: t in doc.schemaNames ==> t in g.schemas && Distinct(g, t) && Plain(NameOf(g, t))
    requires forall t, u :: t in doc.schemaNames && u in doc.schemaNames && NameOf(g, t) == NameOf(g, u) ==> t == u
    requires body.Obj? && Even(lib, g.schemas, Whole(s, body.fields))
    ensures Admits(lib, doc.schemas, Ref(RefTo(NameOf(g, s))), body)
       <==> Conforms(lib, g.schemas, Whole(s, body.fields))
  {
    WrittenIsDrawn(doc, g);
    BodyAgrees(lib, g, doc.schemas, doc.schemaNames.Keys, s, body);
  }

  // ---- places where they part ----

  /** A nullable enumeration: the validator lets null through, the document does not list it. */
  lemma NullIsNotListed(lib: Library, g: Registry, p: Property)
    requires p.custom.None? && p.nullable
    requires (p.shape.StringShape? && p.enumString.Some?)
               || ((p.shape.IntegerShape? || p.shape.NumberShape?) && p.enumInt.Some?)
    ensures Silent(lib, p, Null) && !AdmitsHere(lib, DocOf(g, p), Null)
  {
    SilentIff(lib, p, Null);
  }

  /** Two bytes that make one character, where at most one is allowed. */
  lemma BytesAreNotCharacters(lib: Library, g: Registry, p: Property)
    requires p.custom.None? && p.shape.StringShape? && p.min.None? && p.max == Some(1) && p.pattern == ""
    requires p.enumString.None?
    ensures var v := Str([0xC3 as char, 0xA9 as char]); !Silent(lib, p, v) && AdmitsHere(lib, DocOf(g, p), v)
  {
    var s := [0xC3 as char, 0xA9 as char];
    assert s[1..] == [0xA9 as char] && s[1..][1..] == "";
    assert Characters(s[1..][1..]) == 0 && Characters(s[1..]) == 0 && Characters(s) == 1;
    SilentIff(lib, p, Str(s));
  }

  /** Schemas without a title whose types share a name, from two packages, cannot both be shown. */
  lemma NamesakesClash(doc: Documentation.OpenApi, g: Registry, s: SchemaId, t: SchemaId)
    requires doc.Valid(g) && doc.stack == {} && s in doc.schemaNames && t in doc.schemaNames && s != t
    requires Known(g, s) && Known(g, t) && g.titles[s] == "" == g.titles[t] && g.typeNames[s] == g.typeNames[t]
    ensures exists u :: u in {s, t} && doc.schemas[NameOf(g, u)].owner != u
  {
    assert Documentation.AllWritten(g, doc.schemaNames, doc.schemas, doc.stack);
    assert s in {s, t} && t in {s, t};
  }
}
