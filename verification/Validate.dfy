// internal/validate/validate.go: the recursive validation of a decoded JSON value against a
// schema graph that may refer to itself. A char stands for one byte of a string.
module Validation {
  import opened Graphs

  datatype Json =
    | Null
    | Bool(b: bool)
    | Number(f: real)
    | Str(s: string)
    | Arr(items: seq<Json>)
    | Obj(fields: map<string, Json>)

  // ---- schemas ----

  type SchemaId = nat

  /** The branch of the builder that was called last. */
  datatype Shape =
    | StringShape
    | IntegerShape
    | NumberShape
    | BooleanShape
    | DurationShape
    | ArrayShape(item: Property, itemRef: Option<SchemaId>)
    | ObjectShape(additional: bool, ref: Option<SchemaId>)
    | Unshaped

  datatype Width = W8 | W16 | W32 | W64

  /** A Go value of a flat type, or decoded JSON that is a container. */
  datatype GoValue =
    | GoString(s: string)
    | GoInt(width: Width, n: int)
    | GoUint(width: Width, u: int)
    | GoFloat(f: real)
    | GoBool(b: bool)
    | GoDuration(d: int)
    | GoNil
    | GoPointer(v: GoValue)
    | GoContainer(j: Json)

  datatype CustomResult = Accepted(value: GoValue) | Rejected(text: string)

  datatype Property = Property(
    name: string,
    tag: string,
    required: bool,
    nullable: bool,
    shape: Shape,
    min: Option<int>,
    max: Option<int>,
    pattern: string,
    enumString: Option<seq<string>>,
    enumInt: Option<seq<int>>,
    custom: Option<Json -> CustomResult>,
    sanitize: Option<Json -> Json>)

  /** The properties of a schema by field offset, and the schemas they may refer to. */
  type Schema = map<nat, Property>
  type Catalog = map<SchemaId, Schema>

  /** Regular expressions, durations and conversion to unsigned integers, as far as they matter. */
  datatype Library = Library(compiles: string -> bool, matches: (string, string) -> bool,
      duration: string -> Option<int>,
                              toUint64: real -> nat)

  /** A reference names a schema. */
  predicate Sound(c: Catalog, p: Property) {
    match p.shape
    case ArrayShape(item, itemRef) => (itemRef.Some? ==> itemRef.value in c) && Sound(c, item)
    case ObjectShape(_, ref) => ref.Some? ==> ref.value in c
    case _ => true
  }

  ghost predicate AllSound(c: Catalog) {
    forall id, offset :: id in c && offset in c[id] ==> Sound(c, c[id][offset])
  }

  // ---- what can be wrong ----

  datatype Message =
    | Required
    | CannotBeNull
    | ExpectedString
    | ExpectedNumber
    | ExpectedInteger
    | ExpectedBoolean
    | ExpectedArray
    | ExpectedObject
    | LengthBelow(min: int)
    | LengthAbove(max: int)
    | MustMatch(pattern: string)
    | MustBeOneOf(strings: seq<string>)
    | Below(min: int)
    | Above(max: int)
    | MustBeOneOfInts(ints: seq<int>)
    | InvalidDuration
    | DurationBelow(min: int)
    | DurationAbove(max: int)
    | FewerItemsThan(min: int)
    | MoreItemsThan(max: int)
    | CustomError(text: string)

  /** A step into a value: a property of the schema, by offset, with its key, or an index. */
  datatype Step = Prop(offset: nat, key: string) | Index(i: nat)
  type Path = seq<Step>

  /** A violation with its field as it is reported; at is the structured form of the field. */
  datatype Violation = Violation(at: Path, field: string, message: Message)

  // ---- the declarative failure sites ----

  /** A place in the value where something is demanded: an absent or a present property, an
      array element that a schema describes, or an object as a whole. */
  datatype Site =
    | Missing(p: Property)
    | Value(p: Property, raw: Json)
    | Element(ref: SchemaId, v: Json)
    | Whole(id: SchemaId, fields: map<string, Json>)

  function Key(p: Property): Option<string> {
    if p.tag == "-" then None
    else
      var name := BeforeComma(p.tag);
      Some(if name == "" then p.name else name)
  }

  function BeforeComma(s: string): (r: string)
    ensures r <= s && ',' !in r && (|r| < |s| ==> s[|r|] == ',')
  {
    if s == "" || s[0] == ',' then "" else [s[0]] + BeforeComma(s[1..])
  }

  lemma {:induction false} BeforeCommaIs(s: string, r: string)
    requires r <= s && ',' !in r && (|r| < |s| ==> s[|r|] == ',')
    ensures BeforeComma(s) == r
  {
    if r != "" {
      BeforeCommaIs(s[1..], r[1..]);
    }
  }

  function Sanitized(p: Property, raw: Json): Json {
    if p.sanitize.Some? then p.sanitize.value(raw) else raw
  }

  /** What is looked into further: neither null nor left to a custom check. */
  predicate Checked(p: Property, v: Json) {
    p.custom.None? && !v.Null?
  }

  function Child(c: Catalog, site: Site, step: Step): Option<Site> {
    match site
    case Missing(_) => None
    case Whole(id, fields) => InObject(c, id, fields, step)
    case Element(ref, v) => if v.Obj? then InObject(c, ref, v.fields, step) else None
    case Value(p, raw) =>
      var v := Sanitized(p, raw);
      if !Checked(p, v) then None
      else if p.shape.ArrayShape? && v.Arr? && step.Index? && step.i < |v.items| then
        Some(ItemSite(p, v.items[step.i]))
      else if p.shape.ObjectShape? && !p.shape.additional && p.shape.ref.Some? && v.Obj? then
        InObject(c, p.shape.ref.value, v.fields, step)
      else None
  }

  function InObject(c: Catalog, id: SchemaId, fields: map<string, Json>, step: Step): Option<Site> {
    if step.Prop? && id in c && step.offset in c[id] && Key(c[id][step.offset]) == Some(step.key) then
      var p := c[id][step.offset];
      Some(if step.key in fields then Value(p, fields[step.key]) else Missing(p))
    else None
  }

  function ItemSite(p: Property, item: Json): Site
    requires p.shape.ArrayShape?
  {
    if p.shape.itemRef.Some? then Element(p.shape.itemRef.value, item) else Value(p.shape.item, item)
  }

  function SiteAt(c: Catalog, site: Site, path: Path): Option<Site>
    decreases |path|
  {
    if path == [] then Some(site)
    else
      match Child(c, site, path[0])
      case None => None
      case Some(next) => SiteAt(c, next, path[1..])
  }

  /** No more than n steps lead down from a site. */
  ghost predicate Bounded(c: Catalog, site: Site, n: nat)
    decreases n
  {
    forall step :: Child(c, site, step).Some? ==> n > 0 && Bounded(c, Child(c, site, step).value, n - 1)
  }

  /** Where int64 conversion on amd64 ends up: truncated toward zero, or the least value if
      the result does not fit. */
  function Int64Of(f: real): int {
    var t := if f >= 0.0 then f.Floor else -((-f).Floor);
    if -0x8000_0000_0000_0000 <= t < 0x8000_0000_0000_0000 then t else -0x8000_0000_0000_0000
  }

  predicate IsInt64(f: real) {
    f == Int64Of(f) as real
  }

  /** When a primitive value deserves a message, message by message. */
  predicate StringFails(lib: Library, p: Property, s: string, m: Message) {
    match m
    case LengthBelow(n) => p.min == Some(n) && |s| < n
    case LengthAbove(n) => p.max == Some(n) && |s| > n
    case MustMatch(q) => p.pattern == q && q != "" && lib.compiles(q) && !lib.matches(q, s)
    case MustBeOneOf(allowed) => p.enumString == Some(allowed) && s !in allowed
    case _ => false
  }

  predicate NumberFails(p: Property, f: real, m: Message) {
    match m
    case Below(n) => p.min == Some(n) && f < n as real
    case Above(n) => p.max == Some(n) && f > n as real
    case MustBeOneOfInts(allowed) => p.enumInt == Some(allowed) && Int64Of(f) !in allowed
    case _ => false
  }

  predicate DurationFails(p: Property, d: int, m: Message) {
    match m
    case DurationBelow(n) => p.min == Some(n) && d < n
    case DurationAbove(n) => p.max == Some(n) && d > n
    case MustBeOneOfInts(allowed) => p.enumInt == Some(allowed) && d !in allowed
    case _ => false
  }

  /** A value of the wrong kind deserves one message only. */
  predicate PrimitiveFails(lib: Library, p: Property, v: Json, m: Message) {
    match p.shape
    case StringShape => if v.Str? then StringFails(lib, p, v.s, m) else m == ExpectedString
    case IntegerShape =>
      if !v.Number? then m == ExpectedNumber
      else if !IsInt64(v.f) then m == ExpectedInteger
      else NumberFails(p, v.f, m)
    case NumberShape => if v.Number? then NumberFails(p, v.f, m) else m == ExpectedNumber
    case BooleanShape => m == ExpectedBoolean && !v.Bool?
    case DurationShape =>
      if !v.Str? then m == ExpectedString
      else if lib.duration(v.s).None? then m == InvalidDuration
      else DurationFails(p, lib.duration(v.s).value, m)
    case _ => false
  }

  predicate QuantityFails(p: Property, n: nat, m: Message) {
    match m
    case FewerItemsThan(k) => p.min == Some(k) && n < k
    case MoreItemsThan(k) => p.max == Some(k) && n > k
    case _ => false
  }

  predicate ValueFails(lib: Library, p: Property, v: Json, m: Message) {
    if p.custom.Some? then p.custom.value(v).Rejected? && m == CustomError(p.custom.value(v).text)
    else if v.Null? then m == CannotBeNull && !p.nullable
    else
      match p.shape
      case ArrayShape(_, _) => if v.Arr? then QuantityFails(p, |v.items|, m) else m == ExpectedArray
      case ObjectShape(additional, ref) => !additional && ref.Some? && !v.Obj? && m == ExpectedObject
      case _ => PrimitiveFails(lib, p, v, m)
  }

  predicate Fails(lib: Library, site: Site, m: Message) {
    match site
    case Missing(p) => m == Required && p.required
    case Value(p, raw) => ValueFails(lib, p, Sanitized(p, raw), m)
    case Element(_, v) => m == ExpectedObject && !v.Obj?
    case Whole(_, _) => false
  }

  /** How often message m is due at path at, for a site that stands at path base. */
  function Due(lib: Library, c: Catalog, site: Site, base: Path, at: Path, m: Message): nat {
    if base <= at then
      match SiteAt(c, site, at[|base|..])
      case Some(s) => if Fails(lib, s, m) then 1 else 0
      case None => 0
    else 0
  }

  function Count(vs: seq<Violation>, at: Path, m: Message): nat {
    if vs == [] then 0
    else Count(vs[..|vs| - 1], at, m) + if vs[|vs| - 1].at == at && vs[|vs| - 1].message == m then 1 else 0
  }

  lemma {:induction false} CountAppends(a: seq<Violation>, b: seq<Violation>, at: Path, m: Message)
    ensures Count(a + b, at, m) == Count(a, at, m) + Count(b, at, m)
  {
    if b == [] {
      assert a + b == a;
    } else {
      var last := |b| - 1;
      CountAppends(a, b[..last], at, m);
      assert (a + b)[..|a + b| - 1] == a + b[..last];
    }
  }

  /** The violations are exactly the failure sites under a site, each message once. */
  ghost predicate Reports(vs: seq<Violation>, lib: Library, c: Catalog, site: Site, base: Path) {
    forall at, m :: Count(vs, at, m) == Due(lib, c, site, base, at, m)
  }

  // ---- how a path reads ----

  function Digits(n: nat): string {
    (if n < 10 then "" else Digits(n / 10)) + [['0', '1', '2', '3', '4', '5', '6', '7', '8', '9'][n % 10]]
  }

  function Bracket(i: nat): string {
    "[" + Digits(i) + "]"
  }

  function Suffix(path: Path): string {
    if path == [] then ""
    else (match path[0] case Prop(_, key) => "." + key case Index(i) => Bracket(i)) + Suffix(path[1..])
  }

  /** Violations at and below base read as field, continued by the rest of their path. */
  ghost predicate Rendered(vs: seq<Violation>, base: Path, field: string) {
    forall v :: v in vs ==> base <= v.at && v.field == field + Suffix(v.at[|base|..])
  }

  /** Violations below an object read as its prefix, continued without the leading dot. */
  ghost predicate RenderedIn(vs: seq<Violation>, base: Path, prefix: string) {
    forall v :: v in vs ==> base < v.at && v.at[|base|].Prop? && v.field == prefix + Suffix(v.at[|base|..])[1..]
  }

  lemma SuffixUnder(base: Path, step: Step, at: Path)
    requires base + [step] <= at
    ensures base < at && at[|base|] == step && at[|base|..][1..] == at[|base + [step]|..]
    ensures Suffix(at[|base|..]) == Suffix([step]) + Suffix(at[|base + [step]|..])
  {
    assert [step][1..] == [];
  }

  // ---- the validator ----

  method Contains<T(==)>(allowed: seq<T>, x: T) returns (found: bool)
    ensures found <==> x in allowed
  {
    for i := 0 to |allowed|
      invariant x !in allowed[..i]
    {
      if allowed[i] == x {
        return true;
      }
    }
    return false;
  }

  method TagKeyVisible(p: Property) returns (key: Option<string>)
    ensures key == Key(p)
  {
    if p.tag == "-" {
      return None;
    }
    var name := p.tag;
    for i := 0 to |p.tag|
      invariant name == p.tag && ',' !in p.tag[..i]
    {
      if p.tag[i] == ',' {
        name := p.tag[..i];
        break;
      }
    }
    BeforeCommaIs(p.tag, name);
    return Some(if name == "" then p.name else name);
  }

  /** A list of violations at one path says each of a set of messages, once. */
  ghost predicate Says(vs: seq<Violation>, at: Path, field: string, said: set<Message>) {
    && (forall v :: v in vs ==> v.at == at && v.field == field)
    && forall m :: Count(vs, at, m) == if m in said then 1 else 0
  }

  /** Appends one more violation. */
  method Note(vs: seq<Violation>, ghost said: set<Message>, at: Path, field: string, m: Message)
    returns (r: seq<Violation>)
    requires Says(vs, at, field, said) && m !in said
    ensures Says(r, at, field, said + {m})
  {
    r := vs + [Violation(at, field, m)];
    assert r[..|vs|] == vs;
  }

  /** The violations are all at one path, and say there, once, each message that the value deserves. */
  ghost predicate SaysFailures(vs: seq<Violation>, at: Path, field: string, lib: Library, p: Property, v: Json) {
    && (forall x :: x in vs ==> x.at == at && x.field == field)
    && forall m :: Count(vs, at, m) == if PrimitiveFails(lib, p, v, m) then 1 else 0
  }

  lemma SaidIsAll(vs: seq<Violation>, at: Path, field: string, said: set<Message>, lib: Library, p: Property, v: Json)
    requires Says(vs, at, field, said) && forall m :: m in said <==> PrimitiveFails(lib, p, v, m)
    ensures SaysFailures(vs, at, field, lib, p, v)
  {
  }

  /** The messages in the order in which the checks add them. */
  ghost function SaidOfLength(p: Property, s: string): set<Message> {
    var a := if p.min.Some? && |s| < p.min.value then {} + {LengthBelow(p.min.value)} else {};
    if p.max.Some? && |s| > p.max.value then a + {LengthAbove(p.max.value)} else a
  }

  ghost function SaidOfString(lib: Library, p: Property, s: string): set<Message> {
    var b := SaidOfLength(p, s);
    var c := if p.pattern != "" && lib.compiles(p.pattern)
        && !lib.matches(p.pattern, s) then b + {MustMatch(p.pattern)} else b;
    if p.enumString.Some? && s !in p.enumString.value then c + {MustBeOneOf(p.enumString.value)} else c
  }

  lemma StringSaid(lib: Library, p: Property, s: string)
    ensures forall m :: m in SaidOfString(lib, p, s) <==> StringFails(lib, p, s, m)
  {
  }

  ghost function SaidOfNumber(p: Property, f: real): set<Message> {
    var a := if p.min.Some? && f < p.min.value as real then {} + {Below(p.min.value)} else {};
    var b := if p.max.Some? && f > p.max.value as real then a + {Above(p.max.value)} else a;
    if p.enumInt.Some? && Int64Of(f) !in p.enumInt.value then b + {MustBeOneOfInts(p.enumInt.value)} else b
  }

  lemma NumberSaid(p: Property, f: real)
    ensures forall m :: m in SaidOfNumber(p, f) <==> NumberFails(p, f, m)
  {
  }

  ghost function SaidOfDuration(p: Property, d: int): set<Message> {
    var a := if p.min.Some? && d < p.min.value then {} + {DurationBelow(p.min.value)} else {};
    var b := if p.max.Some? && d > p.max.value then a + {DurationAbove(p.max.value)} else a;
    if p.enumInt.Some? && d !in p.enumInt.value then b + {MustBeOneOfInts(p.enumInt.value)} else b
  }

  lemma DurationSaid(p: Property, d: int)
    ensures forall m :: m in SaidOfDuration(p, d) <==> DurationFails(p, d, m)
  {
  }

  method ValidatePrimitive(lib: Library, p: Property, raw: Json, path: string, at: Path) returns (vs: seq<Violation>)
    requires !p.shape.ArrayShape? && !p.shape.ObjectShape?
    ensures SaysFailures(vs, at, path, lib, p, raw)
  {
    match p.shape
    case StringShape => vs := ValidateString(lib, p, raw, path, at);
    case IntegerShape => vs := ValidateNumber(lib, p, raw, path, at);
    case NumberShape => vs := ValidateNumber(lib, p, raw, path, at);
    case BooleanShape =>
      ghost var said := {};
      vs := [];
      if !raw.Bool? {
        vs := Note(vs, said, at, path, ExpectedBoolean);
        said := said + {ExpectedBoolean};
      }
    case DurationShape => vs := ValidateDuration(lib, p, raw, path, at);
    case Unshaped =>
      vs := [];
  }

  method ValidateString(lib: Library, p: Property, raw: Json, path: string, at: Path) returns (vs: seq<Violation>)
    requires p.shape.StringShape?
    ensures SaysFailures(vs, at, path, lib, p, raw)
  {
    ghost var said := {};
    vs := [];
    if !raw.Str? {
      vs := Note(vs, said, at, path, ExpectedString);
      said := said + {ExpectedString};
      SaidIsAll(vs, at, path, said, lib, p, raw);
      return;
    }
    vs := ValidateLength(p, raw.s, path, at);
    said := SaidOfLength(p, raw.s);
    if p.pattern != "" && lib.compiles(p.pattern) && !lib.matches(p.pattern, raw.s) {
      vs := Note(vs, said, at, path, MustMatch(p.pattern));
      said := said + {MustMatch(p.pattern)};
    }
    if p.enumString.Some? {
      var found := Contains(p.enumString.value, raw.s);
      if !found {
        vs := Note(vs, said, at, path, MustBeOneOf(p.enumString.value));
        said := said + {MustBeOneOf(p.enumString.value)};
      }
    }
    assert said == SaidOfString(lib, p, raw.s);
    StringSaid(lib, p, raw.s);
    SaidIsAll(vs, at, path, said, lib, p, raw);
  }

  method ValidateLength(p: Property, s: string, path: string, at: Path) returns (vs: seq<Violation>)
    ensures Says(vs, at, path, SaidOfLength(p, s))
  {
    ghost var said := {};
    vs := [];
    if p.min.Some? && |s| < p.min.value {
      vs := Note(vs, said, at, path, LengthBelow(p.min.value));
      said := said + {LengthBelow(p.min.value)};
    }
    if p.max.Some? && |s| > p.max.value {
      vs := Note(vs, said, at, path, LengthAbove(p.max.value));
      said := said + {LengthAbove(p.max.value)};
    }
  }

  method ValidateNumber(lib: Library, p: Property, raw: Json, path: string, at: Path) returns (vs: seq<Violation>)
    requires p.shape.IntegerShape? || p.shape.NumberShape?
    ensures SaysFailures(vs, at, path, lib, p, raw)
  {
    ghost var said := {};
    vs := [];
    if !raw.Number? {
      vs := Note(vs, said, at, path, ExpectedNumber);
      said := said + {ExpectedNumber};
      SaidIsAll(vs, at, path, said, lib, p, raw);
      return;
    }
    var f := raw.f;
    if p.shape.IntegerShape? && !IsInt64(f) {
      vs := Note(vs, said, at, path, ExpectedInteger);
      said := said + {ExpectedInteger};
      SaidIsAll(vs, at, path, said, lib, p, raw);
      return;
    }
    if p.min.Some? && f < p.min.value as real {
      vs := Note(vs, said, at, path, Below(p.min.value));
      said := said + {Below(p.min.value)};
    }
    if p.max.Some? && f > p.max.value as real {
      vs := Note(vs, said, at, path, Above(p.max.value));
      said := said + {Above(p.max.value)};
    }
    if p.enumInt.Some? {
      var found := Contains(p.enumInt.value, Int64Of(f));
      if !found {
        vs := Note(vs, said, at, path, MustBeOneOfInts(p.enumInt.value));
        said := said + {MustBeOneOfInts(p.enumInt.value)};
      }
    }
    assert said == SaidOfNumber(p, f);
    NumberSaid(p, f);
    SaidIsAll(vs, at, path, said, lib, p, raw);
  }

  method ValidateDuration(lib: Library, p: Property, raw: Json, path: string, at: Path) returns (vs: seq<Violation>)
    requires p.shape.DurationShape?
    ensures SaysFailures(vs, at, path, lib, p, raw)
  {
    ghost var said := {};
    vs := [];
    if !raw.Str? {
      vs := Note(vs, said, at, path, ExpectedString);
      said := said + {ExpectedString};
      SaidIsAll(vs, at, path, said, lib, p, raw);
      return;
    }
    if lib.duration(raw.s).None? {
      vs := Note(vs, said, at, path, InvalidDuration);
      said := said + {InvalidDuration};
      SaidIsAll(vs, at, path, said, lib, p, raw);
      return;
    }
    var d := lib.duration(raw.s).value;
    if p.min.Some? && d < p.min.value {
      vs := Note(vs, said, at, path, DurationBelow(p.min.value));
      said := said + {DurationBelow(p.min.value)};
    }
    if p.max.Some? && d > p.max.value {
      vs := Note(vs, said, at, path, DurationAbove(p.max.value));
      said := said + {DurationAbove(p.max.value)};
    }
    if p.enumInt.Some? {
      var found := Contains(p.enumInt.value, d);
      if !found {
        vs := Note(vs, said, at, path, MustBeOneOfInts(p.enumInt.value));
        said := said + {MustBeOneOfInts(p.enumInt.value)};
      }
    }
    assert said == SaidOfDuration(p, d);
    DurationSaid(p, d);
    SaidIsAll(vs, at, path, said, lib, p, raw);
  }

  // ---- sites and their children ----

  /** Due below base, in the part of the paths that a set of first steps selects. */
  ghost predicate ReportsProps(vs: seq<Violation>, lib: Library, c: Catalog, site: Site, base: Path, done: set<nat>) {
    forall at, m :: Count(vs, at, m) == if StepsInto(base, at, done) then Due(lib, c, site, base, at, m) else 0
  }

  predicate StepsInto(base: Path, at: Path, done: set<nat>) {
    base < at && at[|base|].Prop? && at[|base|].offset in done
  }

  ghost predicate ReportsItems(vs: seq<Violation>, lib: Library, c: Catalog, site: Site, base: Path, n: nat) {
    forall at, m :: Count(vs, at, m) == if IndexesInto(base, at, n) then Due(lib, c, site, base, at, m) else 0
  }

  /** At base itself, or below one of the first n items. */
  predicate IndexesInto(base: Path, at: Path, n: nat) {
    base <= at && (at == base || (at[|base|].Index? && at[|base|].i < n))
  }

  /** What is due below a site is what is due below its children. */
  lemma DueBelow(lib: Library, c: Catalog, site: Site, base: Path, step: Step, at: Path, m: Message)
    requires base < at && at[|base|] == step
    ensures Due(lib, c, site, base, at, m) ==
              match Child(c, site, step) case Some(next) => Due(lib, c, next, base + [step], at, m) case None => 0
  {
    assert base + [step] <= at && at[|base|..][1..] == at[|base + [step]|..];
  }

  lemma DueHere(lib: Library, c: Catalog, site: Site, base: Path, m: Message)
    ensures Due(lib, c, site, base, base, m) == if Fails(lib, site, m) then 1 else 0
  {
  }

  /** Whatever is due under base + [step] is at a path that takes this step. */
  lemma DueIsBelow(lib: Library, c: Catalog, next: Site, base: Path, step: Step, at: Path, m: Message)
    ensures !(base < at && at[|base|] == step) ==> Due(lib, c, next, base + [step], at, m) == 0
  {
    if base + [step] <= at {
      assert at[|base|] == (base + [step])[|base|];
    }
  }

  lemma PropReported(vs: seq<Violation>, lib: Library, c: Catalog, site: Site, base: Path, offset: nat, key: string)
    requires Child(c, site, Prop(offset, key)).Some?
    requires Reports(vs, lib, c, Child(c, site, Prop(offset, key)).value, base + [Prop(offset, key)])
    requires forall k :: k != key ==> Child(c, site, Prop(offset, k)).None?
    ensures ReportsProps(vs, lib, c, site, base, {offset})
  {
    var next := Child(c, site, Prop(offset, key)).value;
    forall at, m ensures Count(vs, at, m) == if StepsInto(base, at, {offset}) then Due(lib, c, site, base, at, m)
        else 0 {
      if StepsInto(base, at, {offset}) {
        DueBelow(lib, c, site, base, at[|base|], at, m);
      }
      DueIsBelow(lib, c, next, base, Prop(offset, key), at, m);
    }
  }

  lemma PropHidden(lib: Library, c: Catalog, site: Site, base: Path, offset: nat)
    requires forall k :: Child(c, site, Prop(offset, k)).None?
    ensures ReportsProps([], lib, c, site, base, {offset})
  {
    forall at, m ensures StepsInto(base, at, {offset}) ==> Due(lib, c, site, base, at, m) == 0 {
      if StepsInto(base, at, {offset}) {
        DueBelow(lib, c, site, base, at[|base|], at, m);
      }
    }
  }

  lemma PropsAppend(vs: seq<Violation>, more: seq<Violation>, lib: Library, c: Catalog, site: Site, base: Path,
                    done: set<nat>, offset: nat)
    requires ReportsProps(vs, lib, c, site, base, done) && ReportsProps(more, lib, c, site, base, {offset})
               && offset !in done
    ensures ReportsProps(vs + more, lib, c, site, base, done + {offset})
  {
    forall at, m ensures Count(vs + more, at, m) == if StepsInto(base, at, done + {offset})
        then Due(lib, c, site, base, at, m) else 0 {
      CountAppends(vs, more, at, m);
    }
  }

  lemma PropsComplete(vs: seq<Violation>, lib: Library, c: Catalog, id: SchemaId, fields: map<string, Json>, base: Path)
    requires id in c && ReportsProps(vs, lib, c, Whole(id, fields), base, c[id].Keys)
    ensures Reports(vs, lib, c, Whole(id, fields), base)
  {
    var site := Whole(id, fields);
    forall at, m ensures Count(vs, at, m) == Due(lib, c, site, base, at, m) {
      if base < at && !StepsInto(base, at, c[id].Keys) {
        DueBelow(lib, c, site, base, at[|base|], at, m);
      } else if at == base {
        DueHere(lib, c, site, base, m);
      }
    }
  }

  method ValidateStruct(lib: Library, c: Catalog, id: SchemaId, presence: map<string, Json>, prefix: string, base: Path,
                        ghost n: nat)
    returns (vs: seq<Violation>)
    requires AllSound(c) && id in c && Bounded(c, Whole(id, presence), n)
    ensures Reports(vs, lib, c, Whole(id, presence), base) && RenderedIn(vs, base, prefix)
    decreases n, 2
  {
    vs := [];
    var todo := c[id].Keys;
    while todo != {}
      invariant todo <= c[id].Keys
      invariant ReportsProps(vs, lib, c, Whole(id, presence), base, c[id].Keys - todo) && RenderedIn(vs, base, prefix)
    {
      var offset :| offset in todo;
      var more := ValidateProperty(lib, c, id, offset, presence, prefix, base, n);
      PropsAppend(vs, more, lib, c, Whole(id, presence), base, c[id].Keys - todo, offset);
      assert c[id].Keys - todo + {offset} == c[id].Keys - (todo - {offset});
      vs, todo := vs + more, todo - {offset};
    }
    PropsComplete(vs, lib, c, id, presence, base);
  }

  method ValidateProperty(lib: Library, c: Catalog, id: SchemaId, offset: nat, presence: map<string, Json>,
                          prefix: string, base: Path, ghost n: nat)
    returns (vs: seq<Violation>)
    requires AllSound(c) && id in c && offset in c[id] && Bounded(c, Whole(id, presence), n)
    ensures ReportsProps(vs, lib, c, Whole(id, presence), base, {offset}) && RenderedIn(vs, base, prefix)
    decreases n, 1
  {
    var p := c[id][offset];
    var visible := TagKeyVisible(p);
    if visible.None? {
      PropHidden(lib, c, Whole(id, presence), base, offset);
      return [];
    }
    var key := visible.value;
    var step := Prop(offset, key);
    assert Child(c, Whole(id, presence), step).Some?;
    if key in presence {
      vs := ValidateValue(lib, c, presence[key], p, prefix + key, base + [step], n - 1);
    } else {
      vs := ValidateMissing(p, prefix + key, base + [step], lib, c);
    }
    PropReported(vs, lib, c, Whole(id, presence), base, offset, key);
    RenderedBelow(vs, base, step, prefix);
  }

  lemma PropReads(step: Step)
    requires step.Prop?
    ensures Suffix([step]) == "." + step.key
  {
    assert [step][1..] == [];
  }

  lemma WithoutDot(key: string, rest: string)
    ensures ("." + key + rest)[1..] == key + rest
  {
  }

  lemma Reassociate(a: string, b: string, c: string)
    ensures a + b + c == a + (b + c)
  {
  }

  lemma RenderedBelow(vs: seq<Violation>, base: Path, step: Step, prefix: string)
    requires step.Prop? && Rendered(vs, base + [step], prefix + step.key)
    ensures RenderedIn(vs, base, prefix)
  {
    PropReads(step);
    forall v | v in vs ensures base < v.at && v.at[|base|].Prop? && v.field == prefix + Suffix(v.at[|base|..])[1..] {
      var rest := Suffix(v.at[|base + [step]|..]);
      SuffixUnder(base, step, v.at);
      WithoutDot(step.key, rest);
      Reassociate(prefix, step.key, rest);
    }
  }

  /** The violations are all at a site's own path, and say what the site fails itself. */
  ghost predicate SaysOwn(vs: seq<Violation>, at: Path, field: string, lib: Library, site: Site) {
    && (forall x :: x in vs ==> x.at == at && x.field == field)
    && forall m :: Count(vs, at, m) == if Fails(lib, site, m) then 1 else 0
  }

  /** A site that has no children reports what it fails itself. */
  lemma LeafReported(vs: seq<Violation>, lib: Library, c: Catalog, site: Site, base: Path, field: string)
    requires SaysOwn(vs, base, field, lib, site)
    requires forall step :: Child(c, site, step).None?
    ensures Reports(vs, lib, c, site, base) && Rendered(vs, base, field)
  {
    forall at, m ensures Count(vs, at, m) == Due(lib, c, site, base, at, m) {
      if at == base {
        DueHere(lib, c, site, base, m);
      } else {
        CountElsewhere(vs, base, field, at, m);
        if base < at {
          DueBelow(lib, c, site, base, at[|base|], at, m);
        }
      }
    }
    assert forall v :: v in vs ==> v.at[|base|..] == [];
  }

  lemma {:induction false} CountElsewhere(vs: seq<Violation>, base: Path, field: string, at: Path, m: Message)
    requires at != base && forall v :: v in vs ==> v.at == base
    ensures Count(vs, at, m) == 0
  {
    if vs != [] {
      CountElsewhere(vs[..|vs| - 1], base, field, at, m);
    }
  }

  method ValidateMissing(p: Property, path: string, at: Path, ghost lib: Library, ghost c: Catalog)
    returns (vs: seq<Violation>)
    ensures Reports(vs, lib, c, Missing(p), at) && Rendered(vs, at, path)
  {
    ghost var said := {};
    vs := [];
    if p.required {
      vs := Note(vs, said, at, path, Required);
      said := said + {Required};
    }
    LeafReported(vs, lib, c, Missing(p), at, path);
  }

  method ValidateValue(lib: Library, c: Catalog, raw0: Json, p: Property, path: string, at: Path, ghost n: nat)
    returns (vs: seq<Violation>)
    requires AllSound(c) && Sound(c, p) && Bounded(c, Value(p, raw0), n)
    ensures Reports(vs, lib, c, Value(p, raw0), at) && Rendered(vs, at, path)
    decreases n, 4
  {
    var raw := raw0;
    if p.sanitize.Some? {
      raw := p.sanitize.value(raw);
    }
    if p.custom.Some? {
      vs := ValidateCustom(lib, c, raw0, raw, p, path, at);
    } else if raw.Null? {
      vs := ValidateNull(lib, c, raw0, p, path, at);
    } else {
      match p.shape
      case ArrayShape(_, _) => vs := ValidateArray(lib, c, raw0, raw, p, path, at, n);
      case ObjectShape(_, _) => vs := ValidateObject(lib, c, raw0, raw, p, path, at, n);
      case _ =>
        vs := ValidatePrimitive(lib, p, raw, path, at);
        LeafReported(vs, lib, c, Value(p, raw0), at, path);
    }
  }

  method ValidateCustom(ghost lib: Library, ghost c: Catalog, ghost raw0: Json, raw: Json, p: Property, path: string,
                        at: Path)
    returns (vs: seq<Violation>)
    requires raw == Sanitized(p, raw0) && p.custom.Some?
    ensures Reports(vs, lib, c, Value(p, raw0), at) && Rendered(vs, at, path)
  {
    ghost var said := {};
    vs := [];
    var result := p.custom.value(raw);
    if result.Rejected? {
      vs := Note(vs, said, at, path, CustomError(result.text));
      said := said + {CustomError(result.text)};
    }
    LeafReported(vs, lib, c, Value(p, raw0), at, path);
  }

  method ValidateNull(ghost lib: Library, ghost c: Catalog, ghost raw0: Json, p: Property, path: string, at: Path)
    returns (vs: seq<Violation>)
    requires Sanitized(p, raw0) == Null && p.custom.None?
    ensures Reports(vs, lib, c, Value(p, raw0), at) && Rendered(vs, at, path)
  {
    ghost var said := {};
    vs := [];
    if !p.nullable {
      vs := Note(vs, said, at, path, CannotBeNull);
      said := said + {CannotBeNull};
    }
    LeafReported(vs, lib, c, Value(p, raw0), at, path);
  }

  /** An object that a schema describes fails nothing itself; all that is due is inside. */
  lemma ObjectReported(vs: seq<Violation>, lib: Library, c: Catalog, site: Site, id: SchemaId, fields: map<string,
                       Json>, base: Path, field: string)
    requires Reports(vs, lib, c, Whole(id, fields), base) && RenderedIn(vs, base, field + ".")
    requires forall m :: !Fails(lib, site, m)
    requires forall step :: Child(c, site, step) == InObject(c, id, fields, step)
    ensures Reports(vs, lib, c, site, base) && Rendered(vs, base, field)
  {
    forall at, m ensures Count(vs, at, m) == Due(lib, c, site, base, at, m) {
      if at == base {
        DueHere(lib, c, site, base, m);
        DueHere(lib, c, Whole(id, fields), base, m);
      } else if base < at {
        DueBelow(lib, c, site, base, at[|base|], at, m);
        DueBelow(lib, c, Whole(id, fields), base, at[|base|], at, m);
      }
    }
    forall v | v in vs ensures base <= v.at && v.field == field + Suffix(v.at[|base|..]) {
      var suffix := Suffix(v.at[|base|..]);
      assert suffix[0] == '.' && suffix == "." + suffix[1..];
    }
  }

  lemma SameChildren(c: Catalog, site: Site, other: Site, n: nat)
    requires Bounded(c, site, n) && forall step :: Child(c, other, step) == Child(c, site, step)
    ensures Bounded(c, other, n)
  {
  }

  method ValidateObject(lib: Library, c: Catalog, ghost raw0: Json, raw: Json, p: Property, path: string, at: Path,
                        ghost n: nat)
    returns (vs: seq<Violation>)
    requires AllSound(c) && Sound(c, p) && Bounded(c, Value(p, raw0), n)
    requires raw == Sanitized(p, raw0) && Checked(p, raw) && p.shape.ObjectShape?
    ensures Reports(vs, lib, c, Value(p, raw0), at) && Rendered(vs, at, path)
    decreases n, 3
  {
    if p.shape.additional || p.shape.ref.None? {
      vs := [];
      LeafReported(vs, lib, c, Value(p, raw0), at, path);
    } else if !raw.Obj? {
      vs := ExpectObject(lib, c, Value(p, raw0), path, at);
    } else {
      SameChildren(c, Value(p, raw0), Whole(p.shape.ref.value, raw.fields), n);
      vs := ValidateStruct(lib, c, p.shape.ref.value, raw.fields, path + ".", at, n);
      ObjectReported(vs, lib, c, Value(p, raw0), p.shape.ref.value, raw.fields, at, path);
    }
  }

  method ExpectObject(ghost lib: Library, ghost c: Catalog, ghost site: Site, path: string, at: Path)
    returns (vs: seq<Violation>)
    requires forall m :: Fails(lib, site, m) <==> m == ExpectedObject
    requires forall step :: Child(c, site, step).None?
    ensures Reports(vs, lib, c, site, at) && Rendered(vs, at, path)
  {
    ghost var said;
    vs := Note([], {}, at, path, ExpectedObject);
    said := {ExpectedObject};
    LeafReported(vs, lib, c, site, at, path);
  }

  lemma ItemReported(vs: seq<Violation>, more: seq<Violation>, lib: Library, c: Catalog, site: Site, base: Path, i: nat)
    requires ReportsItems(vs, lib, c, site, base, i) && Child(c, site, Index(i)).Some?
    requires Reports(more, lib, c, Child(c, site, Index(i)).value, base + [Index(i)])
    ensures ReportsItems(vs + more, lib, c, site, base, i + 1)
  {
    var next := Child(c, site, Index(i)).value;
    forall at, m ensures Count(vs + more, at, m) == if IndexesInto(base, at, i + 1) then Due(lib, c, site, base, at, m)
        else 0 {
      CountAppends(vs, more, at, m);
      DueIsBelow(lib, c, next, base, Index(i), at, m);
      if base < at && at[|base|] == Index(i) {
        DueBelow(lib, c, site, base, Index(i), at, m);
      }
    }
  }

  lemma ItemsComplete(vs: seq<Violation>, lib: Library, c: Catalog, site: Site, base: Path, n: nat)
    requires ReportsItems(vs, lib, c, site, base, n)
    requires forall step: Step :: !(step.Index? && step.i < n) ==> Child(c, site, step).None?
    ensures Reports(vs, lib, c, site, base)
  {
    forall at, m ensures Count(vs, at, m) == Due(lib, c, site, base, at, m) {
      if base < at && !IndexesInto(base, at, n) {
        DueBelow(lib, c, site, base, at[|base|], at, m);
      }
    }
  }

  lemma ItemsStart(vs: seq<Violation>, lib: Library, c: Catalog, site: Site, base: Path, field: string)
    requires SaysOwn(vs, base, field, lib, site)
    ensures ReportsItems(vs, lib, c, site, base, 0) && Rendered(vs, base, field)
  {
    forall at, m ensures Count(vs, at, m) == if IndexesInto(base, at, 0) then Due(lib, c, site, base, at, m) else 0 {
      if at == base {
        DueHere(lib, c, site, base, m);
      } else {
        CountElsewhere(vs, base, field, at, m);
      }
    }
    assert forall v :: v in vs ==> v.at[|base|..] == [];
  }

  lemma IndexReads(i: nat)
    ensures Suffix([Index(i)]) == Bracket(i)
  {
    assert [Index(i)][1..] == [];
    assert Bracket(i) + "" == Bracket(i);
  }

  lemma RenderedItem(vs: seq<Violation>, base: Path, i: nat, field: string)
    requires Rendered(vs, base + [Index(i)], field + Bracket(i))
    ensures Rendered(vs, base, field)
  {
    forall v | v in vs ensures base <= v.at && v.field == field + Suffix(v.at[|base|..]) {
      SuffixUnder(base, Index(i), v.at);
      IndexReads(i);
      Reassociate(field, Bracket(i), Suffix(v.at[|base + [Index(i)]|..]));
    }
  }

  method ValidateArray(lib: Library, c: Catalog, ghost raw0: Json, raw: Json, p: Property, path: string, at: Path,
                       ghost n: nat)
    returns (vs: seq<Violation>)
    requires AllSound(c) && Sound(c, p) && Bounded(c, Value(p, raw0), n)
    requires raw == Sanitized(p, raw0) && Checked(p, raw) && p.shape.ArrayShape?
    ensures Reports(vs, lib, c, Value(p, raw0), at) && Rendered(vs, at, path)
    decreases n, 3
  {
    ghost var said;
    if !raw.Arr? {
      vs := Note([], {}, at, path, ExpectedArray);
      said := {ExpectedArray};
      LeafReported(vs, lib, c, Value(p, raw0), at, path);
      return;
    }
    vs := ValidateQuantity(lib, c, raw0, raw, p, path, at);
    for i := 0 to |raw.items|
      invariant ReportsItems(vs, lib, c, Value(p, raw0), at, i) && Rendered(vs, at, path)
    {
      assert Child(c, Value(p, raw0), Index(i)) == Some(ItemSite(p, raw.items[i]));
      var more := ValidateItem(lib, c, raw.items[i], p, path + Bracket(i), at + [Index(i)], n - 1);
      ItemReported(vs, more, lib, c, Value(p, raw0), at, i);
      RenderedItem(more, at, i, path);
      vs := vs + more;
    }
    ItemsComplete(vs, lib, c, Value(p, raw0), at, |raw.items|);
  }

  method ValidateQuantity(ghost lib: Library, ghost c: Catalog, ghost raw0: Json, raw: Json, p: Property, path: string,
                          at: Path)
    returns (vs: seq<Violation>)
    requires raw == Sanitized(p, raw0) && Checked(p, raw) && p.shape.ArrayShape? && raw.Arr?
    ensures ReportsItems(vs, lib, c, Value(p, raw0), at, 0) && Rendered(vs, at, path)
  {
    ghost var said := {};
    vs := [];
    if p.min.Some? && |raw.items| < p.min.value {
      vs := Note(vs, said, at, path, FewerItemsThan(p.min.value));
      said := said + {FewerItemsThan(p.min.value)};
    }
    if p.max.Some? && |raw.items| > p.max.value {
      vs := Note(vs, said, at, path, MoreItemsThan(p.max.value));
      said := said + {MoreItemsThan(p.max.value)};
    }
    ItemsStart(vs, lib, c, Value(p, raw0), at, path);
  }

  method ValidateItem(lib: Library, c: Catalog, item: Json, p: Property, path: string, at: Path, ghost n: nat)
    returns (vs: seq<Violation>)
    requires AllSound(c) && p.shape.ArrayShape? && Sound(c, p) && Bounded(c, ItemSite(p, item), n)
    ensures Reports(vs, lib, c, ItemSite(p, item), at) && Rendered(vs, at, path)
    decreases n, 5
  {
    if p.shape.itemRef.None? {
      vs := ValidateValue(lib, c, item, p.shape.item, path, at, n);
    } else if !item.Obj? {
      vs := ExpectObject(lib, c, ItemSite(p, item), path, at);
    } else {
      SameChildren(c, ItemSite(p, item), Whole(p.shape.itemRef.value, item.fields), n);
      vs := ValidateStruct(lib, c, p.shape.itemRef.value, item.fields, path + ".", at, n);
      ObjectReported(vs, lib, c, ItemSite(p, item), p.shape.itemRef.value, item.fields, at, path);
    }
  }

  // ---- the whole body ----

  /** A body that is not an object counts as one without any key. */
  function FieldsOf(body: Json): map<string, Json> {
    if body.Obj? then body.fields else map[]
  }

  /** Nothing fails at any place of the value. */
  ghost predicate Conforms(lib: Library, c: Catalog, site: Site) {
    forall path, m :: SiteAt(c, site, path).Some? ==> !Fails(lib, SiteAt(c, site, path).value, m)
  }

  /** A value conforms just if nothing fails at its top and each of its parts conforms. */
  lemma ConformsUnfolds(lib: Library, c: Catalog, site: Site)
    ensures Conforms(lib, c, site) <==>
              && (forall m :: !Fails(lib, site, m))
              && (forall step :: Child(c, site, step).Some? ==> Conforms(lib, c, Child(c, site, step).value))
  {
    if Conforms(lib, c, site) {
      assert SiteAt(c, site, []) == Some(site);
      forall step, path, m | Child(c, site, step).Some? && SiteAt(c, Child(c, site, step).value, path).Some?
        ensures !Fails(lib, SiteAt(c, Child(c, site, step).value, path).value, m) {
        assert ([step] + path)[1..] == path;
        assert SiteAt(c, site, [step] + path) == SiteAt(c, Child(c, site, step).value, path);
      }
    } else {
      var path, m :| SiteAt(c, site, path).Some? && Fails(lib, SiteAt(c, site, path).value, m);
      if path != [] {
        assert SiteAt(c, Child(c, site, path[0]).value, path[1..]).Some?;
      }
    }
  }

  lemma {:induction false} CountedIsThere(vs: seq<Violation>, at: Path, m: Message)
    ensures Count(vs, at, m) > 0 <==> exists v :: v in vs && v.at == at && v.message == m
  {
    if vs != [] {
      CountedIsThere(vs[..|vs| - 1], at, m);
    }
  }

  /** No violations are reported just if the value conforms. */
  lemma EmptyMeansConforms(vs: seq<Violation>, lib: Library, c: Catalog, site: Site)
    requires Reports(vs, lib, c, site, [])
    ensures vs == [] <==> Conforms(lib, c, site)
  {
    if vs == [] {
      forall path, m | SiteAt(c, site, path).Some? ensures !Fails(lib, SiteAt(c, site, path).value, m) {
        assert path[0..] == path && Count(vs, path, m) == Due(lib, c, site, [], path, m);
      }
    } else {
      var v := vs[0];
      CountedIsThere(vs, v.at, v.message);
      assert v.at[0..] == v.at && Due(lib, c, site, [], v.at, v.message) > 0;
    }
  }

  /** The validation pass over a decoded body: every failure site is reported, with each of its
      messages once, and nothing else. */
  method ValidateBody(lib: Library, c: Catalog, id: SchemaId, body: Json, ghost n: nat) returns (vs: seq<Violation>)
    requires AllSound(c) && id in c && Bounded(c, Whole(id, FieldsOf(body)), n)
    ensures Reports(vs, lib, c, Whole(id, FieldsOf(body)), [])
    ensures RenderedIn(vs, [], "")
    ensures vs == [] <==> Conforms(lib, c, Whole(id, FieldsOf(body)))
  {
    var presence := if body.Obj? then body.fields else map[];
    vs := ValidateStruct(lib, c, id, presence, "", [], n);
    EmptyMeansConforms(vs, lib, c, Whole(id, presence));
  }

  // ---- enumerated numbers ----

  /** The numbers that Int lists, each a Go integer of 64 bits. */
  predicate ListsInt64(allowed: seq<int>) {
    forall n :: n in allowed ==> -0x8000_0000_0000_0000 <= n < 0x8000_0000_0000_0000
  }

  predicate Listed(f: real, allowed: seq<int>) {
    exists n :: n in allowed && f == n as real
  }

  lemma ListedIsInt64(f: real, allowed: seq<int>)
    requires ListsInt64(allowed)
    ensures Listed(f, allowed) <==> IsInt64(f) && Int64Of(f) in allowed
  {
    if Listed(f, allowed) {
      var n :| n in allowed && f == n as real;
      assert f.Floor == n && (-f).Floor == -n;
    }
  }

  /** An enumerated number is compared after truncation. The check refuses exactly the numbers that
      are not listed if and only if this one is integral or is not taken for a listed one. */
  lemma EnumIsExactIff(lib: Library, p: Property, f: real, allowed: seq<int>)
    requires p.shape.NumberShape? && p.enumInt == Some(allowed) && ListsInt64(allowed)
    ensures (PrimitiveFails(lib, p, Number(f), MustBeOneOfInts(allowed)) <==> !Listed(f, allowed))
       <==> IsInt64(f) || Int64Of(f) !in allowed
  {
    ListedIsInt64(f, allowed);
  }

  /** Where integers are asked for, a number is refused as no integer or as none of the listed ones
      if and only if it is not listed. */
  lemma IntegerEnumIsExact(lib: Library, p: Property, f: real, allowed: seq<int>)
    requires p.shape.IntegerShape? && p.enumInt == Some(allowed) && ListsInt64(allowed)
    ensures PrimitiveFails(lib, p, Number(f), ExpectedInteger)
              || PrimitiveFails(lib, p, Number(f), MustBeOneOfInts(allowed))
       <==> !Listed(f, allowed)
  {
    ListedIsInt64(f, allowed);
  }
}
