// internal/validate/validate.go: the second pass, which writes the fields of a flat struct, and
// its agreement with the first.
module Population {
  import opened Graphs
  import opened Validation

  datatype FieldType =
    | StringField
    | IntField(width: Width)
    | UintField(width: Width)
    | FloatField
    | BoolField
    | DurationField
    | PointerField(elem: FieldType)

  /** A place that reflection can set. */
  class Cell {
    var v: GoValue

    constructor (v: GoValue)
      ensures this.v == v
    {
      this.v := v;
    }
  }

  // ---- one field ----

  function AsGo(j: Json): GoValue {
    match j
    case Null => GoNil
    case Bool(b) => GoBool(b)
    case Number(f) => GoFloat(f)
    case Str(s) => GoString(s)
    case _ => GoContainer(j)
  }

  predicate HasType(t: FieldType, v: GoValue) {
    match t
    case StringField => v.GoString?
    case IntField(width) => v.GoInt? && v.width == width
    case UintField(width) => v.GoUint? && v.width == width
    case FloatField => v.GoFloat?
    case BoolField => v.GoBool?
    case DurationField => v.GoDuration?
    case PointerField(_) => false
  }

  function Zero(t: FieldType): GoValue {
    match t
    case StringField => GoString("")
    case IntField(width) => GoInt(width, 0)
    case UintField(width) => GoUint(width, 0)
    case FloatField => GoFloat(0.0)
    case BoolField => GoBool(false)
    case DurationField => GoDuration(0)
    case PointerField(_) => GoNil
  }

  function ToFloat64(v: GoValue): Option<real> {
    match v
    case GoFloat(f) => Some(f)
    case GoInt(_, n) => Some(n as real)
    case GoUint(_, u) => Some(u as real)
    case _ => None
  }

  /** How many values an integer of some width can take. */
  function Span(width: Width): (r: nat)
    ensures r > 0 && r % 2 == 0 && r <= 0x1_0000_0000_0000_0000
  {
    match width
    case W8 => 0x100
    case W16 => 0x1_0000
    case W32 => 0x1_0000_0000
    case W64 => 0x1_0000_0000_0000_0000
  }

  /** Storing an integer in a narrower one keeps its low bits. */
  function Wrap(n: int, width: Width): int {
    var m := n % Span(width);
    if m >= Span(width) / 2 then m - Span(width) else m
  }

  /** What a cell of type t that holds old holds once raw is written, if that is possible. */
  function Converted(lib: Library, t: FieldType, raw: GoValue, before: GoValue): Option<GoValue> {
    if raw.GoNil? then Some(if t.PointerField? then GoNil else before)
    else if t.PointerField? then
      match Converted(lib, t.elem, raw, Zero(t.elem))
      case None => None
      case Some(v) => Some(GoPointer(v))
    else if HasType(t, raw) then Some(raw)
    else
      match t
      case DurationField =>
        if raw.GoString? then (match lib.duration(raw.s) case None => None case Some(d) => Some(GoDuration(d)))
        else (match ToFloat64(raw) case None => None case Some(f) => Some(GoDuration(Int64Of(f))))
      case IntField(width) => (match ToFloat64(raw) case None => None case Some(f) => Some(GoInt(width,
          Wrap(Int64Of(f), width))))
      case UintField(width) => (match ToFloat64(raw) case None => None case Some(f) => Some(GoUint(width,
          lib.toUint64(f) % Span(width))))
      case FloatField => (match ToFloat64(raw) case None => None case Some(f) => Some(GoFloat(f)))
      case _ => None
  }

  method SetField(lib: Library, cell: Cell, t: FieldType, raw: GoValue) returns (ok: bool)
    modifies cell
    ensures ok <==> Converted(lib, t, raw, old(cell.v)).Some?
    ensures cell.v == if ok then Converted(lib, t, raw, old(cell.v)).value else old(cell.v)
    decreases t
  {
    if raw.GoNil? {
      if t.PointerField? {
        cell.v := GoNil;
      }
      return true;
    }
    if t.PointerField? {
      var ptr := new Cell(Zero(t.elem));
      ok := SetField(lib, ptr, t.elem, raw);
      if ok {
        cell.v := GoPointer(ptr.v);
      }
      return ok;
    }
    if HasType(t, raw) {
      cell.v := raw;
      return true;
    }
    if t.DurationField? && raw.GoString? {
      var d := lib.duration(raw.s);
      if d.None? {
        return false;
      }
      cell.v := GoDuration(d.value);
      return true;
    }
    if t.StringField? || t.BoolField? {
      return false;
    }
    var f := ToFloat64(raw);
    if f.None? {
      return false;
    }
    match t {
      case IntField(width) => cell.v := GoInt(width, Wrap(Int64Of(f.value), width));
      case UintField(width) => cell.v := GoUint(width, lib.toUint64(f.value) % Span(width));
      case FloatField => cell.v := GoFloat(f.value);
      case DurationField => cell.v := GoDuration(Int64Of(f.value));
    }
    return true;
  }

  // ---- all fields ----

  /** The value that a present key brings to its field. */
  function Assigned(lib: Library, p: Property, t: FieldType, raw: Json, before: GoValue): Option<GoValue> {
    var v := Sanitized(p, raw);
    if p.custom.None? then Converted(lib, t, AsGo(v), before)
    else
      match p.custom.value(v)
      case Accepted(value) => Converted(lib, t, value, before)
      case Rejected(_) => None
  }

  /** The keys of the object that a property looks for. */
  predicate IsPresent(p: Property, presence: map<string, Json>) {
    Key(p).Some? && Key(p).value in presence
  }

  function Final(lib: Library, p: Property, t: FieldType, presence: map<string, Json>, before: GoValue): Option<GoValue>
  {
    if IsPresent(p, presence) then Assigned(lib, p, t, presence[Key(p).value], before) else Some(before)
  }

  /** A struct under construction: its fields by offset. */
  class Target {
    const types: map<nat, FieldType>
    const fields: map<nat, Cell>

    constructor (types: map<nat, FieldType>, fields: map<nat, Cell>)
      ensures this.types == types && this.fields == fields
    {
      this.types, this.fields := types, fields;
    }

    /** Every field has a type and a cell of its own. */
    ghost predicate Valid() {
      types.Keys == fields.Keys && forall a, b :: a in fields && b in fields && fields[a] == fields[b] ==> a == b
    }

    method PopulateField(lib: Library, p: Property, offset: nat, presence: map<string, Json>) returns (ok: bool)
      requires Valid() && offset in fields
      modifies fields[offset]
      ensures ok <==> Final(lib, p, types[offset], presence, old(fields[offset].v)).Some?
      ensures ok ==> fields[offset].v == Final(lib, p, types[offset], presence, old(fields[offset].v)).value
    {
      var key := TagKeyVisible(p);
      if key.None? || key.value !in presence {
        return true;
      }
      var raw := presence[key.value];
      if p.sanitize.Some? {
        raw := p.sanitize.value(raw);
      }
      var value := AsGo(raw);
      if p.custom.Some? {
        var result := p.custom.value(raw);
        if result.Rejected? {
          return false;
        }
        value := result.value;
      }
      ok := SetField(lib, fields[offset], types[offset], value);
    }

    /** Succeeds just if every present field can be assigned, and then has assigned them all and
        left every other field as it was. */
    method Populate(lib: Library, s: Schema, presence: map<string, Json>) returns (ok: bool)
      requires Valid() && s.Keys <= fields.Keys
      modifies fields.Values
      ensures ok <==> forall o :: o in s ==> Final(lib, s[o], types[o], presence, old(fields[o].v)).Some?
      ensures ok ==> forall o :: o in fields ==>
                fields[o].v == if o in s then Final(lib, s[o], types[o], presence, old(fields[o].v)).value
                    else old(fields[o].v)
    {
      var todo := s.Keys;
      while todo != {}
        invariant todo <= s.Keys
        invariant forall o :: o in s && o !in todo ==>
                    && Final(lib, s[o], types[o], presence, old(fields[o].v)).Some?
                    && fields[o].v == Final(lib, s[o], types[o], presence, old(fields[o].v)).value
        invariant forall o :: o in fields && (o !in s || o in todo) ==> fields[o].v == old(fields[o].v)
      {
        var offset :| offset in todo;
        ok := PopulateField(lib, s[offset], offset, presence);
        if !ok {
          return false;
        }
        todo := todo - {offset};
      }
      return true;
    }
  }

  // ---- the two passes agree ----

  /** The kind of a property fits the field it describes. */
  predicate KindFits(shape: Shape, t: FieldType) {
    match t
    case PointerField(elem) => KindFits(shape, elem)
    case StringField => shape.StringShape?
    case IntField(_) => shape.IntegerShape? || shape.NumberShape?
    case UintField(_) => shape.IntegerShape? || shape.NumberShape?
    case FloatField => shape.IntegerShape? || shape.NumberShape?
    case BoolField => shape.BooleanShape?
    case DurationField => shape.DurationShape?
  }

  /** A property fits its field by kind, or its custom function returns what the field can take. */
  ghost predicate Fits(lib: Library, p: Property, t: FieldType) {
    if p.custom.None? then KindFits(p.shape, t)
    else forall j, v :: p.custom.value(j) == Accepted(v) ==> Converted(lib, t, v, Zero(t)).Some?
  }

  lemma {:induction false} OldValueIsImmaterial(lib: Library, t: FieldType, raw: GoValue, a: GoValue, b: GoValue)
    ensures Converted(lib, t, raw, a).Some? <==> Converted(lib, t, raw, b).Some?
    ensures !raw.GoNil? || t.PointerField? ==> Converted(lib, t, raw, a) == Converted(lib, t, raw, b)
  {
  }

  lemma {:induction false} ValidKindConverts(lib: Library, p: Property, t: FieldType, v: Json, o: GoValue)
    requires p.custom.None? && KindFits(p.shape, t)
    requires forall m :: !ValueFails(lib, p, v, m)
    ensures Converted(lib, t, AsGo(v), o).Some?
    decreases t
  {
    if !v.Null? {
      if t.PointerField? {
        ValidKindConverts(lib, p, t.elem, v, Zero(t.elem));
      } else {
        assert !ValueFails(lib, p, v, ExpectedString) && !ValueFails(lib, p, v, ExpectedNumber);
        assert !ValueFails(lib, p, v, ExpectedBoolean) && !ValueFails(lib, p, v, InvalidDuration);
      }
    }
  }

  /** A field that the first pass accepts is one that the second can write. */
  lemma ValidFieldIsAssigned(lib: Library, p: Property, t: FieldType, raw: Json, o: GoValue)
    requires Fits(lib, p, t) && forall m :: !Fails(lib, Value(p, raw), m)
    ensures Assigned(lib, p, t, raw, o).Some?
  {
    var v := Sanitized(p, raw);
    assert forall m :: !ValueFails(lib, p, v, m) by {
      forall m ensures !ValueFails(lib, p, v, m) {
        assert !Fails(lib, Value(p, raw), m);
      }
    }
    if p.custom.None? {
      ValidKindConverts(lib, p, t, v, o);
    } else {
      var result := p.custom.value(v);
      assert result.Rejected? ==> ValueFails(lib, p, v, CustomError(result.text));
      OldValueIsImmaterial(lib, t, result.value, Zero(t), o);
    }
  }

  lemma ConformingFieldsAreAssigned(lib: Library, c: Catalog, id: SchemaId, presence: map<string, Json>, offset: nat,
                                    t: FieldType, o: GoValue)
    requires id in c && offset in c[id] && Fits(lib, c[id][offset], t)
    requires Conforms(lib, c, Whole(id, presence))
    ensures Final(lib, c[id][offset], t, presence, o).Some?
  {
    var p := c[id][offset];
    if IsPresent(p, presence) {
      var step := Prop(offset, Key(p).value);
      ConformsUnfolds(lib, c, Whole(id, presence));
      assert Child(c, Whole(id, presence), step) == Some(Value(p, presence[Key(p).value]));
      ConformsUnfolds(lib, c, Value(p, presence[Key(p).value]));
      ValidFieldIsAssigned(lib, p, t, presence[Key(p).value], o);
    }
  }

  /** Nothing is looked into below the fields of a flat struct. */
  lemma FlatIsBounded(lib: Library, c: Catalog, id: SchemaId, fields: map<string, Json>, types: map<nat, FieldType>)
    requires id in c && c[id].Keys <= types.Keys && forall o :: o in c[id] ==> Fits(lib, c[id][o], types[o])
    ensures Bounded(c, Whole(id, fields), 1)
  {
    forall step | Child(c, Whole(id, fields), step).Some?
      ensures Bounded(c, Child(c, Whole(id, fields), step).value, 0) {
      var p := c[id][step.offset];
      if p.custom.None? {
        FlatKind(p.shape, types[step.offset]);
      }
    }
  }

  lemma {:induction false} FlatKind(shape: Shape, t: FieldType)
    requires KindFits(shape, t)
    ensures !shape.ArrayShape? && !shape.ObjectShape?
  {
    if t.PointerField? {
      FlatKind(shape, t.elem);
    }
  }

  /** Two-pass agreement for flat structs: a body without violations is written without error;
      every present field gets the value its key brings, and every other field is untouched. */
  method ParseFlat(lib: Library, c: Catalog, id: SchemaId, body: Json, dest: Target)
    returns (vs: seq<Violation>, ok: bool)
    requires AllSound(c) && id in c
    requires dest.Valid() && c[id].Keys <= dest.fields.Keys
    requires forall o :: o in c[id] ==> Fits(lib, c[id][o], dest.types[o])
    modifies dest.fields.Values
    ensures vs == [] <==> Conforms(lib, c, Whole(id, FieldsOf(body)))
    ensures ok <==> vs == []
    ensures ok ==> forall o :: o in dest.fields ==>
              if o in c[id] then Final(lib, c[id][o], dest.types[o], FieldsOf(body), old(dest.fields[o].v))
                  == Some(dest.fields[o].v)
              else dest.fields[o].v == old(dest.fields[o].v)
  {
    FlatIsBounded(lib, c, id, FieldsOf(body), dest.types);
    vs := ValidateBody(lib, c, id, body, 1);
    if vs != [] {
      return vs, false;
    }
    forall o | o in c[id] ensures Final(lib, c[id][o], dest.types[o], FieldsOf(body), dest.fields[o].v).Some? {
      ConformingFieldsAreAssigned(lib, c, id, FieldsOf(body), o, dest.types[o], dest.fields[o].v);
    }
    ok := dest.Populate(lib, c[id], FieldsOf(body));
  }

  // ---- what the fields hold afterwards ----

  /** A null that the first pass accepts leaves the same struct behind as a missing key if and only
      if it meets no pointer that was set before. */
  lemma NullIsLikeAbsentIff(lib: Library, c: Catalog, p: Property, t: FieldType, presence: map<string, Json>,
                            o: GoValue)
    requires IsPresent(p, presence) && presence[Key(p).value] == Null && p.custom.None? && p.sanitize.None?
    ensures Conforms(lib, c, Value(p, Null)) <==> p.nullable
    ensures Final(lib, p, t, presence, o) == Final(lib, p, t, presence - {Key(p).value}, o) <==>
              !t.PointerField? || o == GoNil
  {
    ConformsUnfolds(lib, c, Value(p, Null));
    assert Fails(lib, Value(p, Null), CannotBeNull) <==> !p.nullable;
  }

  function Depth(t: FieldType): nat {
    if t.PointerField? then 1 + Depth(t.elem) else 0
  }

  function BaseType(t: FieldType): FieldType {
    if t.PointerField? then BaseType(t.elem) else t
  }

  function Pointers(n: nat, v: GoValue): GoValue {
    if n == 0 then v else GoPointer(Pointers(n - 1, v))
  }

  /** A value that has the type of the field, behind its pointers, arrives unchanged. */
  lemma {:induction false} TypedValueArrives(lib: Library, t: FieldType, v: GoValue, o: GoValue)
    requires HasType(BaseType(t), v)
    ensures Converted(lib, t, v, o) == Some(Pointers(Depth(t), v))
    decreases t
  {
    if t.PointerField? {
      TypedValueArrives(lib, t.elem, v, Zero(t.elem));
    }
  }

  /** A custom function for a pointer field must return the value pointed to: a pointer is refused,
      by the second pass only. */
  lemma {:induction false} PointerIsRefused(lib: Library, t: FieldType, v: GoValue, o: GoValue)
    ensures Converted(lib, t, GoPointer(v), o).None?
    decreases t
  {
    if t.PointerField? {
      PointerIsRefused(lib, t.elem, v, Zero(t.elem));
    }
  }

  lemma ModNear(n: int, d: nat)
    requires -(d as int) <= n < d
    ensures n % d == if n >= 0 then n else n + d
  {
  }

  lemma WrapRange(n: int, width: Width)
    ensures -(Span(width) as int / 2) <= Wrap(n, width) < Span(width) / 2
    ensures Wrap(n, width) == n <==> -(Span(width) as int / 2) <= n < Span(width) / 2
  {
    if -(Span(width) as int / 2) <= n < Span(width) / 2 {
      ModNear(n, Span(width));
    }
  }

  lemma IntegralIsInt64(f: real)
    requires f == f.Floor as real && -0x8000_0000_0000_0000 <= f.Floor < 0x8000_0000_0000_0000
    ensures Int64Of(f) == f.Floor
  {
    assert (-f).Floor == -(f.Floor) by {
      assert -f == (-(f.Floor)) as real;
    }
  }

  predicate FitsWidth(f: real, width: Width) {
    f == f.Floor as real && -(Span(width) as int / 2) <= f.Floor < Span(width) / 2
  }

  /** A JSON number arrives in a signed field as it is exactly if it is integral and fits. */
  lemma NumberArrivesIff(lib: Library, width: Width, f: real, o: GoValue, n: int)
    requires Converted(lib, IntField(width), GoFloat(f), o) == Some(GoInt(width, n))
    ensures n as real == f <==> FitsWidth(f, width)
  {
    var half: int := Span(width) / 2;
    WrapRange(Int64Of(f), width);
    if n as real == f {
      assert f.Floor == n;
    } else if f == f.Floor as real && -half <= f.Floor < half {
      IntegralIsInt64(f);
    }
  }

  /** A custom check decides alone, on the sanitized value, null and values of any kind included; what
      it returns is what the second pass converts. */
  lemma CustomDecides(lib: Library, c: Catalog, p: Property, t: FieldType, raw: Json, o: GoValue)
    requires p.custom.Some?
    ensures var v := if p.sanitize.Some? then p.sanitize.value(raw) else raw;
            && (Conforms(lib, c, Value(p, raw)) <==> p.custom.value(v).Accepted?)
            && (p.custom.value(v).Accepted? ==>
                  Assigned(lib, p, t, raw, o) == Converted(lib, t, p.custom.value(v).value, o))
  {
    var v := Sanitized(p, raw);
    ConformsUnfolds(lib, c, Value(p, raw));
    if p.custom.value(v).Rejected? {
      assert Fails(lib, Value(p, raw), CustomError(p.custom.value(v).text));
    }
  }

  /** The conversion to an unsigned integer, where the language defines it. */
  ghost predicate ConvertsUnsigned(lib: Library) {
    forall f: real :: f == f.Floor as real && 0 <= f.Floor < 0x1_0000_0000_0000_0000 ==> lib.toUint64(f) == f.Floor
  }

  /** A JSON number arrives in an unsigned field as it is exactly if it is integral, not negative and
      below the span of the field. */
  lemma UnsignedArrivesIff(lib: Library, width: Width, f: real, o: GoValue, u: int)
    requires ConvertsUnsigned(lib) && Converted(lib, UintField(width), GoFloat(f), o) == Some(GoUint(width, u))
    ensures 0 <= u < Span(width)
    ensures u as real == f <==> f == f.Floor as real && 0 <= f.Floor < Span(width)
  {
    if u as real == f {
      assert f.Floor == u;
    }
    if f == f.Floor as real && 0 <= f.Floor < Span(width) {
      assert lib.toUint64(f) == f.Floor;
      assert f.Floor % Span(width) == f.Floor;
    }
  }

  /** A JSON number arrives in a duration field, in nanoseconds, exactly if int64 holds it. */
  lemma NanosecondsArriveIff(lib: Library, f: real, o: GoValue, d: int)
    requires Converted(lib, DurationField, GoFloat(f), o) == Some(GoDuration(d))
    ensures d as real == f <==> FitsWidth(f, W64)
  {
    if d as real == f {
      assert f.Floor == d;
    }
    if FitsWidth(f, W64) {
      IntegralIsInt64(f);
    }
  }

  /** A text that the first pass lets through for a duration is stored as the duration it names,
      which keeps the bounds and the enumeration of its property. */
  lemma DurationArrives(lib: Library, c: Catalog, p: Property, s: string, o: GoValue)
    requires p.shape.DurationShape? && p.custom.None? && p.sanitize.None? && Conforms(lib, c, Value(p, Str(s)))
    ensures lib.duration(s).Some?
    ensures var d := lib.duration(s).value;
            && Assigned(lib, p, DurationField, Str(s), o) == Some(GoDuration(d))
            && (p.min.Some? ==> p.min.value <= d) && (p.max.Some? ==> d <= p.max.value)
            && (p.enumInt.Some? ==> d in p.enumInt.value)
  {
    var site := Value(p, Str(s));
    ConformsUnfolds(lib, c, site);
    assert !Fails(lib, site, InvalidDuration);
    if p.min.Some? { assert !Fails(lib, site, DurationBelow(p.min.value)); }
    if p.max.Some? { assert !Fails(lib, site, DurationAbove(p.max.value)); }
    if p.enumInt.Some? { assert !Fails(lib, site, MustBeOneOfInts(p.enumInt.value)); }
  }

  /** Both passes take the number, and another one is stored. */
  ghost predicate ChangedUnnoticed(lib: Library, c: Catalog, p: Property, width: Width, f: real, o: GoValue) {
    && Conforms(lib, c, Value(p, Number(f)))
    && Assigned(lib, p, IntField(width), Number(f), o).Some?
    && !(exists n :: Assigned(lib, p, IntField(width), Number(f), o) == Some(GoInt(width, n)) && n as real == f)
  }

  predicate PlainNumber(p: Property) {
    (p.shape.IntegerShape? || p.shape.NumberShape?) && p.custom.None? && p.sanitize.None?
  }

  /** A number is changed without an error if and only if the first pass accepts it and it is not an
      integer of the field's width. */
  lemma ChangedUnnoticedIff(lib: Library, c: Catalog, p: Property, width: Width, f: real, o: GoValue)
    requires PlainNumber(p)
    ensures ChangedUnnoticed(lib, c, p, width, f, o) <==> Conforms(lib, c, Value(p, Number(f))) && !FitsWidth(f, width)
  {
    var n := Wrap(Int64Of(f), width);
    assert Converted(lib, IntField(width), GoFloat(f), o) == Some(GoInt(width, n));
    NumberArrivesIff(lib, width, f, o, n);
  }

  /** Without bounds and enumeration the first pass accepts every number for a number, and those
      that int64 holds for an integer. */
  lemma NumberConformsIff(lib: Library, c: Catalog, p: Property, f: real)
    requires PlainNumber(p) && p.min.None? && p.max.None? && p.enumInt.None?
    ensures Conforms(lib, c, Value(p, Number(f))) <==> p.shape.NumberShape? || IsInt64(f)
  {
    ConformsUnfolds(lib, c, Value(p, Number(f)));
    assert Fails(lib, Value(p, Number(f)), ExpectedInteger) <==> p.shape.IntegerShape? && !IsInt64(f);
  }

  /** So an integer property lets through exactly the integers beyond the width of its field, and a
      number property all that is no integer of this width, 1.5 among them. */
  lemma UnboundedNumberChangesIff(lib: Library, c: Catalog, p: Property, width: Width, f: real, o: GoValue)
    requires PlainNumber(p) && p.min.None? && p.max.None? && p.enumInt.None?
    ensures ChangedUnnoticed(lib, c, p, width, f, o) <==>
              if p.shape.IntegerShape? then IsInt64(f) && !(-(Span(width) as int / 2) <= f.Floor < Span(width) / 2)
              else !FitsWidth(f, width)
  {
    ChangedUnnoticedIff(lib, c, p, width, f, o);
    NumberConformsIff(lib, c, p, f);
    if IsInt64(f) {
      assert f.Floor == Int64Of(f);
    }
  }
}
