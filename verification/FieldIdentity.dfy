// internal/schema/schema.go: finding the struct field whose address was taken, by its cumulative
// offset and its type.
module FieldIdentity {
  import opened Graphs

  /** A Go type, and a struct field with its offset in the struct. */
  datatype GoType = Basic(name: string, size: nat) | Struct(name: string, size: nat, fields: seq<Field>)

  datatype Field = Field(name: string, offset: nat, typ: GoType, embedded: bool)

  /** An index path of reflect: a field of the type, a field of that field, and so on. */
  type Path = seq<nat>

  /** Fields lie in the struct one behind the other, without overlap. */
  predicate LaidOut(t: GoType) {
    t.Basic? ||
    (&& (forall i :: 0 <= i < |t.fields| ==>
        t.fields[i].offset + t.fields[i].typ.size <= t.size && LaidOut(t.fields[i].typ))
     && (forall i, j :: 0 <= i < j < |t.fields| ==> t.fields[i].offset + t.fields[i].typ.size <= t.fields[j].offset))
  }

  /** Paths lead through embedded structs only. */
  predicate IsPath(t: GoType, path: Path) {
    path != [] && t.Struct? && path[0] < |t.fields|
    && (|path| == 1 || (t.fields[path[0]].embedded && IsPath(t.fields[path[0]].typ, path[1..])))
  }

  function FieldAt(t: GoType, path: Path): Field
    requires IsPath(t, path)
  {
    var f := t.fields[path[0]];
    if |path| == 1 then f else FieldAt(f.typ, path[1..])
  }

  /** Where a field starts, counted from the start of the whole type. */
  function OffsetOf(t: GoType, path: Path): nat
    requires IsPath(t, path)
  {
    var f := t.fields[path[0]];
    f.offset + if |path| == 1 then 0 else OffsetOf(f.typ, path[1..])
  }

  method CumulativeOffset(t: GoType, path: Path) returns (total: nat)
    requires IsPath(t, path)
    ensures total == OffsetOf(t, path)
  {
    total := 0;
    var cur := t;
    for k := 0 to |path|
      invariant k < |path| ==> IsPath(cur, path[k..]) && OffsetOf(t, path) == total + OffsetOf(cur, path[k..])
      invariant k == |path| ==> OffsetOf(t, path) == total
    {
      var sf := cur.fields[path[k]];
      assert path[k..][1..] == path[k + 1..];
      total := total + sf.offset;
      cur := sf.typ;
    }
  }

  /** The first visible field with this offset and this type; reflect decides which fields are
      visible, and in which order they are listed. */
  method FindFieldByOffset(t: GoType, visible: seq<Path>, offset: nat, want: GoType) returns (found: Option<Path>)
    requires forall p :: p in visible ==> IsPath(t, p)
    ensures found.None? ==> forall p :: p in visible ==> !Matches(t, p, offset, want)
    ensures found.Some? ==> exists i ::
              && 0 <= i < |visible| && visible[i] == found.value && Matches(t, found.value, offset, want)
              && forall j :: 0 <= j < i ==> !Matches(t, visible[j], offset, want)
  {
    for i := 0 to |visible|
      invariant forall j :: 0 <= j < i ==> !Matches(t, visible[j], offset, want)
    {
      var here := CumulativeOffset(t, visible[i]);
      if FieldAt(t, visible[i]).typ == want && here == offset {
        return Some(visible[i]);
      }
    }
    return None;
  }

  predicate Matches(t: GoType, p: Path, offset: nat, want: GoType) {
    IsPath(t, p) && FieldAt(t, p).typ == want && OffsetOf(t, p) == offset
  }

  // ---- offset and type identify a field ----

  function Nodes(t: GoType): nat {
    if t.Basic? then 1 else 1 + NodesOf(t.fields)
  }

  function NodesOf(fields: seq<Field>): nat {
    if fields == [] then 0 else Nodes(fields[0].typ) + NodesOf(fields[1..])
  }

  lemma {:induction false} FieldHasFewerNodes(fields: seq<Field>, i: nat)
    requires i < |fields|
    ensures Nodes(fields[i].typ) <= NodesOf(fields)
  {
    if i > 0 {
      FieldHasFewerNodes(fields[1..], i - 1);
    }
  }

  /** A type is never one of its own parts. */
  lemma {:induction false} PartIsSmaller(t: GoType, path: Path)
    requires IsPath(t, path)
    ensures Nodes(FieldAt(t, path).typ) < Nodes(t)
    decreases |path|
  {
    FieldHasFewerNodes(t.fields, path[0]);
    if |path| > 1 {
      PartIsSmaller(t.fields[path[0]].typ, path[1..]);
    }
  }

  lemma {:induction false} PartLiesInside(t: GoType, path: Path)
    requires LaidOut(t) && IsPath(t, path)
    ensures OffsetOf(t, path) + FieldAt(t, path).typ.size <= t.size
    ensures t.fields[path[0]].offset <= OffsetOf(t, path)
    ensures OffsetOf(t, path) + FieldAt(t, path).typ.size <= t.fields[path[0]].offset + t.fields[path[0]].typ.size
    decreases |path|
  {
    if |path| > 1 {
      PartLiesInside(t.fields[path[0]].typ, path[1..]);
    }
  }

  /** Field identity: in any layout, with embedding of any depth, no two different fields of a
      type that takes up space share both offset and type. */
  lemma {:induction false} OffsetAndTypeIdentify(t: GoType, p: Path, q: Path)
    requires LaidOut(t) && IsPath(t, p) && IsPath(t, q)
    requires OffsetOf(t, p) == OffsetOf(t, q) && FieldAt(t, p).typ == FieldAt(t, q).typ && FieldAt(t, p).typ.size > 0
    ensures p == q
    decreases |p|
  {
    PartLiesInside(t, p);
    PartLiesInside(t, q);
    assert p[0] == q[0];
    var part := t.fields[p[0]].typ;
    if |p| == 1 {
      if |q| > 1 {
        PartIsSmaller(part, q[1..]);
      }
      assert p == [p[0]] && q == [q[0]];
    } else if |q| == 1 {
      PartIsSmaller(part, p[1..]);
    } else {
      OffsetAndTypeIdentify(part, p[1..], q[1..]);
      assert p == [p[0]] + p[1..] && q == [q[0]] + q[1..];
    }
  }

  /** So the field found is the one whose address was taken. */
  method FindTakenField(t: GoType, visible: seq<Path>, taken: Path) returns (found: Option<Path>)
    requires LaidOut(t) && taken in visible && forall p :: p in visible ==> IsPath(t, p)
    requires FieldAt(t, taken).typ.size > 0
    ensures found == Some(taken)
  {
    found := FindFieldByOffset(t, visible, OffsetOf(t, taken), FieldAt(t, taken).typ);
    assert Matches(t, taken, OffsetOf(t, taken), FieldAt(t, taken).typ);
    OffsetAndTypeIdentify(t, found.value, taken);
  }

  /** Two adjacent fields of a type without a size: offset and type say nothing about which. */
  lemma EmptyFieldsAreConfused(empty: GoType, name: string)
    requires LaidOut(empty) && empty.size == 0
    ensures var t := Struct(name, 0, [Field("A", 0, empty, false), Field("B", 0, empty, false)]);
            && LaidOut(t) && IsPath(t, [0]) && IsPath(t, [1])
            && Matches(t, [0], OffsetOf(t, [1]), FieldAt(t, [1]).typ)
  {
  }

  /** In some layout two fields of this type stand at one offset. */
  ghost predicate Confusable(want: GoType) {
    exists t, p, q, offset :: LaidOut(t) && p != q && Matches(t, p, offset, want) && Matches(t, q, offset, want)
  }

  /** Offset and type identify the fields of a type in every layout if and only if the type takes
      up space. */
  lemma ConfusableIffEmpty(want: GoType)
    requires LaidOut(want)
    ensures Confusable(want) <==> want.size == 0
  {
    if want.size == 0 {
      EmptyFieldsAreConfused(want, "T");
      var t := Struct("T", 0, [Field("A", 0, want, false), Field("B", 0, want, false)]);
      assert Matches(t, [0], 0, want) && Matches(t, [1], 0, want);
    }
    if Confusable(want) {
      var t, p, q, offset :| LaidOut(t) && p != q && Matches(t, p, offset, want) && Matches(t, q, offset, want);
      if want.size > 0 {
        OffsetAndTypeIdentify(t, p, q);
      }
    }
  }

  // ---- registration ----

  /** The properties by offset after the address of a field was passed to Property. */
  function Registration(t: GoType, properties: map<nat, Path>, taken: Path): map<nat, Path>
    requires IsPath(t, taken)
  {
    if OffsetOf(t, taken) in properties then properties else properties[OffsetOf(t, taken) := taken]
  }

  datatype Registered = Ok(path: Path) | AlreadyRegistered | NotAField

  /** Properties by offset, as Schema keeps them. */
  class Schema {
    const structType: GoType
    const visible: seq<Path>
    var properties: map<nat, Path>

    ghost predicate Valid()
      reads this
    {
      && LaidOut(structType) && (forall p :: p in visible ==> IsPath(structType, p))
      && forall offset :: offset in properties ==>
           properties[offset] in visible && IsPath(structType, properties[offset])
               && OffsetOf(structType, properties[offset]) == offset
    }

    constructor (t: GoType, visible: seq<Path>)
      requires LaidOut(t) && forall p :: p in visible ==> IsPath(t, p)
      ensures Valid() && structType == t && this.visible == visible && properties == map[]
    {
      structType, this.visible, properties := t, visible, map[];
    }

    method Property(offset: nat, want: GoType) returns (r: Registered)
      requires Valid()
      modifies this
      ensures Valid()
      ensures r.AlreadyRegistered? <==> offset in old(properties)
      ensures r.NotAField? ==> forall p :: p in visible ==> !Matches(structType, p, offset, want)
      ensures r.Ok? ==> r.path in visible && Matches(structType, r.path, offset, want)
      ensures properties == if r.Ok? then old(properties)[offset := r.path] else old(properties)
    {
      if offset in properties {
        return AlreadyRegistered;
      }
      var found := FindFieldByOffset(structType, visible, offset, want);
      if found.None? {
        return NotAField;
      }
      properties := properties[offset := found.value];
      return Ok(found.value);
    }

    /** The address of a visible field registers that field, and no other, if and only if no
        field was registered at its offset before. */
    method PropertyOf(taken: Path) returns (r: Registered)
      requires Valid() && taken in visible && FieldAt(structType, taken).typ.size > 0
      modifies this
      ensures Valid()
      ensures r == if OffsetOf(structType, taken) in old(properties) then AlreadyRegistered else Ok(taken)
      ensures properties == Registration(structType, old(properties), taken)
    {
      r := Property(OffsetOf(structType, taken), FieldAt(structType, taken).typ);
      assert Matches(structType, taken, OffsetOf(structType, taken), FieldAt(structType, taken).typ);
      if r.Ok? {
        OffsetAndTypeIdentify(structType, r.path, taken);
      }
    }
  }

  // ---- which fields exclude each other ----

  /** A path continued inside an embedded struct. */
  lemma {:induction false} PathContinues(t: GoType, p: Path, rest: Path)
    requires p != [] && rest != [] && IsPath(t, p + rest)
    ensures IsPath(t, p) && IsPath(FieldAt(t, p).typ, rest) && FieldAt(t, p + rest) == FieldAt(FieldAt(t, p).typ, rest)
    ensures OffsetOf(t, p + rest) == OffsetOf(t, p) + OffsetOf(FieldAt(t, p).typ, rest)
    decreases |p|
  {
    assert (p + rest)[1..] == p[1..] + rest;
    if |p| == 1 {
      assert p[1..] + rest == rest;
    } else {
      PathContinues(t.fields[p[0]].typ, p[1..], rest);
    }
  }

  /** Field q lies at the very start of the embedded struct p. */
  predicate Begins(t: GoType, p: Path, q: Path) {
    && IsPath(t, p) && p < q && IsPath(FieldAt(t, p).typ, q[|p|..])
    && OffsetOf(FieldAt(t, p).typ, q[|p|..]) == 0
  }

  lemma BeginsSharesOffset(t: GoType, p: Path, q: Path)
    requires Begins(t, p, q) && IsPath(t, q)
    ensures OffsetOf(t, p) == OffsetOf(t, q)
  {
    assert p + q[|p|..] == q;
    PathContinues(t, p, q[|p|..]);
  }

  lemma {:induction false} SharedOffsetIsPrefix(t: GoType, p: Path, q: Path)
    requires LaidOut(t) && IsPath(t, p) && IsPath(t, q) && OffsetOf(t, p) == OffsetOf(t, q) && p != q
    requires FieldAt(t, p).typ.size > 0 && FieldAt(t, q).typ.size > 0
    ensures p < q || q < p
    decreases |p|
  {
    PartLiesInside(t, p);
    PartLiesInside(t, q);
    assert p[0] == q[0];
    assert p == [p[0]] + p[1..] && q == [q[0]] + q[1..];
    if |p| > 1 && |q| > 1 {
      SharedOffsetIsPrefix(t.fields[p[0]].typ, p[1..], q[1..]);
    }
  }

  lemma PrefixBegins(t: GoType, p: Path, q: Path)
    requires IsPath(t, p) && IsPath(t, q) && p < q && OffsetOf(t, p) == OffsetOf(t, q)
    ensures Begins(t, p, q)
  {
    assert p + q[|p|..] == q;
    PathContinues(t, p, q[|p|..]);
  }

  /** Once one of two different fields of types with a size is registered, the address of the other
      is refused if and only if one of them is an embedded struct and the other lies at its very
      start. */
  lemma ExcludesIff(t: GoType, properties: map<nat, Path>, p: Path, q: Path)
    requires LaidOut(t) && IsPath(t, p) && IsPath(t, q) && p != q
    requires FieldAt(t, p).typ.size > 0 && FieldAt(t, q).typ.size > 0
    requires OffsetOf(t, p) !in properties && OffsetOf(t, q) !in properties
    ensures OffsetOf(t, q) in Registration(t, properties, p) <==> Begins(t, p, q) || Begins(t, q, p)
  {
    if Begins(t, p, q) {
      BeginsSharesOffset(t, p, q);
    }
    if Begins(t, q, p) {
      BeginsSharesOffset(t, q, p);
    }
    if OffsetOf(t, p) == OffsetOf(t, q) {
      SharedOffsetIsPrefix(t, p, q);
      if p < q {
        PrefixBegins(t, p, q);
      } else {
        PrefixBegins(t, q, p);
      }
    }
  }
}
