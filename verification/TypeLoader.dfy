/** `JsonLoader`'s resolution of type references, with its cache and the registry of constructed types, against the
    plain denotation of the definitions. Format strings are as preprocessing leaves them. */
module TypeLoader {
  import opened Bytes
  import opened Strings
  import opened Sorting

  /** A reference to a type; `size` is that of a string type. */
  datatype TypeRef = TypeRef(name: Option<string>, size: Option<int>, format: string)

  datatype Member = Member(name: string, ref: TypeRef, size: Option<int>, format: string, annotation: string,
                           index: int)

  datatype Kind =
    | Alias(underlying: TypeRef)
    | Array(element: TypeRef, size: int, default: string)
    | Enum(constants: seq<(string, int)>, representation: string, enumDefault: Option<string>)
    | Struct(members: seq<Member>, structDefault: string)
    | Unknown

  datatype Definition = Definition(qualifiedName: string, kind: Kind)

  datatype Type =
    | Primitive(name: string)
    | StringType(length: int)
    | ArrayType(arrayName: string, element: Type, size: int, format: string, default: Option<string>)
    | EnumType(enumName: string, values: map<string, int>, representation: string, enumDefault: Option<string>)
    | StructType(structName: string, fields: seq<Field>, structDefault: string)

  datatype Field = Field(name: string, ty: Type, format: string, description: string)

  datatype LoadError =
    | NoName | NoSize | NoDefinition | UnknownKind | DuplicateIndex
    | BadRepresentation | NotInteger | BadDefault | OutOfRange
    | Redefined  // the registry knows another type of this name

  datatype Loaded<+T> = Found(value: T) | Failed(error: LoadError)

  const PRIMITIVES := {"I8", "I16", "I32", "I64", "U8", "U16", "U32", "U64", "F32", "F64", "bool"}

  // ---------------------------------------------------------------- the definitions

  /** The first definition of a name. */
  function Find(defs: seq<Definition>, name: string): (d: Option<Definition>)
    ensures d.Some? ==> d.value in defs && d.value.qualifiedName == name
    ensures d.None? ==> forall e | e in defs :: e.qualifiedName != name
  {
    if defs == [] then None
    else if defs[0].qualifiedName == name then Some(defs[0])
    else Find(defs[1..], name)
  }

  predicate UniqueNames(defs: seq<Definition>) {
    forall i, j | 0 <= i < j < |defs| :: defs[i].qualifiedName != defs[j].qualifiedName
  }

  lemma {:induction false} FindUnique(defs: seq<Definition>, d: Definition)
    requires UniqueNames(defs) && d in defs
    ensures Find(defs, d.qualifiedName) == Some(d)
  {
    if defs[0] != d {
      assert d in defs[1..];
      var j :| 1 <= j < |defs| && defs[j] == d;
      FindUnique(defs[1..], d);
    }
  }

  /** A name that stands for a definition. */
  predicate Custom(name: string) {
    name !in PRIMITIVES && name != "string"
  }

  function References(k: Kind): seq<TypeRef> {
    match k
    case Alias(r) => [r]
    case Array(r, _, _) => [r]
    case Struct(members, _) => seq(|members|, i requires 0 <= i < |members| => members[i].ref)
    case _ => []
  }

  /** Depth of a reference in an acyclic dictionary. */
  function Depth(rank: string -> nat, r: TypeRef): nat {
    if r.name.Some? && Custom(r.name.value) then rank(r.name.value) + 1 else 0
  }

  /** The definitions are acyclic, as the ranks show: a definition refers to lower ones only. */
  predicate Ranked(defs: seq<Definition>, rank: string -> nat) {
    forall i, j | 0 <= i < |defs| && 0 <= j < |References(defs[i].kind)| ::
      Depth(rank, References(defs[i].kind)[j]) <= rank(defs[i].qualifiedName)
  }

  // ---------------------------------------------------------------- the plain denotation

  /** What a reference denotes, computed anew each time. */
  function Denote(defs: seq<Definition>, rank: string -> nat, r: TypeRef): Loaded<Type>
    requires Ranked(defs, rank)
    decreases Depth(rank, r), 2, 0
  {
    if r.name.None? then Failed(NoName)
    else if r.name.value in PRIMITIVES then Found(Primitive(r.name.value))
    else if r.name.value == "string" then (if r.size.None? then Failed(NoSize) else Found(StringType(r.size.value)))
    else
      var d := Find(defs, r.name.value);
      if d.None? then Failed(NoDefinition) else DenoteDefinition(defs, rank, d.value)
  }

  function DenoteDefinition(defs: seq<Definition>, rank: string -> nat, d: Definition): Loaded<Type>
    requires Ranked(defs, rank) && d in defs
    decreases rank(d.qualifiedName) + 1, 1, 0
  {
    RankedReferences(defs, rank, d);
    match d.kind
    case Alias(r) =>
      assert References(d.kind)[0] == r;
      Denote(defs, rank, r)
    case Array(r, size, default) =>
      assert References(d.kind)[0] == r;
      var e := Denote(defs, rank, r);
      if e.Failed? then e else Found(ArrayType(d.qualifiedName, e.value, size, r.format, Some(default)))
    case Enum(constants, representation, default) => EnumOf(d.qualifiedName, constants, representation, default)
    case Struct(members, default) =>
      var fields := DenoteMembers(defs, rank, d, members);
      if fields.Failed? then Failed(fields.error)
      else Found(StructType(d.qualifiedName, Layout(members, fields.value), default))
    case Unknown => Failed(UnknownKind)
  }

  /** The fields of members, by index; the first failure stops. */
  function DenoteMembers(defs: seq<Definition>, rank: string -> nat, d: Definition,
                         members: seq<Member>): (r: Loaded<map<int, Field>>)
    requires Ranked(defs, rank) && d in defs && d.kind.Struct? && members <= d.kind.members
    ensures r.Found? ==> forall i | 0 <= i < |members| :: members[i].index in r.value
    ensures r.Found? ==> forall k | k in r.value :: exists i :: 0 <= i < |members| && members[i].index == k
    decreases rank(d.qualifiedName) + 1, 0, |members|
  {
    if members == [] then Found(map[])
    else
      var last := members[|members| - 1];
      var before := DenoteMembers(defs, rank, d, members[..|members| - 1]);
      if before.Failed? then before
      else
        RankedReferences(defs, rank, d);
        assert References(d.kind)[|members| - 1] == last.ref;
        var t := Denote(defs, rank, last.ref);
        if t.Failed? then Failed(t.error)
        else if last.index in before.value then Failed(DuplicateIndex)
        else Found(before.value[last.index := FieldOf(last, t.value)])
  }

  lemma RankedReferences(defs: seq<Definition>, rank: string -> nat, d: Definition)
    requires Ranked(defs, rank) && d in defs
    ensures forall j | 0 <= j < |References(d.kind)| :: Depth(rank, References(d.kind)[j]) <= rank(d.qualifiedName)
  {
    var i :| 0 <= i < |defs| && defs[i] == d;
  }

  /** `enum_dict` and the enum type built from it */
  function Values(constants: seq<(string, int)>): map<string, int> {
    if constants == [] then map[]
    else Values(constants[..|constants| - 1])[constants[|constants| - 1].0 := constants[|constants| - 1].1]
  }

  /** The values of an integer representation: least and greatest. */
  const RANGES: map<string, (int, int)> := map[
    "I8" := (-0x80, 0x7F), "I16" := (-0x8000, 0x7FFF), "I32" := (-0x8000_0000, 0x7FFF_FFFF),
    "I64" := (-0x8000_0000_0000_0000, 0x7FFF_FFFF_FFFF_FFFF),
    "U8" := (0, 0xFF), "U16" := (0, 0xFFFF), "U32" := (0, 0xFFFF_FFFF), "U64" := (0, 0xFFFF_FFFF_FFFF_FFFF)]

  predicate InRange(values: map<string, int>, range: (int, int)) {
    forall n | n in values :: range.0 <= values[n] <= range.1
  }

  function DefaultOf(default: Option<string>): Option<string> {
    if default.Some? && default.value != "" then Some(LastSegment(default.value)) else None
  }

  function EnumOf(name: string, constants: seq<(string, int)>, representation: string,
                  default: Option<string>): Loaded<Type> {
    var values, chosen := Values(constants), DefaultOf(default);
    if representation !in PRIMITIVES then Failed(BadRepresentation)
    else if representation !in RANGES then Failed(NotInteger)
    else if chosen.Some? && chosen.value !in values then Failed(BadDefault)
    else if !InRange(values, RANGES[representation]) then Failed(OutOfRange)
    else Found(EnumType(name, values, representation, chosen))
  }

  // ---------------------------------------------------------------- names of constructed types

  /** The name a type's class carries, and constructed types are registered under. */
  function ClassName(t: Type): string {
    match t
    case Primitive(name) => if name == "bool" then "BoolType" else name + "Type"
    case StringType(length) => "String_" + Decimal(length)
    case ArrayType(name, _, _, _, _) => name
    case EnumType(name, _, _, _) => name
    case StructType(name, _, _) => name
  }

  /** The type of an inline array of t. */
  function InlineArray(t: Type, size: int, format: string): Type {
    ArrayType("Array_" + ClassName(t) + "_" + Decimal(size), t, size, format, None)
  }

  /** A member's type; one with a size is an inline array of what its reference denotes. */
  function MemberOf(m: Member, t: Type): Type {
    if m.size.Some? then InlineArray(t, m.size.value, m.ref.format) else t
  }

  function FieldWith(m: Member, ty: Type): Field {
    Field(m.name, ty, m.format, m.annotation)
  }

  function FieldOf(m: Member, t: Type): Field {
    FieldWith(m, MemberOf(m, t))
  }

  function MemberDenotes(defs: seq<Definition>, rank: string -> nat, m: Member): Loaded<Type>
    requires Ranked(defs, rank)
  {
    match Denote(defs, rank, m.ref)
    case Failed(error) => Failed(error)
    case Found(t) => Found(MemberOf(m, t))
  }

  function Indices(members: seq<Member>): seq<int> {
    seq(|members|, i requires 0 <= i < |members| => members[i].index)
  }

  /** The fields in the order of their indices. */
  function Layout(members: seq<Member>, fields: map<int, Field>): seq<Field>
    requires forall i | 0 <= i < |members| :: members[i].index in fields
  {
    SortedSetSorts(Indices(members));
    var order := SortedSet(Indices(members));
    assert forall i | 0 <= i < |order| :: order[i] in Indices(members);
    seq(|order|, i requires 0 <= i < |order| => fields[order[i]])
  }

  // ---------------------------------------------------------------- the registry

  /** Every constructed type that occurs in a type, itself included. */
  function Parts(t: Type): set<Type> {
    match t
    case Primitive(_) => {}
    case StringType(_) => {t}
    case ArrayType(_, e, _, _, _) => Parts(e) + {t}
    case EnumType(_, _, _, _) => {t}
    case StructType(_, fields, _) => FieldParts(fields) + {t}
  }

  function FieldParts(fields: seq<Field>): set<Type> {
    set i, p | 0 <= i < |fields| && p in Parts(fields[i].ty) :: p
  }

  /** The constructed types that occur in fields by index. */
  function MapParts(fields: map<int, Field>): set<Type> {
    set k, p | k in fields && p in Parts(fields[k].ty) :: p
  }

  type Registry = map<string, Type>

  /** These types can all be registered: no two differ under one name, and none differs from what is registered. */
  predicate Coherent(r: Registry, types: set<Type>) {
    && (forall p, q | p in types && q in types && ClassName(p) == ClassName(q) :: p == q)
    && (forall p | p in types && ClassName(p) in r :: r[ClassName(p)] == p)
  }

  /** Each of these types is registered. */
  predicate Holds(r: Registry, types: set<Type>) {
    forall p | p in types :: ClassName(p) in r && r[ClassName(p)] == p
  }

  predicate Extends(r: Registry, s: Registry) {
    forall n | n in r :: n in s && s[n] == r[n]
  }

  /** `s` is `r` with exactly these types registered in addition. */
  predicate Adds(r: Registry, s: Registry, types: set<Type>) {
    && Extends(r, s) && Holds(s, types)
    && (forall n | n in s :: n in r || exists p :: p in types && ClassName(p) == n)
  }

  lemma AddsCoherent(r: Registry, s: Registry, types: set<Type>)
    requires Adds(r, s, types)
    ensures Coherent(r, types)
  {
  }

  /** Registering some types and then others: all can be registered if and only if the others still can. */
  lemma CoherentInTurn(r: Registry, s: Registry, a: set<Type>, b: set<Type>)
    requires Adds(r, s, a)
    ensures Coherent(r, a + b) <==> Coherent(s, b)
  {
    AddsCoherent(r, s, a);
    if Coherent(s, b) {
      forall p, q | p in a + b && q in a + b && ClassName(p) == ClassName(q) ensures p == q {
        assert p in a ==> s[ClassName(p)] == p;
        assert q in a ==> s[ClassName(q)] == q;
      }
      forall p | p in a + b && ClassName(p) in r ensures r[ClassName(p)] == p {
        assert s[ClassName(p)] == r[ClassName(p)];
      }
    }
    if Coherent(r, a + b) {
      forall p | p in b && ClassName(p) in s ensures s[ClassName(p)] == p {
        if ClassName(p) !in r {
          var q :| q in a && ClassName(q) == ClassName(p);
          assert q in a + b && p in a + b;
        }
      }
      assert forall p | p in b :: p in a + b;
    }
  }

  lemma AddsInTurn(r: Registry, s: Registry, t: Registry, a: set<Type>, b: set<Type>)
    requires Adds(r, s, a) && Adds(s, t, b)
    ensures Adds(r, t, a + b)
  {
    forall n | n in t ensures n in r || exists p :: p in a + b && ClassName(p) == n {
      if n in s && n !in r {
        var p :| p in a && ClassName(p) == n;
        assert p in a + b;
      } else if n !in s {
        var p :| p in b && ClassName(p) == n;
        assert p in a + b;
      }
    }
    forall p | p in a + b ensures ClassName(p) in t && t[ClassName(p)] == p {
      assert p in a ==> s[ClassName(p)] == p;
    }
  }

  lemma CoherentSmaller(r: Registry, a: set<Type>, b: set<Type>)
    requires a <= b && Coherent(r, b)
    ensures Coherent(r, a)
  {
  }

  /** How a resolution may end, from a registry `r` to a registry `s`: as the plain denotation says, with exactly its
      parts registered; or, when its parts cannot all be registered, in a failure. */
  predicate Resolves(plain: Loaded<Type>, r: Registry, s: Registry, t: Loaded<Type>) {
    && Extends(r, s)
    && (t == plain || t == Failed(Redefined))
    && (plain.Found? ==> (t.Found? <==> Coherent(r, Parts(plain.value))))
    && (t.Found? ==> Adds(r, s, Parts(t.value)))
  }

  predicate AllDenote(defs: seq<Definition>, rank: string -> nat, refs: seq<TypeRef>)
    requires Ranked(defs, rank)
  {
    forall i | 0 <= i < |refs| :: Denote(defs, rank, refs[i]).Found?
  }

  /** The parts of everything a list of references denotes. */
  function AllParts(defs: seq<Definition>, rank: string -> nat, refs: seq<TypeRef>): set<Type>
    requires Ranked(defs, rank)
  {
    set i, p | 0 <= i < |refs| && p in PartsIf(Denote(defs, rank, refs[i])) :: p
  }

  function PartsIf(t: Loaded<Type>): set<Type> {
    if t.Found? then Parts(t.value) else {}
  }

  lemma AllPartsGrow(defs: seq<Definition>, rank: string -> nat, refs: seq<TypeRef>, i: nat)
    requires Ranked(defs, rank) && i < |refs|
    ensures AllDenote(defs, rank, refs[..i + 1]) <==>
      AllDenote(defs, rank, refs[..i]) && Denote(defs, rank, refs[i]).Found?
    ensures Denote(defs, rank, refs[i]).Found? ==>
      AllParts(defs, rank, refs[..i + 1]) == AllParts(defs, rank, refs[..i]) + Parts(Denote(defs, rank, refs[i]).value)
  {
    assert forall k | 0 <= k < i :: refs[..i + 1][k] == refs[..i][k];
    assert refs[..i + 1][i] == refs[i];
    forall p ensures p in AllParts(defs, rank, refs[..i + 1]) <==>
      p in AllParts(defs, rank, refs[..i]) || p in PartsIf(Denote(defs, rank, refs[i]))
    {
      if p in AllParts(defs, rank, refs[..i]) {
        var k :| 0 <= k < i && p in PartsIf(Denote(defs, rank, refs[..i][k]));
        assert p in PartsIf(Denote(defs, rank, refs[..i + 1][k]));
      }
      if p in PartsIf(Denote(defs, rank, refs[i])) {
        assert p in PartsIf(Denote(defs, rank, refs[..i + 1][i]));
      }
    }
  }

  lemma OneMoreRef(defs: seq<Definition>, rank: string -> nat, refs: seq<TypeRef>, i: nat, r: Registry,
                   before: Registry, after: Registry)
    requires Ranked(defs, rank) && i < |refs| && AllDenote(defs, rank, refs[..i]) && Denote(defs, rank, refs[i]).Found?
    requires Adds(r, before, AllParts(defs, rank, refs[..i]))
    requires Adds(before, after, Parts(Denote(defs, rank, refs[i]).value))
    ensures AllDenote(defs, rank, refs[..i + 1]) && Adds(r, after, AllParts(defs, rank, refs[..i + 1]))
  {
    AllPartsGrow(defs, rank, refs, i);
    AddsInTurn(r, before, after, AllParts(defs, rank, refs[..i]), Parts(Denote(defs, rank, refs[i]).value));
  }

  /** A reference whose parts cannot be registered behind those before it keeps the whole list from being registered. */
  lemma OneFails(defs: seq<Definition>, rank: string -> nat, refs: seq<TypeRef>, i: nat, r: Registry, before: Registry)
    requires Ranked(defs, rank) && i < |refs| && Adds(r, before, AllParts(defs, rank, refs[..i]))
    requires var plain := Denote(defs, rank, refs[i]); plain.Found? ==> !Coherent(before, Parts(plain.value))
    ensures !(AllDenote(defs, rank, refs) && Coherent(r, AllParts(defs, rank, refs)))
  {
    var plain := Denote(defs, rank, refs[i]);
    if plain.Found? {
      AllPartsGrow(defs, rank, refs, i);
      CoherentInTurn(r, before, AllParts(defs, rank, refs[..i]), Parts(plain.value));
      assert AllParts(defs, rank, refs[..i + 1]) <= AllParts(defs, rank, refs);
      if Coherent(r, AllParts(defs, rank, refs)) {
        CoherentSmaller(r, AllParts(defs, rank, refs[..i + 1]), AllParts(defs, rank, refs));
      }
    }
  }

  /** A type whose parts are registered resolves to itself. */
  lemma HeldResolves(r: Registry, t: Type)
    requires Holds(r, Parts(t))
    ensures Resolves(Found(t), r, r, Found(t))
  {
  }

  /** After the parts of a type, the type itself. */
  lemma OneMorePart(r: Registry, between: Registry, s: Registry, parts: set<Type>, whole: Type, ok: bool)
    requires Adds(r, between, parts) && (ok <==> Coherent(between, {whole}))
    requires if ok then Adds(between, s, {whole}) else s == between
    ensures Extends(r, s) && (ok <==> Coherent(r, parts + {whole})) && (ok ==> Adds(r, s, parts + {whole}))
  {
    CoherentInTurn(r, between, parts, {whole});
    if ok {
      AddsInTurn(r, between, s, parts, {whole});
    }
  }

  /** An array whose element fails fails with it. */
  lemma ArrayFails(defs: seq<Definition>, rank: string -> nat, d: Definition, r: Registry, s: Registry, e: Loaded<Type>)
    requires Ranked(defs, rank) && d in defs && d.kind.Array? && e.Failed?
    requires Resolves(Denote(defs, rank, d.kind.element), r, s, e)
    ensures Resolves(DenoteDefinition(defs, rank, d), r, s, e)
  {
    var plain := Denote(defs, rank, d.kind.element);
    if plain.Found? {
      var whole := DenoteDefinition(defs, rank, d);
      assert Parts(plain.value) <= Parts(whole.value);
      if Coherent(r, Parts(whole.value)) {
        CoherentSmaller(r, Parts(plain.value), Parts(whole.value));
      }
    }
  }

  lemma InlineFails(r: Registry, t: Type, m: Member)
    requires m.size.Some? && !Coherent(r, Parts(t))
    ensures !Coherent(r, Parts(MemberOf(m, t)))
  {
    if Coherent(r, Parts(MemberOf(m, t))) {
      CoherentSmaller(r, Parts(t), Parts(MemberOf(m, t)));
    }
  }

  lemma MapPartsGrow(fields: map<int, Field>, k: int, f: Field)
    requires k !in fields
    ensures MapParts(fields[k := f]) == MapParts(fields) + Parts(f.ty)
  {
    var after := fields[k := f];
    forall p | p in MapParts(fields) + Parts(f.ty) ensures p in MapParts(after) {
      if p in MapParts(fields) {
        var j :| j in fields && p in Parts(fields[j].ty);
        assert j in after && after[j] == fields[j];
      } else {
        assert k in after && after[k] == f;
      }
    }
  }

  /** The laid out fields have the parts of the fields by index. */
  lemma IndexedParts(members: seq<Member>, fields: map<int, Field>)
    requires forall i | 0 <= i < |members| :: members[i].index in fields
    requires forall k | k in fields :: exists i :: 0 <= i < |members| && members[i].index == k
    ensures FieldParts(Layout(members, fields)) == MapParts(fields)
  {
    var order, layout := SortedSet(Indices(members)), Layout(members, fields);
    SortedSetSorts(Indices(members));
    forall p | p in MapParts(fields) ensures p in FieldParts(layout) {
      var k :| k in fields && p in Parts(fields[k].ty);
      var i :| 0 <= i < |members| && members[i].index == k;
      assert Indices(members)[i] == k && k in Indices(members) && k in order;
      var j :| 0 <= j < |order| && order[j] == k;
      assert layout[j] == fields[k];
    }
    forall p | p in FieldParts(layout) ensures p in MapParts(fields) {
      var j :| 0 <= j < |layout| && p in Parts(layout[j].ty);
      assert order[j] in Indices(members) && layout[j] == fields[order[j]];
    }
  }

  lemma AllButLast(defs: seq<Definition>, rank: string -> nat, d: Definition, k: nat)
    requires Ranked(defs, rank) && d in defs && d.kind.Struct? && 0 < k <= |d.kind.members|
    requires DenoteMembers(defs, rank, d, d.kind.members[..k]).Found?
    ensures DenoteMembers(defs, rank, d, d.kind.members[..k - 1]).Found?
  {
    assert d.kind.members[..k][..k - 1] == d.kind.members[..k - 1];
  }

  /** The fields of the first n members are among those of the first k. */
  lemma {:induction false} MembersGrow(defs: seq<Definition>, rank: string -> nat, d: Definition, n: nat, k: nat)
    requires Ranked(defs, rank) && d in defs && d.kind.Struct? && n <= k <= |d.kind.members|
    requires DenoteMembers(defs, rank, d, d.kind.members[..k]).Found?
    ensures DenoteMembers(defs, rank, d, d.kind.members[..n]).Found?
    ensures Among(DenoteMembers(defs, rank, d, d.kind.members[..n]).value,
                  DenoteMembers(defs, rank, d, d.kind.members[..k]).value)
    decreases k
  {
    if n < k {
      AllButLast(defs, rank, d, k);
      MembersGrow(defs, rank, d, n, k - 1);
      MemberAdded(defs, rank, d, k - 1, DenoteMembers(defs, rank, d, d.kind.members[..k - 1]).value);
    }
  }

  predicate Among(some: map<int, Field>, all: map<int, Field>) {
    forall k | k in some :: k in all && all[k] == some[k]
  }

  lemma MapPartsSmaller(some: map<int, Field>, all: map<int, Field>)
    requires Among(some, all)
    ensures MapParts(some) <= MapParts(all)
  {
    forall p | p in MapParts(some) ensures p in MapParts(all) {
      var k :| k in some && p in Parts(some[k].ty);
      assert k in all && all[k] == some[k];
    }
  }

  /** A struct one of whose members fails fails with it. */
  lemma StructFails(defs: seq<Definition>, rank: string -> nat, d: Definition, i: nat, fields: map<int, Field>,
                    r: Registry, before: Registry, s: Registry, error: LoadError)
    requires Ranked(defs, rank) && d in defs && d.kind.Struct? && i < |d.kind.members|
    requires DenoteMembers(defs, rank, d, d.kind.members[..i]) == Found(fields) && Adds(r, before, MapParts(fields))
    requires Resolves(MemberDenotes(defs, rank, d.kind.members[i]), before, s, Failed(error))
    ensures Resolves(DenoteDefinition(defs, rank, d), r, s, Failed(error))
  {
    var m := MemberDenotes(defs, rank, d.kind.members[i]);
    if m.Failed? {
      MemberFails(defs, rank, d, i, fields, m.error);
    } else if DenoteDefinition(defs, rank, d).Found? {
      MemberClashes(defs, rank, d, i, fields, r, before);
    } else if d.kind.members[i].index in fields {
      MemberFails(defs, rank, d, i, fields, DuplicateIndex);
    }
  }

  lemma DuplicateFails(defs: seq<Definition>, rank: string -> nat, d: Definition, i: nat, fields: map<int, Field>,
                       r: Registry, s: Registry)
    requires Ranked(defs, rank) && d in defs && d.kind.Struct? && i < |d.kind.members| && Extends(r, s)
    requires DenoteMembers(defs, rank, d, d.kind.members[..i]) == Found(fields)
    requires MemberDenotes(defs, rank, d.kind.members[i]).Found? && d.kind.members[i].index in fields
    ensures Resolves(DenoteDefinition(defs, rank, d), r, s, Failed(DuplicateIndex))
  {
    MemberFails(defs, rank, d, i, fields, DuplicateIndex);
  }

  /** A failure at a member is the failure of the struct. */
  lemma MemberFails(defs: seq<Definition>, rank: string -> nat, d: Definition, i: nat, fields: map<int, Field>,
                    error: LoadError)
    requires Ranked(defs, rank) && d in defs && d.kind.Struct? && i < |d.kind.members|
    requires DenoteMembers(defs, rank, d, d.kind.members[..i]) == Found(fields)
    requires match MemberDenotes(defs, rank, d.kind.members[i])
      case Failed(e) => error == e
      case Found(_) => d.kind.members[i].index in fields && error == DuplicateIndex
    ensures DenoteDefinition(defs, rank, d) == Failed(error)
  {
    MemberAdded(defs, rank, d, i, fields);
    assert DenoteMembers(defs, rank, d, d.kind.members[..i + 1]) == Failed(error);
    FailureStops(defs, rank, d, d.kind.members, i + 1);
  }

  /** A member whose parts cannot be registered keeps the whole struct from being registered. */
  lemma MemberClashes(defs: seq<Definition>, rank: string -> nat, d: Definition, i: nat, fields: map<int, Field>,
                      r: Registry, before: Registry)
    requires Ranked(defs, rank) && d in defs && d.kind.Struct? && i < |d.kind.members|
    requires DenoteMembers(defs, rank, d, d.kind.members[..i]) == Found(fields) && Adds(r, before, MapParts(fields))
    requires var m := MemberDenotes(defs, rank, d.kind.members[i]); m.Found? && !Coherent(before, Parts(m.value))
    requires DenoteDefinition(defs, rank, d).Found?
    ensures !Coherent(r, Parts(DenoteDefinition(defs, rank, d).value))
  {
    var m := MemberDenotes(defs, rank, d.kind.members[i]).value;
    var whole := Parts(DenoteDefinition(defs, rank, d).value);
    WholeHasMember(defs, rank, d, i, fields);
    CoherentInTurn(r, before, MapParts(fields), Parts(m));
    if Coherent(r, whole) {
      CoherentSmaller(r, MapParts(fields) + Parts(m), whole);
    }
  }

  lemma WholeHasMember(defs: seq<Definition>, rank: string -> nat, d: Definition, i: nat, fields: map<int, Field>)
    requires Ranked(defs, rank) && d in defs && d.kind.Struct? && i < |d.kind.members|
    requires DenoteMembers(defs, rank, d, d.kind.members[..i]) == Found(fields)
    requires MemberDenotes(defs, rank, d.kind.members[i]).Found? && DenoteDefinition(defs, rank, d).Found?
    ensures MapParts(fields) + Parts(MemberDenotes(defs, rank, d.kind.members[i]).value)
      <= Parts(DenoteDefinition(defs, rank, d).value)
  {
    var members := d.kind.members;
    var m := MemberDenotes(defs, rank, members[i]).value;
    var all := AllMembers(defs, rank, d, i);
    OneField(defs, rank, d, i, fields);
    MapPartsGrow(fields, members[i].index, FieldWith(members[i], m));
    MapPartsSmaller(fields[members[i].index := FieldWith(members[i], m)], all);
    StructParts(defs, rank, d, all);
  }

  /** The fields of a struct that resolves hold those of its first members. */
  lemma AllMembers(defs: seq<Definition>, rank: string -> nat, d: Definition, i: nat) returns (all: map<int, Field>)
    requires Ranked(defs, rank) && d in defs && d.kind.Struct? && i < |d.kind.members|
    requires DenoteDefinition(defs, rank, d).Found?
    ensures DenoteMembers(defs, rank, d, d.kind.members) == Found(all)
    ensures DenoteMembers(defs, rank, d, d.kind.members[..i + 1]).Found?
    ensures Among(DenoteMembers(defs, rank, d, d.kind.members[..i + 1]).value, all)
  {
    assert d.kind.members[..|d.kind.members|] == d.kind.members;
    all := DenoteMembers(defs, rank, d, d.kind.members).value;
    MembersGrow(defs, rank, d, i + 1, |d.kind.members|);
  }

  lemma OneField(defs: seq<Definition>, rank: string -> nat, d: Definition, i: nat, fields: map<int, Field>)
    requires Ranked(defs, rank) && d in defs && d.kind.Struct? && i < |d.kind.members|
    requires DenoteMembers(defs, rank, d, d.kind.members[..i]) == Found(fields)
    requires DenoteMembers(defs, rank, d, d.kind.members[..i + 1]).Found?
    ensures var m := d.kind.members[i];
      && MemberDenotes(defs, rank, m).Found? && m.index !in fields
      && DenoteMembers(defs, rank, d, d.kind.members[..i + 1])
        == Found(fields[m.index := FieldWith(m, MemberDenotes(defs, rank, m).value)])
  {
    MemberAdded(defs, rank, d, i, fields);
  }

  /** What a struct denotes, and its parts. */
  lemma StructParts(defs: seq<Definition>, rank: string -> nat, d: Definition, fields: map<int, Field>)
    requires Ranked(defs, rank) && d in defs && d.kind.Struct?
    requires DenoteMembers(defs, rank, d, d.kind.members) == Found(fields)
    ensures var whole := StructType(d.qualifiedName, Layout(d.kind.members, fields), d.kind.structDefault);
      DenoteDefinition(defs, rank, d) == Found(whole) && Parts(whole) == MapParts(fields) + {whole}
  {
    IndexedParts(d.kind.members, fields);
  }

  // ---------------------------------------------------------------- the loader

  class JsonLoader {
    const defs: seq<Definition>
    ghost const rank: string -> nat
    var parsedTypes: map<string, Type>
    /** the types constructed so far, by name: shared by all loaders */
    var constructs: Registry

    /** Every cached type is what its definition denotes, and its parts are registered. */
    ghost predicate Consistent()
      reads this
      requires Ranked(defs, rank)
    {
      forall n | n in parsedTypes ::
        && Find(defs, n).Some? && DenoteDefinition(defs, rank, Find(defs, n).value) == Found(parsedTypes[n])
        && Holds(constructs, Parts(parsedTypes[n]))
    }

    ghost predicate Valid()
      reads this
    {
      Ranked(defs, rank) && UniqueNames(defs) && Consistent()
    }

    /** The cache has only grown. */
    twostate predicate Grown()
      reads this
    {
      forall n | n in old(parsedTypes) :: n in parsedTypes && parsedTypes[n] == old(parsedTypes[n])
    }

    constructor (defs: seq<Definition>, ghost rank: string -> nat, cache: map<string, Type>, constructs: Registry)
      requires Ranked(defs, rank) && UniqueNames(defs)
      requires forall n | n in cache ::
        && Find(defs, n).Some? && DenoteDefinition(defs, rank, Find(defs, n).value) == Found(cache[n])
        && Holds(constructs, Parts(cache[n]))
      ensures this.defs == defs && this.rank == rank && parsedTypes == cache && this.constructs == constructs && Valid()
    {
      this.defs, this.rank, this.parsedTypes, this.constructs := defs, rank, cache, constructs;
    }

    /** `DictionaryType.construct_type`: a name once registered keeps its type, and accepts no other. */
    method Construct(t: Type) returns (ok: bool)
      modifies this`constructs
      ensures ok <==> Coherent(old(constructs), {t})
      ensures if ok then Adds(old(constructs), constructs, {t}) else constructs == old(constructs)
      ensures Extends(old(constructs), constructs)
    {
      var name := ClassName(t);
      if name in constructs && constructs[name] != t {
        assert !Coherent(constructs, {t});
        return false;
      }
      constructs := constructs[name := t];
      return true;
    }

    /** `parse_type`: whatever a consistent cache and the registry already hold, the plain denotation, if and only if
        the registry admits all its parts. */
    method ParseType(r: TypeRef) returns (t: Loaded<Type>)
      requires Valid()
      modifies this`parsedTypes, this`constructs
      ensures Valid() && Grown()
      ensures Resolves(Denote(defs, rank, r), old(constructs), constructs, t)
      decreases Depth(rank, r), 2, 0
    {
      if r.name.None? {
        return Failed(NoName);
      }
      var name := r.name.value;
      if name in PRIMITIVES {
        return Found(Primitive(name));
      }
      if name == "string" {
        if r.size.None? {
          return Failed(NoSize);
        }
        var ok := Construct(StringType(r.size.value));
        return if ok then Found(StringType(r.size.value)) else Failed(Redefined);
      }
      if name in parsedTypes {
        HeldResolves(constructs, parsedTypes[name]);
        return Found(parsedTypes[name]);
      }
      var i := 0;
      while i < |defs| && defs[i].qualifiedName != name
        invariant 0 <= i <= |defs|
        invariant Find(defs, name) == Find(defs[i..], name)
      {
        assert defs[i..][1..] == defs[i + 1..];
        i := i + 1;
      }
      if i == |defs| {
        return Failed(NoDefinition);
      }
      t := ParseTypeDefinition(defs[i]);
    }

    /** The loop of a loader over the references of its entries, up to the first failure: it gets through if and only if
        all of them denote a type and the parts of all together can be registered. The order does not matter. */
    method ParseAll(refs: seq<TypeRef>) returns (types: Loaded<seq<Type>>)
      requires Valid()
      modifies this`parsedTypes, this`constructs
      ensures Valid() && Grown()
      ensures types.Found? <==> AllDenote(defs, rank, refs) && Coherent(old(constructs), AllParts(defs, rank, refs))
      ensures types.Found? ==>
        |types.value| == |refs| && forall i | 0 <= i < |refs| :: Found(types.value[i]) == Denote(defs, rank, refs[i])
    {
      var found: seq<Type> := [];
      for i := 0 to |refs|
        invariant Valid() && Grown() && |found| == i && AllDenote(defs, rank, refs[..i])
        invariant forall k | 0 <= k < i :: Found(found[k]) == Denote(defs, rank, refs[k])
        invariant Adds(old(constructs), constructs, AllParts(defs, rank, refs[..i]))
      {
        ghost var before := constructs;
        var t := ParseType(refs[i]);
        if t.Failed? {
          OneFails(defs, rank, refs, i, old(constructs), before);
          return Failed(t.error);
        }
        OneMoreRef(defs, rank, refs, i, old(constructs), before, constructs);
        found := found + [t.value];
      }
      assert refs[..|refs|] == refs;
      AddsCoherent(old(constructs), constructs, AllParts(defs, rank, refs));
      return Found(found);
    }

    /** `parse_type_definition` */
    method ParseTypeDefinition(d: Definition) returns (t: Loaded<Type>)
      requires Valid() && d in defs
      modifies this`parsedTypes, this`constructs
      ensures Valid() && Grown()
      ensures Resolves(DenoteDefinition(defs, rank, d), old(constructs), constructs, t)
      decreases rank(d.qualifiedName) + 1, 1, 0
    {
      FindUnique(defs, d);
      RankedReferences(defs, rank, d);
      if d.qualifiedName in parsedTypes {
        HeldResolves(constructs, parsedTypes[d.qualifiedName]);
        return Found(parsedTypes[d.qualifiedName]);
      }
      match d.kind {
        case Alias(r) =>
          assert References(d.kind)[0] == r;
          t := ParseType(r);
          return;
        case Array(r, size, default) =>
          t := ConstructArray(d);
        case Enum(constants, representation, default) =>
          t := ConstructEnum(d.qualifiedName, constants, representation, default);
        case Struct(members, default) =>
          t := ConstructSerializable(d);
        case Unknown =>
          return Failed(UnknownKind);
      }
      if t.Found? {
        parsedTypes := parsedTypes[d.qualifiedName := t.value];
      }
    }

    /** `construct_array_type`, up to caching it */
    method ConstructArray(d: Definition) returns (t: Loaded<Type>)
      requires Valid() && d in defs && d.kind.Array?
      modifies this`parsedTypes, this`constructs
      ensures Valid() && Grown()
      ensures Resolves(DenoteDefinition(defs, rank, d), old(constructs), constructs, t)
      decreases rank(d.qualifiedName) + 1, 0, 0
    {
      RankedReferences(defs, rank, d);
      assert References(d.kind)[0] == d.kind.element;
      var element := ParseType(d.kind.element);
      if element.Failed? {
        ArrayFails(defs, rank, d, old(constructs), constructs, element);
        return element;
      }
      ghost var between := constructs;
      var made := ArrayType(d.qualifiedName, element.value, d.kind.size, d.kind.element.format, Some(d.kind.default));
      var ok := Construct(made);
      OneMorePart(old(constructs), between, constructs, Parts(element.value), made, ok);
      return if ok then Found(made) else Failed(Redefined);
    }

    /** `construct_enum_type`, up to caching it */
    method ConstructEnum(name: string, constants: seq<(string, int)>, representation: string, default: Option<string>)
        returns (t: Loaded<Type>)
      modifies this`constructs
      ensures Resolves(EnumOf(name, constants, representation, default), old(constructs), constructs, t)
    {
      var values := map[];
      for i := 0 to |constants|
        invariant values == Values(constants[..i])
        invariant constructs == old(constructs)
      {
        assert constants[..i + 1][..i] == constants[..i];
        values := values[constants[i].0 := constants[i].1];
      }
      assert constants[..|constants|] == constants;
      var chosen := DefaultOf(default);
      if representation !in PRIMITIVES {
        return Failed(BadRepresentation);
      }
      if representation !in RANGES {
        return Failed(NotInteger);
      }
      if chosen.Some? && chosen.value !in values {
        return Failed(BadDefault);
      }
      if !InRange(values, RANGES[representation]) {
        return Failed(OutOfRange);
      }
      var ok := Construct(EnumType(name, values, representation, chosen));
      return if ok then Found(EnumType(name, values, representation, chosen)) else Failed(Redefined);
    }

    /** `construct_serializable_type`, up to caching it */
    method ConstructSerializable(d: Definition) returns (t: Loaded<Type>)
      requires Valid() && d in defs && d.kind.Struct?
      modifies this`parsedTypes, this`constructs
      ensures Valid() && Grown()
      ensures Resolves(DenoteDefinition(defs, rank, d), old(constructs), constructs, t)
      decreases rank(d.qualifiedName) + 1, 0, 1
    {
      var members := d.kind.members;
      var fields: map<int, Field> := map[];
      for i := 0 to |members|
        invariant Valid() && Grown()
        invariant DenoteMembers(defs, rank, d, members[..i]) == Found(fields)
        invariant Adds(old(constructs), constructs, MapParts(fields))
      {
        var more := AddMember(d, i, fields, old(constructs));
        if more.Failed? {
          return Failed(more.error);
        }
        fields := more.value;
      }
      assert members[..|members|] == members;
      t := ConstructStruct(d, fields, old(constructs));
    }

    /** The struct itself, once its fields are resolved. */
    method ConstructStruct(d: Definition, fields: map<int, Field>, ghost r: Registry) returns (t: Loaded<Type>)
      requires Valid() && d in defs && d.kind.Struct?
      requires DenoteMembers(defs, rank, d, d.kind.members) == Found(fields) && Adds(r, constructs, MapParts(fields))
      modifies this`constructs
      ensures Valid() && Resolves(DenoteDefinition(defs, rank, d), r, constructs, t)
    {
      var struct := StructType(d.qualifiedName, Layout(d.kind.members, fields), d.kind.structDefault);
      StructParts(defs, rank, d, fields);
      var ok := Construct(struct);
      OneMorePart(r, old(constructs), constructs, MapParts(fields), struct, ok);
      return if ok then Found(struct) else Failed(Redefined);
    }

    /** One turn of the loop: the fields with one more, or the struct's failure. */
    method AddMember(d: Definition, i: nat, fields: map<int, Field>, ghost r: Registry)
        returns (more: Loaded<map<int, Field>>)
      requires Valid() && d in defs && d.kind.Struct? && i < |d.kind.members|
      requires DenoteMembers(defs, rank, d, d.kind.members[..i]) == Found(fields)
      requires Adds(r, constructs, MapParts(fields))
      modifies this`parsedTypes, this`constructs
      ensures Valid() && Grown()
      ensures more.Found? ==> DenoteMembers(defs, rank, d, d.kind.members[..i + 1]) == more
      ensures more.Found? ==> Adds(r, constructs, MapParts(more.value))
      ensures more.Failed? ==> Resolves(DenoteDefinition(defs, rank, d), r, constructs, Failed(more.error))
      decreases rank(d.qualifiedName) + 1, 0, 0
    {
      var m := d.kind.members[i];
      MemberAdded(defs, rank, d, i, fields);
      var ty := MemberType(d, i);
      if ty.Failed? {
        StructFails(defs, rank, d, i, fields, r, old(constructs), constructs, ty.error);
        return Failed(ty.error);
      }
      AddsInTurn(r, old(constructs), constructs, MapParts(fields), Parts(ty.value));
      if m.index in fields {
        DuplicateFails(defs, rank, d, i, fields, r, constructs);
        return Failed(DuplicateIndex);
      }
      MapPartsGrow(fields, m.index, FieldWith(m, ty.value));
      return Found(fields[m.index := FieldWith(m, ty.value)]);
    }

    /** The type of one member: resolved, and made an inline array when the member has a size. */
    method MemberType(d: Definition, i: nat) returns (t: Loaded<Type>)
      requires Valid() && d in defs && d.kind.Struct? && i < |d.kind.members|
      requires Depth(rank, d.kind.members[i].ref) <= rank(d.qualifiedName)
      modifies this`parsedTypes, this`constructs
      ensures Valid() && Grown()
      ensures Resolves(MemberDenotes(defs, rank, d.kind.members[i]), old(constructs), constructs, t)
      decreases Depth(rank, d.kind.members[i].ref), 3, 0
    {
      var m := d.kind.members[i];
      t := ParseType(m.ref);
      if t.Failed? {
        if m.size.Some? && Denote(defs, rank, m.ref).Found? {
          InlineFails(old(constructs), Denote(defs, rank, m.ref).value, m);
        }
        return;
      }
      if m.size.Some? {
        ghost var between := constructs;
        var made := InlineArray(t.value, m.size.value, m.ref.format);
        var ok := Construct(made);
        OneMorePart(old(constructs), between, constructs, Parts(t.value), made, ok);
        t := if ok then Found(made) else Failed(Redefined);
      }
    }
  }

  /** One more member: the first failure, or one more field. */
  lemma MemberAdded(defs: seq<Definition>, rank: string -> nat, d: Definition, i: nat, fields: map<int, Field>)
    requires Ranked(defs, rank) && d in defs && d.kind.Struct? && i < |d.kind.members|
    requires DenoteMembers(defs, rank, d, d.kind.members[..i]) == Found(fields)
    ensures var m := d.kind.members[i];
      && Depth(rank, m.ref) <= rank(d.qualifiedName)
      && DenoteMembers(defs, rank, d, d.kind.members[..i + 1]) == (
        match Denote(defs, rank, m.ref)
        case Failed(error) => Failed(error)
        case Found(t) => if m.index in fields then Failed(DuplicateIndex) else Found(fields[m.index := FieldOf(m, t)]))
  {
    RankedReferences(defs, rank, d);
    assert References(d.kind)[i] == d.kind.members[i].ref;
    assert d.kind.members[..i + 1][..i] == d.kind.members[..i];
  }

  /** A failure among the first members is the failure of all. */
  lemma {:induction false} FailureStops(defs: seq<Definition>, rank: string -> nat, d: Definition,
                                        members: seq<Member>, n: nat)
    requires Ranked(defs, rank) && d in defs && d.kind.Struct? && members <= d.kind.members && n <= |members|
    requires DenoteMembers(defs, rank, d, members[..n]).Failed?
    ensures DenoteMembers(defs, rank, d, members) == DenoteMembers(defs, rank, d, members[..n])
    decreases |members|
  {
    if n == |members| {
      assert members[..n] == members;
    } else {
      assert members[..|members| - 1][..n] == members[..n];
      FailureStops(defs, rank, d, members[..|members| - 1], n);
    }
  }
}
