/** The layout of structs does not depend on the order in which the JSON dictionary lists their members. */
module TypeLayout {
  import opened Bytes
  import opened Strings
  import opened Sorting
  import opened TypeLoader

  /** No two members share an index. */
  predicate IndicesDistinct(members: seq<Member>) {
    forall i, j | 0 <= i < j < |members| :: members[i].index != members[j].index
  }

  /** All members' types resolve. */
  predicate AllFound(defs: seq<Definition>, rank: string -> nat, members: seq<Member>)
    requires Ranked(defs, rank)
  {
    forall i | 0 <= i < |members| :: Denote(defs, rank, members[i].ref).Found?
  }

  predicate HasIndex(members: seq<Member>, k: int) {
    exists i | 0 <= i < |members| :: members[i].index == k
  }

  /** `f` holds the field of each member at its index, and nothing else. */
  ghost predicate FieldsOf(defs: seq<Definition>, rank: string -> nat, members: seq<Member>, f: map<int, Field>)
    requires Ranked(defs, rank)
  {
    && AllFound(defs, rank, members)
    && (forall k :: k in f <==> HasIndex(members, k))
    && (forall i | 0 <= i < |members| ::
          members[i].index in f && f[members[i].index] == FieldOf(members[i], Denote(defs, rank, members[i].ref).value))
  }

  /** The fields exist exactly when every type resolves and no index is used twice, and each is its own member's. */
  lemma {:induction false} MembersMeaning(defs: seq<Definition>, rank: string -> nat, d: Definition,
                                          members: seq<Member>)
    requires Ranked(defs, rank) && d in defs && d.kind.Struct? && members <= d.kind.members
    ensures var r := DenoteMembers(defs, rank, d, members);
      && (r.Found? <==> AllFound(defs, rank, members) && IndicesDistinct(members))
      && (r.Found? ==> FieldsOf(defs, rank, members, r.value))
    decreases |members|
  {
    if members != [] {
      var n := |members| - 1;
      MembersMeaning(defs, rank, d, members[..n]);
      IndexStep(members);
      FoundStep(defs, rank, members);
      var before := DenoteMembers(defs, rank, d, members[..n]);
      if before.Found? && Denote(defs, rank, members[n].ref).Found? && members[n].index !in before.value {
        FieldStep(defs, rank, members, before.value);
      }
    }
  }

  lemma IndexStep(members: seq<Member>)
    requires members != []
    ensures var earlier, last := members[..|members| - 1], members[|members| - 1];
      && (forall k :: HasIndex(members, k) <==> HasIndex(earlier, k) || k == last.index)
      && (IndicesDistinct(members) <==> IndicesDistinct(earlier) && !HasIndex(earlier, last.index))
  {
    var n := |members| - 1;
    var last, earlier := members[n], members[..n];
    forall k ensures HasIndex(members, k) <==> HasIndex(earlier, k) || k == last.index {
      if HasIndex(earlier, k) {
        var i :| 0 <= i < n && earlier[i].index == k;
        assert members[i].index == k;
      }
      if HasIndex(members, k) && k != last.index {
        var i :| 0 <= i < |members| && members[i].index == k;
        assert earlier[i].index == k;
      }
    }
    forall i | 0 <= i < n && earlier[i].index == last.index ensures !IndicesDistinct(members) {
      assert members[i].index == members[n].index;
    }
    if IndicesDistinct(members) {
      forall i, j | 0 <= i < j < n ensures earlier[i].index != earlier[j].index {
        assert members[i].index != members[j].index;
      }
    } else {
      var i, j :| 0 <= i < j < |members| && members[i].index == members[j].index;
      assert earlier[i] == members[i];
      if j < n {
        assert earlier[i].index == earlier[j].index;
      } else {
        assert HasIndex(earlier, last.index);
      }
    }
  }

  lemma FoundStep(defs: seq<Definition>, rank: string -> nat, members: seq<Member>)
    requires Ranked(defs, rank) && members != []
    ensures AllFound(defs, rank, members) <==>
      AllFound(defs, rank, members[..|members| - 1]) && Denote(defs, rank, members[|members| - 1].ref).Found?
  {
    assert forall i | 0 <= i < |members| - 1 :: members[..|members| - 1][i] == members[i];
  }

  lemma FieldStep(defs: seq<Definition>, rank: string -> nat, members: seq<Member>, before: map<int, Field>)
    requires Ranked(defs, rank) && members != [] && FieldsOf(defs, rank, members[..|members| - 1], before)
    requires Denote(defs, rank, members[|members| - 1].ref).Found? && members[|members| - 1].index !in before
    ensures var last := members[|members| - 1];
      FieldsOf(defs, rank, members, before[last.index := FieldOf(last, Denote(defs, rank, last.ref).value)])
  {
    var n := |members| - 1;
    var last := members[n];
    var after := before[last.index := FieldOf(last, Denote(defs, rank, last.ref).value)];
    IndexStep(members);
    FoundStep(defs, rank, members);
    forall i | 0 <= i < |members|
      ensures members[i].index in after &&
        after[members[i].index] == FieldOf(members[i], Denote(defs, rank, members[i].ref).value)
    {
      if i < n {
        assert members[..n][i] == members[i];
        assert members[i].index in before && members[i].index != last.index;
      }
    }
  }

  // ---------------------------------------------------------------- the order of fields

  /** The field says what the member does: its name, format and annotation, and its type, or an array of its type. */
  ghost predicate FieldFor(defs: seq<Definition>, rank: string -> nat, m: Member, f: Field)
    requires Ranked(defs, rank)
  {
    && f.name == m.name && f.format == m.format && f.description == m.annotation
    && if m.size.None? then Denote(defs, rank, m.ref) == Found(f.ty)
       else f.ty.ArrayType? && Denote(defs, rank, m.ref) == Found(f.ty.element)
            && f.ty.size == m.size.value && f.ty.format == m.ref.format && f.ty.default.None?
  }

  /** Every member has its field at a place of its own, in the order of the indices. */
  ghost predicate InIndexOrder(defs: seq<Definition>, rank: string -> nat, members: seq<Member>, fields: seq<Field>,
                               at: seq<nat>)
    requires Ranked(defs, rank)
  {
    && |at| == |members| == |fields|
    && (forall i | 0 <= i < |members| :: at[i] < |fields| && FieldFor(defs, rank, members[i], fields[at[i]]))
    && (forall i, j | 0 <= i < |members| && 0 <= j < |members| ::
          members[i].index < members[j].index ==> at[i] < at[j])
    && IndicesDistinct(members)
  }

  /** A struct's fields are its members', each once, by ascending index, whatever order the dictionary lists them in. */
  lemma FieldsInIndexOrder(defs: seq<Definition>, rank: string -> nat, d: Definition)
    requires Ranked(defs, rank) && d in defs && d.kind.Struct? && DenoteDefinition(defs, rank, d).Found?
    ensures var t := DenoteDefinition(defs, rank, d).value;
      && t.StructType? && t.structName == d.qualifiedName && t.structDefault == d.kind.structDefault
      && exists at :: InIndexOrder(defs, rank, d.kind.members, t.fields, at)
  {
    var members := d.kind.members;
    var found := DenoteMembers(defs, rank, d, members).value;
    var fields := DenoteDefinition(defs, rank, d).value.fields;
    MembersMeaning(defs, rank, d, members);
    IndicesSorted(members);
    var at := seq(|members|, i requires 0 <= i < |members| => PlaceOf(members, i));
    forall i | 0 <= i < |members| ensures at[i] < |fields| && FieldFor(defs, rank, members[i], fields[at[i]]) {
      FieldPlaced(defs, rank, members, found, i);
    }
    forall i, j | 0 <= i < |members| && 0 <= j < |members| && members[i].index < members[j].index
      ensures at[i] < at[j] {
      PlacesAscend(members, i, j);
    }
    assert InIndexOrder(defs, rank, members, fields, at);
  }

  lemma IndicesSorted(members: seq<Member>)
    requires IndicesDistinct(members)
    ensures |SortedSet(Indices(members))| == |members| && Ascending(SortedSet(Indices(members)))
    ensures forall i | 0 <= i < |members| :: members[i].index in SortedSet(Indices(members))
  {
    SortedSetSorts(Indices(members));
    SortedSetLength(Indices(members));
    forall i | 0 <= i < |members| ensures members[i].index in SortedSet(Indices(members)) {
      assert Indices(members)[i] == members[i].index;
    }
  }

  /** Where member i's index stands among the sorted indices. */
  function PlaceOf(members: seq<Member>, i: nat): (p: nat)
    requires i < |members|
    ensures p < |SortedSet(Indices(members))| && SortedSet(Indices(members))[p] == members[i].index
  {
    SortedSetSorts(Indices(members));
    assert Indices(members)[i] == members[i].index && members[i].index in SortedSet(Indices(members));
    PlaceIn(SortedSet(Indices(members)), members[i].index)
  }

  function PlaceIn(s: seq<int>, x: int): (p: nat)
    requires x in s
    ensures p < |s| && s[p] == x
  {
    if s[0] == x then 0 else 1 + PlaceIn(s[1..], x)
  }

  lemma PlacesAscend(members: seq<Member>, i: nat, j: nat)
    requires i < |members| && j < |members| && members[i].index < members[j].index
    ensures PlaceOf(members, i) < PlaceOf(members, j)
  {
    SortedSetSorts(Indices(members));
    var order := SortedSet(Indices(members));
    var p, q := PlaceOf(members, i), PlaceOf(members, j);
    SmallerBefore(order, p, q);
  }

  lemma SmallerBefore(s: seq<int>, p: nat, q: nat)
    requires Ascending(s) && p < |s| && q < |s| && s[p] < s[q]
    ensures p < q
  {
  }

  lemma FieldPlaced(defs: seq<Definition>, rank: string -> nat, members: seq<Member>, found: map<int, Field>, i: nat)
    requires Ranked(defs, rank) && FieldsOf(defs, rank, members, found) && i < |members|
    requires forall k | 0 <= k < |members| :: members[k].index in found
    ensures var fields := Layout(members, found);
      PlaceOf(members, i) < |fields| && FieldFor(defs, rank, members[i], fields[PlaceOf(members, i)])
  {
    assert Layout(members, found)[PlaceOf(members, i)] == found[members[i].index];
    assert found[members[i].index] == FieldOf(members[i], Denote(defs, rank, members[i].ref).value);
  }

  // ---------------------------------------------------------------- what the other kinds denote

  /** An alias is what it stands for. */
  lemma AliasMeans(defs: seq<Definition>, rank: string -> nat, d: Definition)
    requires Ranked(defs, rank) && d in defs && d.kind.Alias?
    ensures DenoteDefinition(defs, rank, d) == Denote(defs, rank, d.kind.underlying)
  {
    assert References(d.kind)[0] == d.kind.underlying;
  }

  /** An array has its definition's name, size and default, and its element's type and format. */
  lemma ArrayMeans(defs: seq<Definition>, rank: string -> nat, d: Definition)
    requires Ranked(defs, rank) && d in defs && d.kind.Array?
    ensures var t, e := DenoteDefinition(defs, rank, d), Denote(defs, rank, d.kind.element);
      && (t.Found? <==> e.Found?)
      && (t.Found? ==>
        && t.value.ArrayType? && t.value.arrayName == d.qualifiedName && t.value.element == e.value
        && t.value.size == d.kind.size && t.value.format == d.kind.element.format
        && t.value.default == Some(d.kind.default))
  {
    assert References(d.kind)[0] == d.kind.element;
  }

  /** An enumeration is one if and only if an integer representation holds the last value given to each constant, and
      its default, read behind the last dot, is a constant. */
  lemma EnumExistsIff(defs: seq<Definition>, rank: string -> nat, d: Definition, values: map<string, int>)
    requires Ranked(defs, rank) && d in defs && d.kind.Enum? && LastValues(d.kind.constants, values)
    ensures var default := d.kind.enumDefault.GetOr("");
      DenoteDefinition(defs, rank, d).Found? <==>
        && d.kind.representation in {"U8", "I8", "U16", "I16", "U32", "I32", "U64", "I64"}
        && (default != "" ==> LastSegment(default) in values)
        && forall n | n in values :: HoldsInt(d.kind.representation, values[n])
  {
    var kind := d.kind;
    ValuesMean(kind.constants);
    ValuesUnique(kind.constants, values, Values(kind.constants));
    IntegerNames(kind.representation);
    EnumOfFound(d.qualifiedName, kind.constants, kind.representation, kind.enumDefault);
    if kind.representation in RANGES {
      RangesHold(kind.representation, values);
    }
  }

  lemma IntegerNames(representation: string)
    ensures representation in RANGES <==>
      representation in {"U8", "I8", "U16", "I16", "U32", "I32", "U64", "I64"}
    ensures representation in RANGES ==> representation in PRIMITIVES
  {
  }

  lemma EnumOfFound(name: string, constants: seq<(string, int)>, representation: string, default: Option<string>)
    requires representation in RANGES ==> representation in PRIMITIVES
    ensures EnumOf(name, constants, representation, default).Found? <==>
      && representation in RANGES
      && (default.GetOr("") != "" ==> LastSegment(default.GetOr("")) in Values(constants))
      && InRange(Values(constants), RANGES[representation])
  {
  }

  lemma RangesHold(representation: string, values: map<string, int>)
    requires representation in RANGES
    ensures InRange(values, RANGES[representation]) <==> forall n | n in values :: HoldsInt(representation, values[n])
  {
    forall n | n in values
      ensures HoldsInt(representation, values[n])
        <==> RANGES[representation].0 <= values[n] <= RANGES[representation].1
    {
      RangeHolds(representation, values[n]);
    }
  }

  lemma RangeHolds(representation: string, v: int)
    requires representation in RANGES
    ensures HoldsInt(representation, v) <==> RANGES[representation].0 <= v <= RANGES[representation].1
  {
  }

  /** It has its definition's name and representation, just those values, and that default. */
  lemma EnumMeans(defs: seq<Definition>, rank: string -> nat, d: Definition, values: map<string, int>)
    requires Ranked(defs, rank) && d in defs && d.kind.Enum? && LastValues(d.kind.constants, values)
    ensures var t := DenoteDefinition(defs, rank, d); var default := d.kind.enumDefault.GetOr("");
      t.Found? ==>
        && t.value.EnumType? && t.value.enumName == d.qualifiedName && t.value.values == values
        && t.value.representation == d.kind.representation
        && t.value.enumDefault == if default == "" then None else Some(LastSegment(default))
  {
    ValuesMean(d.kind.constants);
    ValuesUnique(d.kind.constants, values, Values(d.kind.constants));
  }

  lemma ValuesUnique(constants: seq<(string, int)>, a: map<string, int>, b: map<string, int>)
    requires LastValues(constants, a) && LastValues(constants, b)
    ensures a == b
  {
    forall n | n in a ensures n in b && a[n] == b[n] {
      var i := LastOf(constants, n);
    }
    forall n | n in b ensures n in a {
    }
  }

  lemma LastOf(constants: seq<(string, int)>, n: string) returns (i: nat)
    requires exists k :: 0 <= k < |constants| && constants[k].0 == n
    ensures i < |constants| && constants[i].0 == n && forall j | i < j < |constants| :: constants[j].0 != constants[i].0
  {
    i := |constants| - 1;
    while constants[i].0 != n
      invariant i < |constants| && forall j | i < j < |constants| :: constants[j].0 != n
      decreases i
    {
      i := i - 1;
    }
  }

  /** The value is one of the representation's: signed or unsigned, of 8, 16, 32 or 64 bits. */
  predicate HoldsInt(representation: string, v: int) {
    || (representation == "U8" && 0 <= v < 0x100) || (representation == "I8" && -0x80 <= v < 0x80)
    || (representation == "U16" && 0 <= v < 0x1_0000) || (representation == "I16" && -0x8000 <= v < 0x8000)
    || (representation == "U32" && 0 <= v < 0x1_0000_0000)
    || (representation == "I32" && -0x8000_0000 <= v < 0x8000_0000)
    || (representation == "U64" && 0 <= v < 0x1_0000_0000_0000_0000)
    || (representation == "I64" && -0x8000_0000_0000_0000 <= v < 0x8000_0000_0000_0000)
  }

  /** The names are those of the constants, and each has the value given to it last. */
  ghost predicate LastValues(constants: seq<(string, int)>, values: map<string, int>) {
    && (forall n :: n in values <==> exists i :: 0 <= i < |constants| && constants[i].0 == n)
    && forall i | 0 <= i < |constants| && (forall j | i < j < |constants| :: constants[j].0 != constants[i].0) ::
      constants[i].0 in values && values[constants[i].0] == constants[i].1
  }

  lemma {:induction false} ValuesMean(constants: seq<(string, int)>)
    ensures LastValues(constants, Values(constants))
    decreases |constants|
  {
    if constants != [] {
      var k := |constants| - 1;
      ValuesMean(constants[..k]);
      OneMoreValue(constants, Values(constants[..k]));
    }
  }

  lemma OneMoreValue(constants: seq<(string, int)>, values: map<string, int>)
    requires constants != [] && LastValues(constants[..|constants| - 1], values)
    ensures var last := constants[|constants| - 1]; LastValues(constants, values[last.0 := last.1])
  {
    var k := |constants| - 1;
    var last, before := constants[k], constants[..k];
    var after := values[last.0 := last.1];
    forall n ensures n in after <==> exists i :: 0 <= i < |constants| && constants[i].0 == n {
      if n in values {
        var i :| 0 <= i < |before| && before[i].0 == n;
        assert constants[i].0 == n;
      }
      if exists i :: 0 <= i < |constants| && constants[i].0 == n {
        var i :| 0 <= i < |constants| && constants[i].0 == n;
        assert i < k ==> before[i].0 == n;
      }
      assert constants[k].0 == last.0;
    }
    forall i | 0 <= i < |constants| && forall j | i < j < |constants| :: constants[j].0 != constants[i].0
      ensures constants[i].0 in after && after[constants[i].0] == constants[i].1
    {
      if i < k {
        assert before[i] == constants[i] && constants[k].0 != constants[i].0;
        assert forall j | i < j < |before| :: before[j].0 == constants[j].0;
      }
    }
  }

  // ---------------------------------------------------------------- dictionaries that differ in member order

  /** A JSON object: the names are distinct. */
  predicate NamesDistinct(members: seq<Member>) {
    forall i, j | 0 <= i < j < |members| :: members[i].name != members[j].name
  }

  ghost predicate SameUpToOrder(d: Definition, e: Definition) {
    && d.qualifiedName == e.qualifiedName
    && (d.kind == e.kind
        || (d.kind.Struct? && e.kind.Struct? && d.kind.structDefault == e.kind.structDefault
            && NamesDistinct(d.kind.members) && NamesDistinct(e.kind.members)
            && forall m :: m in d.kind.members <==> m in e.kind.members))
  }

  ghost predicate SameDictionaries(defs: seq<Definition>, eefs: seq<Definition>) {
    |defs| == |eefs| && forall i | 0 <= i < |defs| :: SameUpToOrder(defs[i], eefs[i])
  }

  /** Both resolve to the same, or both fail. */
  predicate Agree<T(==)>(a: Loaded<T>, b: Loaded<T>) {
    if a.Found? then a == b else b.Failed?
  }

  lemma {:induction false} FindAgrees(defs: seq<Definition>, eefs: seq<Definition>, name: string)
    requires SameDictionaries(defs, eefs)
    ensures Find(defs, name).None? <==> Find(eefs, name).None?
    ensures Find(defs, name).Some? ==> SameUpToOrder(Find(defs, name).value, Find(eefs, name).value)
  {
    if defs != [] && defs[0].qualifiedName != name {
      FindAgrees(defs[1..], eefs[1..], name);
    }
  }

  lemma DistinctSame(x: seq<Member>, y: seq<Member>)
    requires NamesDistinct(x) && NamesDistinct(y) && forall m :: m in x <==> m in y
    requires IndicesDistinct(x)
    ensures IndicesDistinct(y)
  {
    forall i, j | 0 <= i < j < |y| ensures y[i].index != y[j].index {
      assert y[i] in x && y[j] in x;
      var p :| 0 <= p < |x| && x[p] == y[i];
      var q :| 0 <= q < |x| && x[q] == y[j];
      assert p != q;
    }
  }

  /** The same members' types agree, so the fields do. */
  lemma LayoutAgrees(defs: seq<Definition>, eefs: seq<Definition>, rank: string -> nat, d: Definition, e: Definition)
    requires Ranked(defs, rank) && Ranked(eefs, rank) && d in defs && e in eefs
    requires SameUpToOrder(d, e) && d.kind.Struct? && e.kind.Struct?
    requires NamesDistinct(d.kind.members) && NamesDistinct(e.kind.members)
    requires forall m :: m in d.kind.members <==> m in e.kind.members
    requires forall m | m in d.kind.members :: Agree(Denote(defs, rank, m.ref), Denote(eefs, rank, m.ref))
    ensures Agree(DenoteDefinition(defs, rank, d), DenoteDefinition(eefs, rank, e))
  {
    var x, y := d.kind.members, e.kind.members;
    MembersFoundSame(defs, eefs, rank, d, e);
    var r, s := DenoteMembers(defs, rank, d, x), DenoteMembers(eefs, rank, e, y);
    if r.Found? {
      FieldsSame(defs, eefs, rank, x, y, r.value, s.value);
      StructOf(defs, rank, d, r.value);
      StructOf(eefs, rank, e, s.value);
    }
  }

  lemma MembersFoundSame(defs: seq<Definition>, eefs: seq<Definition>, rank: string -> nat, d: Definition,
                         e: Definition)
    requires Ranked(defs, rank) && Ranked(eefs, rank) && d in defs && e in eefs && d.kind.Struct? && e.kind.Struct?
    requires NamesDistinct(d.kind.members) && NamesDistinct(e.kind.members)
    requires forall m :: m in d.kind.members <==> m in e.kind.members
    requires forall m | m in d.kind.members :: Agree(Denote(defs, rank, m.ref), Denote(eefs, rank, m.ref))
    ensures var r, s := DenoteMembers(defs, rank, d, d.kind.members), DenoteMembers(eefs, rank, e, e.kind.members);
      && (r.Found? <==> s.Found?)
      && (r.Found? ==> FieldsOf(defs, rank, d.kind.members, r.value))
      && (s.Found? ==> FieldsOf(eefs, rank, e.kind.members, s.value))
  {
    MembersMeaning(defs, rank, d, d.kind.members);
    MembersMeaning(eefs, rank, e, e.kind.members);
    FoundSame(defs, eefs, rank, d.kind.members, e.kind.members);
    IndicesDistinctSame(d.kind.members, e.kind.members);
  }

  lemma StructOf(defs: seq<Definition>, rank: string -> nat, d: Definition, fields: map<int, Field>)
    requires Ranked(defs, rank) && d in defs && d.kind.Struct?
    requires DenoteMembers(defs, rank, d, d.kind.members) == Found(fields)
    ensures DenoteDefinition(defs, rank, d)
      == Found(StructType(d.qualifiedName, Layout(d.kind.members, fields), d.kind.structDefault))
  {
  }

  lemma IndicesDistinctSame(x: seq<Member>, y: seq<Member>)
    requires NamesDistinct(x) && NamesDistinct(y) && forall m :: m in x <==> m in y
    ensures IndicesDistinct(x) <==> IndicesDistinct(y)
  {
    if IndicesDistinct(x) {
      DistinctSame(x, y);
    } else if IndicesDistinct(y) {
      DistinctSame(y, x);
    }
  }

  lemma FoundSame(defs: seq<Definition>, eefs: seq<Definition>, rank: string -> nat, x: seq<Member>, y: seq<Member>)
    requires Ranked(defs, rank) && Ranked(eefs, rank)
    requires forall m :: m in x <==> m in y
    requires forall m | m in x :: Agree(Denote(defs, rank, m.ref), Denote(eefs, rank, m.ref))
    ensures AllFound(defs, rank, x) <==> AllFound(eefs, rank, y)
  {
    if AllFound(defs, rank, x) {
      forall i | 0 <= i < |y| ensures Denote(eefs, rank, y[i].ref).Found? {
        assert y[i] in x;
        var j :| 0 <= j < |x| && x[j] == y[i];
      }
    }
    if AllFound(eefs, rank, y) {
      forall i | 0 <= i < |x| ensures Denote(defs, rank, x[i].ref).Found? {
        assert x[i] in y;
        var j :| 0 <= j < |y| && y[j] == x[i];
      }
    }
  }

  lemma FieldsSame(defs: seq<Definition>, eefs: seq<Definition>, rank: string -> nat, x: seq<Member>, y: seq<Member>,
                   f: map<int, Field>, g: map<int, Field>)
    requires Ranked(defs, rank) && Ranked(eefs, rank)
    requires forall m :: m in x <==> m in y
    requires forall m | m in x :: Agree(Denote(defs, rank, m.ref), Denote(eefs, rank, m.ref))
    requires FieldsOf(defs, rank, x, f) && FieldsOf(eefs, rank, y, g)
    ensures Layout(x, f) == Layout(y, g)
  {
    IndicesSame(x, y);
    forall k | k in Indices(x) ensures k in f && k in g && f[k] == g[k] {
      var i :| 0 <= i < |x| && Indices(x)[i] == k;
      FieldAgrees(defs, eefs, rank, x, y, f, g, i);
    }
    LayoutSame(x, y, f, g);
  }

  lemma LayoutSame(x: seq<Member>, y: seq<Member>, f: map<int, Field>, g: map<int, Field>)
    requires forall i | 0 <= i < |x| :: x[i].index in f
    requires forall i | 0 <= i < |y| :: y[i].index in g
    requires SortedSet(Indices(x)) == SortedSet(Indices(y))
    requires forall k | k in Indices(x) :: k in f && k in g && f[k] == g[k]
    ensures Layout(x, f) == Layout(y, g)
  {
    var order := SortedSet(Indices(x));
    SortedSetSorts(Indices(x));
    assert forall i | 0 <= i < |order| :: order[i] in Indices(x);
  }

  lemma FieldAgrees(defs: seq<Definition>, eefs: seq<Definition>, rank: string -> nat, x: seq<Member>, y: seq<Member>,
                    f: map<int, Field>, g: map<int, Field>, i: nat)
    requires Ranked(defs, rank) && Ranked(eefs, rank) && i < |x| && x[i] in y
    requires Agree(Denote(defs, rank, x[i].ref), Denote(eefs, rank, x[i].ref))
    requires FieldsOf(defs, rank, x, f) && FieldsOf(eefs, rank, y, g)
    ensures x[i].index in f && x[i].index in g && f[x[i].index] == g[x[i].index]
  {
    var j :| 0 <= j < |y| && y[j] == x[i];
    assert Denote(defs, rank, x[i].ref).Found?;
    assert f[x[i].index] == FieldOf(x[i], Denote(defs, rank, x[i].ref).value);
    assert g[y[j].index] == FieldOf(y[j], Denote(eefs, rank, y[j].ref).value);
  }

  /** The same members are sorted into the same order of indices. */
  lemma IndicesSame(x: seq<Member>, y: seq<Member>)
    requires forall m :: m in x <==> m in y
    ensures SortedSet(Indices(x)) == SortedSet(Indices(y))
  {
    forall k ensures k in Indices(x) <==> k in Indices(y) {
      IndexListed(x, y, k);
      IndexListed(y, x, k);
    }
    SortedSetSorts(Indices(x));
    SortedSetSorts(Indices(y));
    AscendingUnique(SortedSet(Indices(x)), SortedSet(Indices(y)));
  }

  lemma IndexListed(x: seq<Member>, y: seq<Member>, k: int)
    requires forall m :: m in x <==> m in y
    ensures k in Indices(x) ==> k in Indices(y)
  {
    if k in Indices(x) {
      var i :| 0 <= i < |x| && Indices(x)[i] == k;
      assert x[i] in y;
      var j :| 0 <= j < |y| && y[j] == x[i];
      assert Indices(y)[j] == k;
    }
  }

  lemma {:induction false} DefinitionAgrees(defs: seq<Definition>, eefs: seq<Definition>, rank: string -> nat,
                                            d: Definition, e: Definition)
    requires Ranked(defs, rank) && Ranked(eefs, rank) && SameDictionaries(defs, eefs)
    requires d in defs && e in eefs && SameUpToOrder(d, e)
    ensures Agree(DenoteDefinition(defs, rank, d), DenoteDefinition(eefs, rank, e))
    decreases rank(d.qualifiedName) + 1, 0
  {
    RankedReferences(defs, rank, d);
    RankedReferences(eefs, rank, e);
    match d.kind
    case Alias(r) =>
      assert References(d.kind)[0] == r;
      DenotationIgnoresMemberOrder(defs, eefs, rank, r);
    case Array(r, _, _) =>
      assert References(d.kind)[0] == r;
      DenotationIgnoresMemberOrder(defs, eefs, rank, r);
    case Enum(_, _, _) =>
    case Unknown =>
    case Struct(members, _) =>
      forall i | 0 <= i < |members|
        ensures Agree(Denote(defs, rank, members[i].ref), Denote(eefs, rank, members[i].ref))
      {
        assert References(d.kind)[i] == members[i].ref;
        DenotationIgnoresMemberOrder(defs, eefs, rank, members[i].ref);
      }
      if d.kind == e.kind {
        SameMembersAgree(defs, eefs, rank, d, e, members);
      } else {
        LayoutAgrees(defs, eefs, rank, d, e);
      }
  }

  lemma {:induction false} SameMembersAgree(defs: seq<Definition>, eefs: seq<Definition>, rank: string -> nat,
                                            d: Definition, e: Definition, members: seq<Member>)
    requires Ranked(defs, rank) && Ranked(eefs, rank) && d in defs && e in eefs && d.kind == e.kind && d.kind.Struct?
    requires members <= d.kind.members
    requires forall i | 0 <= i < |members| ::
      Agree(Denote(defs, rank, members[i].ref), Denote(eefs, rank, members[i].ref))
    ensures Agree(DenoteMembers(defs, rank, d, members), DenoteMembers(eefs, rank, e, members))
    decreases |members|
  {
    if members != [] {
      SameMembersAgree(defs, eefs, rank, d, e, members[..|members| - 1]);
    }
  }

  /** Two acyclic dictionaries that differ only in the order of struct members resolve every reference alike: to the
      same type, layouts included, or to a failure in both. */
  lemma {:induction false} DenotationIgnoresMemberOrder(defs: seq<Definition>, eefs: seq<Definition>,
                                                        rank: string -> nat, r: TypeRef)
    requires Ranked(defs, rank) && Ranked(eefs, rank) && SameDictionaries(defs, eefs)
    ensures Agree(Denote(defs, rank, r), Denote(eefs, rank, r))
    decreases Depth(rank, r), 1
  {
    if r.name.Some? && Custom(r.name.value) {
      FindAgrees(defs, eefs, r.name.value);
      var d := Find(defs, r.name.value);
      if d.Some? {
        DefinitionAgrees(defs, eefs, rank, d.value, Find(eefs, r.name.value).value);
      }
    }
  }
}
