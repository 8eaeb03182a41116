/** Inline arrays in the registry of constructed types: their names say element type and size, but not the format. */
module TypeRegistry {
  import opened Bytes
  import opened Strings
  import opened TypeLoader

  /** Two inline arrays of one element type and size can both be registered if and only if each can and their formats
      are the same. */
  lemma InlineFormatsIff(r: Registry, t: Type, size: int, f: string, g: string)
    ensures Coherent(r, Parts(InlineArray(t, size, f)) + Parts(InlineArray(t, size, g))) <==>
      f == g && Coherent(r, Parts(InlineArray(t, size, f)))
  {
    var a, b := InlineArray(t, size, f), InlineArray(t, size, g);
    assert a in Parts(a) && b in Parts(b) && ClassName(a) == ClassName(b);
    if f == g {
      assert Parts(a) + Parts(b) == Parts(a);
    } else {
      assert a in Parts(a) + Parts(b) && b in Parts(a) + Parts(b) && a != b;
    }
  }

  /** Inline arrays of one type share a name if and only if they share a size. */
  lemma InlineNamesIff(t: Type, n: int, m: int, f: string, g: string)
    ensures ClassName(InlineArray(t, n, f)) == ClassName(InlineArray(t, m, g)) <==> n == m
  {
    var a := "Array_" + ClassName(t) + "_";
    DecimalInjective(n, m);
    if a + Decimal(n) == a + Decimal(m) {
      assert Decimal(n) == (a + Decimal(n))[|a|..] && Decimal(m) == (a + Decimal(m))[|a|..];
    }
  }

  /** String types share a name if and only if they share a length. */
  lemma StringNamesIff(n: int, m: int)
    ensures ClassName(StringType(n)) == ClassName(StringType(m)) <==> n == m
  {
    DecimalInjective(n, m);
    if "String_" + Decimal(n) == "String_" + Decimal(m) {
      assert Decimal(n) == ("String_" + Decimal(n))[7..] && Decimal(m) == ("String_" + Decimal(m))[7..];
    }
  }

  /** A struct that resolves has the parts of each of its members' types. */
  lemma MemberParts(defs: seq<Definition>, rank: string -> nat, d: Definition, i: nat)
    requires Ranked(defs, rank) && d in defs && d.kind.Struct? && i < |d.kind.members|
    requires DenoteDefinition(defs, rank, d).Found?
    ensures MemberDenotes(defs, rank, d.kind.members[i]).Found?
    ensures Parts(MemberDenotes(defs, rank, d.kind.members[i]).value) <= Parts(DenoteDefinition(defs, rank, d).value)
  {
    assert d.kind.members[..|d.kind.members|] == d.kind.members;
    MembersGrow(defs, rank, d, i, |d.kind.members|);
    var fields := DenoteMembers(defs, rank, d, d.kind.members[..i]).value;
    var all := AllMembers(defs, rank, d, i);
    OneField(defs, rank, d, i, fields);
    WholeHasMember(defs, rank, d, i, fields);
  }

  /** Two members anywhere in a dictionary, in one struct or in two, that are inline arrays of one type and size with
      different formats: whatever is registered, the structs that hold them cannot both be resolved. */
  lemma FormatsClash(defs: seq<Definition>, rank: string -> nat, d: Definition, i: nat, e: Definition, j: nat,
                     r: Registry)
    requires Ranked(defs, rank) && d in defs && d.kind.Struct? && i < |d.kind.members|
    requires e in defs && e.kind.Struct? && j < |e.kind.members|
    requires DenoteDefinition(defs, rank, d).Found? && DenoteDefinition(defs, rank, e).Found?
    requires var m, n := d.kind.members[i], e.kind.members[j];
      && m.size.Some? && n.size == m.size && m.ref.format != n.ref.format
      && Denote(defs, rank, m.ref) == Denote(defs, rank, n.ref)
    ensures !Coherent(r, Parts(DenoteDefinition(defs, rank, d).value) + Parts(DenoteDefinition(defs, rank, e).value))
  {
    var m, n := d.kind.members[i], e.kind.members[j];
    MemberParts(defs, rank, d, i);
    MemberParts(defs, rank, e, j);
    var t := Denote(defs, rank, m.ref).value;
    var a, b := InlineArray(t, m.size.value, m.ref.format), InlineArray(t, n.size.value, n.ref.format);
    var both := Parts(DenoteDefinition(defs, rank, d).value) + Parts(DenoteDefinition(defs, rank, e).value);
    InlineFormatsIff(r, t, m.size.value, m.ref.format, n.ref.format);
    if Coherent(r, both) {
      CoherentSmaller(r, Parts(a) + Parts(b), both);
    }
  }
}
