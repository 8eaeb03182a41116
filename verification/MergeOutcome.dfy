/** When a merge under the default rules succeeds, said of its inputs, and what then holds of the result. */
module MergeOutcome {
  import opened Bytes
  import opened Strings
  import opened Sequences
  import opened MergeSpec
  import opened MergeTheorems
  import opened MergeSymmetry
  import opened MergeNames

  /** Conflicts are errors, and entries that share a name only are renamed. */
  predicate DefaultRules(o: Options) {
    Even(o) && !o.noNamespace
  }

  // ---------------------------------------------------------------- one section

  /** Names of both inputs: prefixed when different entries have them, and unchanged otherwise. */
  ghost function Final(x: seq<Entry>, y: seq<Entry>, A: string, B: string, z: Entry): string {
    if NamePair(x, y, z.name) then (if z in x then A else B) + "." + z.name else z.name
  }

  /** Two entries come out with the same name. */
  ghost predicate NamesMeet(x: seq<Entry>, y: seq<Entry>, A: string, B: string) {
    exists z, w :: (z in x || z in y) && (w in x || w in y) && z != w && Final(x, y, A, B, z) == Final(x, y, A, B, w)
  }

  lemma FinalIsFinalName(o: Options, s: Section, pa: Option<string>, pb: Option<string>, x: seq<Entry>, y: seq<Entry>,
                         z: Entry)
    requires DefaultRules(o) && SectionOk(s, x) && IdsAgree(s, x, y)
    ensures FinalName(o, s, pa, pb, x, y, z) == Final(x, y, pa.GetOr("None"), pb.GetOr("None"), z)
  {
    RenamedIsPairs(o, s, x, y, z.name);
  }

  lemma NoConflictByDefault(o: Options, s: Section, x: seq<Entry>, y: seq<Entry>)
    requires DefaultRules(o) && SectionOk(s, x) && SectionOk(s, y)
    ensures HasConflict(o, s, x, y) <==> !IdsAgree(s, x, y)
  {
    HasConflictMeaning(o, s, x, y);
  }

  /** The entries of both inputs, each once, under their final names. */
  lemma FinalAt(o: Options, s: Section, pa: Option<string>, pb: Option<string>, x: seq<Entry>, y: seq<Entry>, i: nat)
    requires DefaultRules(o) && SectionOk(s, x) && SectionOk(s, y) && IdsAgree(s, x, y) && i < |Union(o, s, x, y)|
    ensures |MergeSection(o, s, pa, pb, x, y)| == |Union(o, s, x, y)|
    ensures var z := Union(o, s, x, y)[i];
      && (z in x || z in y)
      && MergeSection(o, s, pa, pb, x, y)[i] == z.(name := Final(x, y, pa.GetOr("None"), pb.GetOr("None"), z))
  {
    var z := Union(o, s, x, y)[i];
    assert z in Union(o, s, x, y);
    NoConflictByDefault(o, s, x, y);
    UnionMembers(o, s, x, y, z);
    MergedAt(o, s, pa, pb, x, y, i);
    FinalIsFinalName(o, s, pa, pb, x, y, z);
  }

  lemma FinalSomewhere(o: Options, s: Section, pa: Option<string>, pb: Option<string>, x: seq<Entry>, y: seq<Entry>,
                       z: Entry)
      returns (i: nat)
    requires DefaultRules(o) && SectionOk(s, x) && SectionOk(s, y) && IdsAgree(s, x, y) && (z in x || z in y)
    ensures i < |Union(o, s, x, y)| && Union(o, s, x, y)[i] == z
    ensures |MergeSection(o, s, pa, pb, x, y)| == |Union(o, s, x, y)|
    ensures MergeSection(o, s, pa, pb, x, y)[i] == z.(name := Final(x, y, pa.GetOr("None"), pb.GetOr("None"), z))
  {
    NoConflictByDefault(o, s, x, y);
    UnionMembers(o, s, x, y, z);
    i :| 0 <= i < |Union(o, s, x, y)| && Union(o, s, x, y)[i] == z;
    FinalAt(o, s, pa, pb, x, y, i);
  }

  lemma DistinctIff(o: Options, s: Section, pa: Option<string>, pb: Option<string>, x: seq<Entry>, y: seq<Entry>)
    requires DefaultRules(o) && SectionOk(s, x) && SectionOk(s, y) && IdsAgree(s, x, y)
    ensures Distinct(Names(MergeSection(o, s, pa, pb, x, y))) <==>
      !NamesMeet(x, y, pa.GetOr("None"), pb.GetOr("None"))
  {
    var m, A, B := MergeSection(o, s, pa, pb, x, y), pa.GetOr("None"), pb.GetOr("None");
    if NamesMeet(x, y, A, B) {
      var z, w :| (z in x || z in y) && (w in x || w in y) && z != w && Final(x, y, A, B, z) == Final(x, y, A, B, w);
      var i := FinalSomewhere(o, s, pa, pb, x, y, z);
      var j := FinalSomewhere(o, s, pa, pb, x, y, w);
      assert Names(m)[i] == Names(m)[j] && i != j;
    }
    if !Distinct(Names(m)) {
      var i, j :| 0 <= i < j < |m| && Names(m)[i] == Names(m)[j];
      UnionDistinct(o, s, x, y);
      MergedIds(o, s, pa, pb, x, y);
      assert |m| == |Union(o, s, x, y)|;
      FinalAt(o, s, pa, pb, x, y, i);
      FinalAt(o, s, pa, pb, x, y, j);
      assert Union(o, s, x, y)[i] != Union(o, s, x, y)[j];
    }
  }

  /** Under the default rules a section fails exactly when equal ids stand for different entries, when a name needs
      prefixes that are missing or equal, or when two entries come out with the same name. */
  lemma SectionFailsIff(o: Options, s: Section, a: Input, b: Input, x: seq<Entry>, y: seq<Entry>)
    requires DefaultRules(o) && SectionOk(s, x) && SectionOk(s, y)
    ensures SectionFails(o, s, a, b, x, y) <==>
      || !IdsAgree(s, x, y)
      || ((exists n :: NamePair(x, y, n)) && BadPrefixes(a, b))
      || NamesMeet(x, y, Prefix(a).GetOr("None"), Prefix(b).GetOr("None"))
  {
    NoConflictByDefault(o, s, x, y);
    if IdsAgree(s, x, y) {
      DistinctIff(o, s, Prefix(a), Prefix(b), x, y);
      forall n ensures n in Renamed(o, s, x, y) <==> NamePair(x, y, n) {
        RenamedIsPairs(o, s, x, y, n);
      }
    }
  }

  // ---------------------------------------------------------------- clean prefixes

  /** Neither prefix with its dot begins the other. */
  predicate Apart(A: string, B: string) {
    !(A + "." <= B + ".") && !(B + "." <= A + ".")
  }

  /** No name begins with a prefix and its dot. */
  predicate Unprefixed(A: string, B: string, name: string) {
    !(A + "." <= name) && !(B + "." <= name)
  }

  predicate AllUnprefixed(A: string, B: string, entries: seq<Entry>) {
    forall i | 0 <= i < |entries| :: Unprefixed(A, B, entries[i].name)
  }

  lemma PrefixesNest(p: string, q: string, w: string)
    requires p <= w && q <= w
    ensures p <= q || q <= p
  {
    if |p| <= |q| {
      assert p == w[..|p|] == q[..|p|];
    } else {
      assert q == w[..|q|] == p[..|q|];
    }
  }

  lemma ApartNames(A: string, B: string, n: string, m: string)
    requires Apart(A, B)
    ensures A + "." + n != B + "." + m
  {
    if A + "." + n == B + "." + m {
      PrefixesNest(A + ".", B + ".", A + "." + n);
    }
  }

  lemma FinalsDiffer(s: Section, x: seq<Entry>, y: seq<Entry>, A: string, B: string, z: Entry, w: Entry)
    requires SectionOk(s, x) && SectionOk(s, y) && Apart(A, B)
    requires (z in x || z in y) && (w in x || w in y) && z != w
    requires Unprefixed(A, B, z.name) && Unprefixed(A, B, w.name)
    ensures Final(x, y, A, B, z) != Final(x, y, A, B, w)
  {
    ApartNames(A, B, z.name, w.name);
    ApartNames(A, B, w.name, z.name);
    SameBehind(A, z.name, w.name);
    SameBehind(B, z.name, w.name);
    assert forall p, n: string :: p + "." <= p + "." + n;
    SameNameTwice(s, x, y, z, w);
  }

  /** Of two entries with one name, one is the primary's and one the secondary's. */
  lemma SameNameTwice(s: Section, x: seq<Entry>, y: seq<Entry>, z: Entry, w: Entry)
    requires SectionOk(s, x) && SectionOk(s, y)
    requires (z in x || z in y) && (w in x || w in y) && z != w
    ensures z.name == w.name ==> NamePair(x, y, z.name) && (z in x <==> w !in x)
  {
    if z.name == w.name {
      if z in x && w in x {
        SameNameSame(s, x, z, w);
      }
      if z in y && w in y {
        SameNameSame(s, y, z, w);
      }
      if z in x {
        assert w in y;
      } else {
        assert w in x && z in y;
      }
    }
  }

  lemma CleanNamesDistinct(s: Section, x: seq<Entry>, y: seq<Entry>, A: string, B: string)
    requires SectionOk(s, x) && SectionOk(s, y) && Apart(A, B)
    requires AllUnprefixed(A, B, x) && AllUnprefixed(A, B, y)
    ensures !NamesMeet(x, y, A, B)
  {
    forall z, w | (z in x || z in y) && (w in x || w in y) && z != w
      ensures Final(x, y, A, B, z) != Final(x, y, A, B, w)
    {
      FinalsDiffer(s, x, y, A, B, z, w);
    }
  }

  // ---------------------------------------------------------------- packet sets

  /** Every entry of both inputs is merged, packet sets after their rewriting. */
  lemma AllMerged(o: Options, s: Section, a: Input, b: Input, index: nat, z: Entry)
    requires DefaultRules(o) && WellFormed(a.data) && WellFormed(b.data) && index < 2
    requires IdsAgree(s, SectionInput(o, s, a, b, 0), SectionInput(o, s, a, b, 1))
    requires z in SectionInput(o, s, a, b, index)
    ensures exists q :: q in MergedSection(o, s, a, b) && q.body == z.body
  {
    InputsOk(o, s, a, b);
    var x, y := SectionInput(o, s, a, b, 0), SectionInput(o, s, a, b, 1);
    var i := FinalSomewhere(o, s, Prefix(a), Prefix(b), x, y, z);
    assert MergedSection(o, s, a, b)[i].body == z.body;
  }

  /** Nothing else is merged. */
  lemma MergedFrom(o: Options, s: Section, a: Input, b: Input, q: Entry)
    requires DefaultRules(o) && WellFormed(a.data) && WellFormed(b.data)
    requires IdsAgree(s, SectionInput(o, s, a, b, 0), SectionInput(o, s, a, b, 1))
    requires q in MergedSection(o, s, a, b)
    ensures exists index, z :: 0 <= index < 2 && z in SectionInput(o, s, a, b, index) && q.body == z.body
  {
    InputsOk(o, s, a, b);
    var x, y := SectionInput(o, s, a, b, 0), SectionInput(o, s, a, b, 1);
    var m := MergedSection(o, s, a, b);
    MergedIds(o, s, Prefix(a), Prefix(b), x, y);
    var i :| 0 <= i < |m| && m[i] == q;
    FinalAt(o, s, Prefix(a), Prefix(b), x, y, i);
    var z := Union(o, s, x, y)[i];
    assert z in SectionInput(o, s, a, b, if z in x then 0 else 1);
  }

  /** Either input has a channel of this name. */
  ghost predicate ChannelNamed(a: Input, b: Input, n: string)
    requires WellFormed(a.data) && WellFormed(b.data)
  {
    exists c :: (c in ChannelList(a, b, 0) || c in ChannelList(a, b, 1)) && c.name == n
  }

  /** Every channel a packet set of either input mentions is a channel of one of them. */
  ghost predicate ReferencesKnown(a: Input, b: Input)
    requires WellFormed(a.data) && WellFormed(b.data)
  {
    forall index, e, n | 0 <= index < 2 && e in SetList(a, b, index) && e.body.PacketSet? && n in References(e) ::
      ChannelNamed(a, b, n)
  }

  /** The channels of a name of both are merged under both prefixes. */
  lemma PairMerged(o: Options, a: Input, b: Input, n: string, index: nat)
    requires DefaultRules(o) && WellFormed(a.data) && WellFormed(b.data) && index < 2
    requires IdsAgree(TelemetryChannels, ChannelList(a, b, 0), ChannelList(a, b, 1))
    requires NamePair(ChannelList(a, b, 0), ChannelList(a, b, 1), n)
    ensures Prefixed(if index == 0 then Prefix(a) else Prefix(b), n) in Names(MergedSection(o, TelemetryChannels, a, b))
  {
    var s, x, y := TelemetryChannels, ChannelList(a, b, 0), ChannelList(a, b, 1);
    var p, e :| p in x && e in y && p.name == n && e.name == n && p != e;
    if e in x {
      SameNameSame(s, x, p, e);
    }
    var i := FinalSomewhere(o, s, Prefix(a), Prefix(b), x, y, if index == 0 then p else e);
    assert Names(MergedSection(o, s, a, b))[i] == Prefixed(if index == 0 then Prefix(a) else Prefix(b), n);
  }

  /** A name that begins with no prefix is, once followed, a merged channel's exactly when it was a channel's. */
  lemma FollowedKnown(o: Options, a: Input, b: Input, index: nat, n: string)
    requires DefaultRules(o) && WellFormed(a.data) && WellFormed(b.data) && index < 2
    requires IdsAgree(TelemetryChannels, ChannelList(a, b, 0), ChannelList(a, b, 1))
    requires Unprefixed(Prefix(a).GetOr("None"), Prefix(b).GetOr("None"), n)
    ensures ChannelsOf(o, a, b).Name(index, n) in Names(MergedSection(o, TelemetryChannels, a, b))
      <==> ChannelNamed(a, b, n)
  {
    var s, x, y := TelemetryChannels, ChannelList(a, b, 0), ChannelList(a, b, 1);
    var ch := ChannelsOf(o, a, b);
    RenamedIsPairs(o, s, x, y, n);
    if n in ch.renamed {
      if n in ch.shared {
        SharedNameNotRenamed(o, x, y, n);
      }
      PairMerged(o, a, b, n, index);
    } else {
      assert ch.Name(index, n) == n;
      PlainKnown(o, s, Prefix(a), Prefix(b), x, y, n);
    }
  }

  lemma PlainKnown(o: Options, s: Section, pa: Option<string>, pb: Option<string>, x: seq<Entry>, y: seq<Entry>,
                   n: string)
    requires DefaultRules(o) && SectionOk(s, x) && SectionOk(s, y) && IdsAgree(s, x, y)
    requires Unprefixed(pa.GetOr("None"), pb.GetOr("None"), n) && !NamePair(x, y, n)
    ensures n in Names(MergeSection(o, s, pa, pb, x, y)) <==> exists c :: (c in x || c in y) && c.name == n
  {
    var m := MergeSection(o, s, pa, pb, x, y);
    if exists c :: (c in x || c in y) && c.name == n {
      var c :| (c in x || c in y) && c.name == n;
      var i := FinalSomewhere(o, s, pa, pb, x, y, c);
      assert Names(m)[i] == n;
    }
    if n in Names(m) {
      var i :| 0 <= i < |m| && Names(m)[i] == n;
      PlainAt(o, s, pa, pb, x, y, n, i);
    }
  }

  lemma PlainAt(o: Options, s: Section, pa: Option<string>, pb: Option<string>, x: seq<Entry>, y: seq<Entry>, n: string,
                i: nat)
    requires DefaultRules(o) && SectionOk(s, x) && SectionOk(s, y) && IdsAgree(s, x, y)
    requires Unprefixed(pa.GetOr("None"), pb.GetOr("None"), n)
    requires i < |MergeSection(o, s, pa, pb, x, y)| && MergeSection(o, s, pa, pb, x, y)[i].name == n
    ensures exists c :: (c in x || c in y) && c.name == n
  {
    MergedIds(o, s, pa, pb, x, y);
    assert |Union(o, s, x, y)| == |Ids(Union(o, s, x, y))| == |MergeSection(o, s, pa, pb, x, y)|;
    FinalAt(o, s, pa, pb, x, y, i);
    var z := Union(o, s, x, y)[i];
    FinalBegins(x, y, pa.GetOr("None"), pb.GetOr("None"), z);
    assert z.name == n;
  }

  lemma FinalBegins(x: seq<Entry>, y: seq<Entry>, A: string, B: string, z: Entry)
    ensures var f := Final(x, y, A, B, z); f == z.name || A + "." <= f || B + "." <= f
  {
    assert forall p: string :: p + "." <= p + "." + z.name;
  }

  lemma RewrittenShape(ch: Channels, index: nat, e: Entry)
    requires ch.dropped == {} && e.body.PacketSet?
    ensures ch.Rewritten(index, e).body
      == PacketSet(ch.FollowPackets(index, e.body.packets), ch.FollowNames(index, e.body.omitted), e.body.rest)
  {
    NothingLost(ch, index, e.body.packets);
    NothingOmitted(ch, index, e.body.omitted);
  }

  lemma FollowedReference(ch: Channels, index: nat, e: Entry, n: string)
    requires ch.dropped == {} && e.body.PacketSet? && n in References(e)
    ensures ch.Rewritten(index, e).body.PacketSet? && ch.Name(index, n) in References(ch.Rewritten(index, e))
  {
    RewrittenShape(ch, index, e);
    var was, now := e.body, ch.Rewritten(index, e).body;
    if n in was.omitted {
      var k :| 0 <= k < |was.omitted| && was.omitted[k] == n;
      assert now.omitted[k] == ch.Name(index, n);
    } else {
      var i, k :| 0 <= i < |was.packets| && 0 <= k < |was.packets[i].members| && was.packets[i].members[k] == n;
      assert now.packets[i].members[k] == ch.Name(index, n);
    }
  }

  lemma ReferenceFollowed(ch: Channels, index: nat, e: Entry, name: string) returns (n: string)
    requires ch.dropped == {} && e.body.PacketSet?
    requires ch.Rewritten(index, e).body.PacketSet? && name in References(ch.Rewritten(index, e))
    ensures n in References(e) && name == ch.Name(index, n)
  {
    RewrittenShape(ch, index, e);
    var was, now := e.body, ch.Rewritten(index, e).body;
    if name in now.omitted {
      var k :| 0 <= k < |now.omitted| && now.omitted[k] == name;
      n := was.omitted[k];
    } else {
      var i, k :| 0 <= i < |now.packets| && 0 <= k < |now.packets[i].members| && now.packets[i].members[k] == name;
      n := was.packets[i].members[k];
    }
  }

  // ---------------------------------------------------------------- the whole merge

  /** Prefixes that can be told apart, and no name or reference that already begins with one. */
  ghost predicate CleanNames(a: Input, b: Input)
    requires WellFormed(a.data) && WellFormed(b.data)
  {
    && Prefix(a).Some? && Prefix(b).Some? && Apart(Prefix(a).value, Prefix(b).value)
    && (forall s :: AllUnprefixed(Prefix(a).value, Prefix(b).value, a.data.entries[s]))
    && (forall s :: AllUnprefixed(Prefix(a).value, Prefix(b).value, b.data.entries[s]))
    && forall index, e, n | 0 <= index < 2 && e in SetList(a, b, index) && e.body.PacketSet? && n in References(e) ::
         Unprefixed(Prefix(a).value, Prefix(b).value, n)
  }

  /** Different definitions have different names. */
  ghost predicate DefinitionsAgree(x: seq<Definition>, y: seq<Definition>) {
    forall p, d | p in x && d in y && p.qualifiedName == d.qualifiedName :: p == d
  }

  lemma DefinitionsFailIff(o: Options, x: seq<Definition>, y: seq<Definition>)
    requires !o.preferPrimary && DefinitionsOk(x) && DefinitionsOk(y)
    ensures DefinitionsFail(o, x, y) <==> !DefinitionsAgree(x, y)
  {
    forall i | 0 <= i < |y|
      ensures DefinitionClash(x, y[i]) <==> exists p :: p in x && p.qualifiedName == y[i].qualifiedName && p != y[i] {
      ClashMeaning(x, y[i]);
    }
    if !DefinitionsAgree(x, y) {
      var p, d :| p in x && d in y && p.qualifiedName == d.qualifiedName && p != d;
      var i :| 0 <= i < |y| && y[i] == d;
      assert DefinitionClash(x, y[i]);
    }
  }

  lemma CleanInputs(o: Options, s: Section, a: Input, b: Input, index: nat)
    requires WellFormed(a.data) && WellFormed(b.data) && CleanNames(a, b) && index < 2
    ensures AllUnprefixed(Prefix(a).value, Prefix(b).value, SectionInput(o, s, a, b, index))
  {
  }

  lemma CleanSectionFailsIff(o: Options, s: Section, a: Input, b: Input)
    requires DefaultRules(o) && WellFormed(a.data) && WellFormed(b.data) && CleanNames(a, b)
    ensures var x, y := SectionInput(o, s, a, b, 0), SectionInput(o, s, a, b, 1);
      SectionFails(o, s, a, b, x, y) <==> !IdsAgree(s, x, y)
  {
    var x, y := SectionInput(o, s, a, b, 0), SectionInput(o, s, a, b, 1);
    InputsOk(o, s, a, b);
    CleanInputs(o, s, a, b, 0);
    CleanInputs(o, s, a, b, 1);
    SectionFailsIff(o, s, a, b, x, y);
    CleanNamesDistinct(s, x, y, Prefix(a).value, Prefix(b).value);
  }

  lemma UnknownIff(o: Options, a: Input, b: Input)
    requires DefaultRules(o) && WellFormed(a.data) && WellFormed(b.data) && CleanNames(a, b)
    requires IdsAgree(TelemetryChannels, ChannelList(a, b, 0), ChannelList(a, b, 1))
    ensures UnknownReference(MergedSection(o, TelemetryChannels, a, b), MergedSection(o, TelemetryPacketSets, a, b))
      <==> !ReferencesKnown(a, b)
  {
    var channels, sets := MergedSection(o, TelemetryChannels, a, b), MergedSection(o, TelemetryPacketSets, a, b);
    if !ReferencesKnown(a, b) {
      var index, e, n :| 0 <= index < 2 && e in SetList(a, b, index) && e.body.PacketSet? && n in References(e)
        && !ChannelNamed(a, b, n);
      UnknownStays(o, a, b, index, e, n);
    }
    if UnknownReference(channels, sets) {
      var i :| 0 <= i < |sets| && sets[i].body.PacketSet?
        && exists name | name in References(sets[i]) :: name !in Names(channels);
      var name :| name in References(sets[i]) && name !in Names(channels);
      UnknownBefore(o, a, b, sets[i], name);
    }
  }

  lemma NothingDropped(o: Options, a: Input, b: Input)
    requires DefaultRules(o) && WellFormed(a.data) && WellFormed(b.data)
    ensures ChannelsOf(o, a, b).dropped == {}
  {
  }

  lemma UnknownHere(channels: seq<Entry>, sets: seq<Entry>, q: Entry, name: string)
    requires q in sets && q.body.PacketSet? && name in References(q) && name !in Names(channels)
    ensures UnknownReference(channels, sets)
  {
    var i :| 0 <= i < |sets| && sets[i] == q;
  }

  lemma CleanReference(a: Input, b: Input, index: nat, e: Entry, n: string)
    requires WellFormed(a.data) && WellFormed(b.data) && CleanNames(a, b)
    requires index < 2 && e in SetList(a, b, index) && e.body.PacketSet? && n in References(e)
    ensures Unprefixed(Prefix(a).GetOr("None"), Prefix(b).GetOr("None"), n)
  {
  }

  lemma SameReferences(q: Entry, e: Entry)
    requires q.body == e.body && e.body.PacketSet?
    ensures References(q) == References(e)
  {
  }

  lemma UnknownStays(o: Options, a: Input, b: Input, index: nat, e: Entry, n: string)
    requires DefaultRules(o) && WellFormed(a.data) && WellFormed(b.data) && CleanNames(a, b)
    requires IdsAgree(TelemetryChannels, ChannelList(a, b, 0), ChannelList(a, b, 1))
    requires index < 2 && e in SetList(a, b, index) && e.body.PacketSet? && n in References(e)
    requires !ChannelNamed(a, b, n)
    ensures UnknownReference(MergedSection(o, TelemetryChannels, a, b), MergedSection(o, TelemetryPacketSets, a, b))
  {
    var now := ChannelsOf(o, a, b).Rewritten(index, e);
    NothingDropped(o, a, b);
    FollowedReference(ChannelsOf(o, a, b), index, e, n);
    CleanReference(a, b, index, e, n);
    FollowedKnown(o, a, b, index, n);
    RewrittenListed(o, a, b, index, e);
    AllMerged(o, TelemetryPacketSets, a, b, index, now);
    var q :| q in MergedSection(o, TelemetryPacketSets, a, b) && q.body == now.body;
    SameReferences(q, now);
    UnknownHere(MergedSection(o, TelemetryChannels, a, b), MergedSection(o, TelemetryPacketSets, a, b), q,
                ChannelsOf(o, a, b).Name(index, n));
  }

  lemma RewrittenListed(o: Options, a: Input, b: Input, index: nat, e: Entry)
    requires WellFormed(a.data) && WellFormed(b.data) && index < 2 && e in SetList(a, b, index)
    ensures ChannelsOf(o, a, b).Rewritten(index, e) in SectionInput(o, TelemetryPacketSets, a, b, index)
  {
    var k :| 0 <= k < |SetList(a, b, index)| && SetList(a, b, index)[k] == e;
    assert SectionInput(o, TelemetryPacketSets, a, b, index)[k] == ChannelsOf(o, a, b).Rewritten(index, e);
  }

  lemma RewrittenFrom(o: Options, a: Input, b: Input, q: Entry) returns (index: nat, e: Entry)
    requires DefaultRules(o) && WellFormed(a.data) && WellFormed(b.data)
    requires q in MergedSection(o, TelemetryPacketSets, a, b)
    ensures index < 2 && e in SetList(a, b, index) && e.body.PacketSet?
    ensures q.body == ChannelsOf(o, a, b).Rewritten(index, e).body
  {
    var s := TelemetryPacketSets;
    MergedFrom(o, s, a, b, q);
    var j, z :| 0 <= j < 2 && z in SectionInput(o, s, a, b, j) && q.body == z.body;
    index := j;
    var k :| 0 <= k < |SetList(a, b, index)| && SectionInput(o, s, a, b, index)[k] == z;
    e := SetList(a, b, index)[k];
    SetsArePacketSets(a, b, index, e);
  }

  lemma UnknownBefore(o: Options, a: Input, b: Input, q: Entry, name: string)
    requires DefaultRules(o) && WellFormed(a.data) && WellFormed(b.data) && CleanNames(a, b)
    requires IdsAgree(TelemetryChannels, ChannelList(a, b, 0), ChannelList(a, b, 1))
    requires q in MergedSection(o, TelemetryPacketSets, a, b) && q.body.PacketSet? && name in References(q)
    requires name !in Names(MergedSection(o, TelemetryChannels, a, b))
    ensures !ReferencesKnown(a, b)
  {
    var index, e := RewrittenFrom(o, a, b, q);
    NothingDropped(o, a, b);
    RewrittenShape(ChannelsOf(o, a, b), index, e);
    SameReferences(q, ChannelsOf(o, a, b).Rewritten(index, e));
    var n := ReferenceFollowed(ChannelsOf(o, a, b), index, e, name);
    CleanReference(a, b, index, e, n);
    FollowedKnown(o, a, b, index, n);
  }

  lemma AnyDefinitionsFail(o: Options, a: Input, b: Input)
    requires DefaultRules(o) && WellFormed(a.data) && WellFormed(b.data)
    ensures (exists s :: DefinitionsFail(o, a.data.definitions[s], b.data.definitions[s]))
      <==> !forall s :: DefinitionsAgree(a.data.definitions[s], b.data.definitions[s])
  {
    forall s ensures DefinitionsFail(o, a.data.definitions[s], b.data.definitions[s])
      <==> !DefinitionsAgree(a.data.definitions[s], b.data.definitions[s])
    {
      DefinitionsFailIff(o, a.data.definitions[s], b.data.definitions[s]);
    }
  }

  lemma AnySectionFails(o: Options, a: Input, b: Input)
    requires DefaultRules(o) && WellFormed(a.data) && WellFormed(b.data) && CleanNames(a, b)
    ensures (exists s :: SectionFails(o, s, a, b, SectionInput(o, s, a, b, 0), SectionInput(o, s, a, b, 1)))
      <==> !forall s | IdBearing(s) :: IdsAgree(s, a.data.entries[s], b.data.entries[s])
  {
    forall s ensures SectionFails(o, s, a, b, SectionInput(o, s, a, b, 0), SectionInput(o, s, a, b, 1))
      <==> IdBearing(s) && !IdsAgree(s, a.data.entries[s], b.data.entries[s])
    {
      CleanSectionFailsIff(o, s, a, b);
    }
  }

  /** Under the default rules, two well-formed inputs whose names do not begin with the prefixes merge if and only if
      the name asked for is a dotted identifier, the versions agree or need not, equal names mean equal definitions
      and equal ids equal entries, and every packet lists channels of one of them. Name collisions are no obstacle. */
  lemma DefaultMergeIff(o: Options, a: Input, b: Input)
    requires DefaultRules(o) && WellFormed(a.data) && WellFormed(b.data) && CleanNames(a, b)
    ensures !MergeFails(o, a, b) <==>
      && (o.name.Some? ==> DottedIdentifier(o.name.value))
      && (o.permissive || VersionsAgree(a.data.metadata, b.data.metadata))
      && (forall s :: DefinitionsAgree(a.data.definitions[s], b.data.definitions[s]))
      && (forall s | IdBearing(s) :: IdsAgree(s, a.data.entries[s], b.data.entries[s]))
      && ReferencesKnown(a, b)
  {
    AnyDefinitionsFail(o, a, b);
    AnySectionFails(o, a, b);
    assert !BadPrefixes(a, b);
    if IdsAgree(TelemetryChannels, ChannelList(a, b, 0), ChannelList(a, b, 1)) {
      UnknownIff(o, a, b);
    }
  }

  predicate VersionsAgree(a: Metadata, b: Metadata) {
    a.project == b.project && a.framework == b.framework && a.spec == b.spec
  }

  function CalledBy(m: Metadata): string {
    if m.deploymentName.Some? then m.deploymentName.value else "unknown"
  }

  /** The merged metadata are the primary's under the name asked for or one made of both names; what was checked
      holds. */
  lemma MetadataMerged(o: Options, a: Input, b: Input)
    requires !MergeFails(o, a, b)
    ensures var was, other, now := a.data.metadata, b.data.metadata, MergedDictionary(o, a, b).metadata;
      && now == was.(deploymentName := now.deploymentName)
      && (o.permissive || VersionsAgree(now, other))
      && (o.name.Some? ==> now.deploymentName == o.name && DottedIdentifier(o.name.value))
      && (o.name.None? ==>
            now.deploymentName == Some(CalledBy(was) + "_" + CalledBy(other) + "_merged"))
  {
  }

  /** Whatever the rules, every packet of a merged dictionary lists merged channels. */
  lemma ReferencesResolve(o: Options, a: Input, b: Input, q: Entry, n: string)
    requires !MergeFails(o, a, b) && q in MergedSection(o, TelemetryPacketSets, a, b)
    requires q.body.PacketSet? && n in References(q)
    ensures exists c :: c in MergedSection(o, TelemetryChannels, a, b) && c.name == n
  {
    var sets := MergedSection(o, TelemetryPacketSets, a, b);
    var i :| 0 <= i < |sets| && sets[i] == q;
    NameListed(MergedSection(o, TelemetryChannels, a, b), n);
  }

  // ---------------------------------------------------------------- order

  lemma {:induction false} KeptInOrder(o: Options, s: Section, x: seq<Entry>, y: seq<Entry>)
    ensures Sifts(Kept(o, s, x, y), y, (e: Entry) => Stays(o, Against(o, s, x, e)))
  {
    var p := (e: Entry) => Stays(o, Against(o, s, x, e));
    if y == [] {
      SiftsNothing(p);
    } else {
      var front, last := y[..|y| - 1], y[|y| - 1];
      assert y == front + [last];
      KeptInOrder(o, s, x, front);
      SiftsOneMore(Kept(o, s, x, front), front, last, p);
      assert Kept(o, s, x, y) == if p(last) then Kept(o, s, x, front) + [last] else Kept(o, s, x, front);
    }
  }

  /** A merged section lists the primary's entries and then some of the secondary's, both in their order; only names
      differ. */
  lemma SectionKeepsOrder(o: Options, s: Section, pa: Option<string>, pb: Option<string>, x: seq<Entry>, y: seq<Entry>)
    ensures var m := MergeSection(o, s, pa, pb, x, y);
      exists kept: seq<Entry> :: Subsequence(kept, y) && |m| == |x| + |kept|
        && (forall i | 0 <= i < |x| :: m[i] == x[i].(name := m[i].name))
        && (forall i | 0 <= i < |kept| :: m[|x| + i] == kept[i].(name := m[|x| + i].name))
  {
    KeptInOrder(o, s, x, y);
    var kept := Kept(o, s, x, y);
    assert Subsequence(kept, y);
  }

  lemma {:induction false} KeptDefinitionsInOrder(x: seq<Definition>, y: seq<Definition>)
    ensures Sifts(KeptDefinitions(x, y), y, (d: Definition) => d.qualifiedName !in DefinitionMap(x))
  {
    var p := (d: Definition) => d.qualifiedName !in DefinitionMap(x);
    if y == [] {
      SiftsNothing(p);
    } else {
      var front, last := y[..|y| - 1], y[|y| - 1];
      assert y == front + [last];
      KeptDefinitionsInOrder(x, front);
      SiftsOneMore(KeptDefinitions(x, front), front, last, p);
      assert KeptDefinitions(x, y) == if p(last) then KeptDefinitions(x, front) + [last] else KeptDefinitions(x, front);
    }
  }

  /** The definitions are the primary's and behind them those of the secondary whose names the primary does not
      define. */
  lemma DefinitionsKeepOrder(s: DefinitionSection, a: Input, b: Input)
    requires WellFormed(a.data) && WellFormed(b.data)
    ensures var x, y, m := a.data.definitions[s], b.data.definitions[s], MergedDefinitions(s, a, b);
      && |m| >= |x| && m[..|x|] == x
      && Sifts(m[|x|..], y, (d: Definition) => d.qualifiedName !in QualifiedNames(x))
  {
    var x, y := a.data.definitions[s], b.data.definitions[s];
    KeptDefinitionsInOrder(x, y);
    forall n ensures n in DefinitionMap(x) <==> n in QualifiedNames(x) {
      DefinitionNamed(x, n);
    }
    assert MergedDefinitions(s, a, b)[|x|..] == KeptDefinitions(x, y);
    SiftsSame(KeptDefinitions(x, y), y, (d: Definition) => d.qualifiedName !in DefinitionMap(x),
              (d: Definition) => d.qualifiedName !in QualifiedNames(x));
  }

  lemma DefinitionNamed(x: seq<Definition>, n: string)
    requires Distinct(QualifiedNames(x))
    ensures n in DefinitionMap(x) <==> n in QualifiedNames(x)
  {
    DefinitionMapFacts(x);
    if n in QualifiedNames(x) {
      var i :| 0 <= i < |x| && QualifiedNames(x)[i] == n;
      assert x[i].qualifiedName in DefinitionMap(x);
    }
    if n in DefinitionMap(x) {
      var i :| 0 <= i < |x| && x[i] == DefinitionMap(x)[n];
      assert QualifiedNames(x)[i] == n;
    }
  }

  lemma {:induction false} UnlostSifted(ch: Channels, index: nat, packets: seq<Packet>)
    ensures Sifts(ch.Unlost(index, packets), packets, p => !ch.Lost(index, p))
  {
    var p := (p: Packet) => !ch.Lost(index, p);
    if packets == [] {
      SiftsNothing(p);
    } else {
      var front, last := packets[..|packets| - 1], packets[|packets| - 1];
      assert packets == front + [last];
      UnlostSifted(ch, index, front);
      SiftsOneMore(ch.Unlost(index, front), front, last, p);
    }
  }

  /** The packets kept are those that list no dropped channel, in their order and number. */
  lemma UnlostInOrder(ch: Channels, index: nat, packets: seq<Packet>)
    ensures Sifts(ch.Unlost(index, packets), packets,
                  (p: Packet) => forall k | 0 <= k < |p.members| :: p.members[k] !in ch.DroppedFor(index))
  {
    UnlostSifted(ch, index, packets);
    SiftsSame(ch.Unlost(index, packets), packets, (p: Packet) => !ch.Lost(index, p),
              (p: Packet) => forall k | 0 <= k < |p.members| :: p.members[k] !in ch.DroppedFor(index));
  }

  lemma {:induction false} SurvivingInOrder(ch: Channels, index: nat, names: seq<string>)
    ensures Sifts(ch.Surviving(index, names), names, n => n !in ch.DroppedFor(index))
  {
    var p := (n: string) => n !in ch.DroppedFor(index);
    if names == [] {
      SiftsNothing(p);
    } else {
      var front, last := names[..|names| - 1], names[|names| - 1];
      assert names == front + [last];
      SurvivingInOrder(ch, index, front);
      SiftsOneMore(ch.Surviving(index, front), front, last, p);
    }
  }
}
