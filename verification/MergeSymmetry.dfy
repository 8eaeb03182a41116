/** Which input is the primary does not matter: with conflicts as errors and without prefixing everything, merging in
    either order succeeds on the same inputs and gives the same entries. */
module MergeSymmetry {
  import opened Bytes
  import opened Strings
  import opened MergeSpec
  import opened MergeTheorems

  /** The default treatment of conflicts and names. */
  predicate Even(o: Options) {
    !o.preferPrimary && !o.namespaceAll
  }

  /** Equal ids mean equal entries. */
  ghost predicate IdsAgree(s: Section, x: seq<Entry>, y: seq<Entry>) {
    IdBearing(s) ==> forall p, e | p in x && e in y && p.id == e.id :: p == e
  }

  /** Both have a different entry of this name. */
  ghost predicate NamePair(x: seq<Entry>, y: seq<Entry>, n: string) {
    exists p, e :: p in x && e in y && p.name == n && e.name == n && p != e
  }

  lemma NamePairSymmetric(x: seq<Entry>, y: seq<Entry>, n: string)
    ensures NamePair(x, y, n) <==> NamePair(y, x, n)
  {
  }

  /** With agreeing ids, a secondary entry is in a name conflict exactly when a different primary entry has its name. */
  lemma ConflictIsPair(o: Options, s: Section, x: seq<Entry>, y: seq<Entry>, e: Entry)
    requires Even(o) && SectionOk(s, x) && IdsAgree(s, x, y) && e in y
    ensures Against(o, s, x, e) == NameConflict <==> exists p :: p in x && p.name == e.name && p != e
    ensures Against(o, s, x, e) in {Identical, Unmatched, NameConflict}
    ensures Against(o, s, x, e) == Identical <==> e in x
  {
    VerdictMeaning(o, s, x, e);
    if e in x {
      forall p | p in x && p.name == e.name ensures p == e {
        SameNameSame(s, x, p, e);
      }
    }
  }

  lemma DisagreementConflicts(o: Options, s: Section, x: seq<Entry>, y: seq<Entry>)
    requires Even(o) && SectionOk(s, x) && !IdsAgree(s, x, y)
    ensures HasConflict(o, s, x, y)
  {
    var p, e :| p in x && e in y && p.id == e.id && p != e;
    var i :| 0 <= i < |y| && y[i] == e;
    VerdictMeaning(o, s, x, e);
    if e in x {
      SameNameSame(s, x, p, e);
    }
    assert Loses(o, Against(o, s, x, y[i]));
  }

  /** With agreeing ids, only a name can conflict, and only without namespacing. */
  lemma NamesConflict(o: Options, s: Section, x: seq<Entry>, y: seq<Entry>)
    requires Even(o) && SectionOk(s, x) && IdsAgree(s, x, y)
    ensures HasConflict(o, s, x, y) <==> o.noNamespace && exists n :: NamePair(x, y, n)
  {
    forall i | 0 <= i < |y| ensures Loses(o, Against(o, s, x, y[i])) ==> o.noNamespace && NamePair(x, y, y[i].name) {
      ConflictIsPair(o, s, x, y, y[i]);
    }
    if o.noNamespace && exists n :: NamePair(x, y, n) {
      var n :| NamePair(x, y, n);
      PairConflicts(o, s, x, y, n);
    }
  }

  lemma PairConflicts(o: Options, s: Section, x: seq<Entry>, y: seq<Entry>, n: string)
    requires Even(o) && o.noNamespace && SectionOk(s, x) && IdsAgree(s, x, y) && NamePair(x, y, n)
    ensures HasConflict(o, s, x, y)
  {
    var p, e :| p in x && e in y && p.name == n && e.name == n && p != e;
    var i :| 0 <= i < |y| && y[i] == e;
    ConflictIsPair(o, s, x, y, e);
    assert Loses(o, Against(o, s, x, y[i]));
  }

  lemma HasConflictMeaning(o: Options, s: Section, x: seq<Entry>, y: seq<Entry>)
    requires Even(o) && SectionOk(s, x) && SectionOk(s, y)
    ensures HasConflict(o, s, x, y) <==> !IdsAgree(s, x, y) || (o.noNamespace && exists n :: NamePair(x, y, n))
  {
    if IdsAgree(s, x, y) {
      NamesConflict(o, s, x, y);
    } else {
      DisagreementConflicts(o, s, x, y);
    }
  }

  lemma HasConflictSymmetric(o: Options, s: Section, x: seq<Entry>, y: seq<Entry>)
    requires Even(o) && SectionOk(s, x) && SectionOk(s, y)
    ensures HasConflict(o, s, x, y) <==> HasConflict(o, s, y, x)
  {
    HasConflictMeaning(o, s, x, y);
    HasConflictMeaning(o, s, y, x);
    forall n ensures NamePair(x, y, n) <==> NamePair(y, x, n) {
      NamePairSymmetric(x, y, n);
    }
  }

  lemma RenamedIsPairs(o: Options, s: Section, x: seq<Entry>, y: seq<Entry>, n: string)
    requires Even(o) && SectionOk(s, x) && IdsAgree(s, x, y)
    ensures n in Renamed(o, s, x, y) <==> !o.noNamespace && NamePair(x, y, n)
  {
    RenamedMeaning(o, s, x, y, n);
    if NamePair(x, y, n) {
      var p, e :| p in x && e in y && p.name == n && e.name == n && p != e;
      ConflictIsPair(o, s, x, y, e);
    }
    if exists e :: e in y && e.name == n && Against(o, s, x, e) == NameConflict {
      var e :| e in y && e.name == n && Against(o, s, x, e) == NameConflict;
      ConflictIsPair(o, s, x, y, e);
    }
  }

  lemma RenamedSymmetric(o: Options, s: Section, x: seq<Entry>, y: seq<Entry>)
    requires Even(o) && SectionOk(s, x) && SectionOk(s, y) && IdsAgree(s, x, y)
    ensures Renamed(o, s, x, y) == Renamed(o, s, y, x)
  {
    forall n ensures n in Renamed(o, s, x, y) <==> n in Renamed(o, s, y, x) {
      RenamedIsPairs(o, s, x, y, n);
      RenamedIsPairs(o, s, y, x, n);
      NamePairSymmetric(x, y, n);
    }
  }

  /** A name held by one shared entry is not renamed. */
  lemma SharedNotRenamed(o: Options, s: Section, x: seq<Entry>, y: seq<Entry>, z: Entry)
    requires Even(o) && SectionOk(s, x) && SectionOk(s, y) && IdsAgree(s, x, y) && z in x && z in y
    ensures z.name !in Renamed(o, s, x, y)
  {
    RenamedIsPairs(o, s, x, y, z.name);
    forall p, e | p in x && e in y && p.name == z.name && e.name == z.name ensures p == e {
      SameNameSame(s, x, p, z);
      SameNameSame(s, y, e, z);
    }
  }

  lemma UnionMembers(o: Options, s: Section, x: seq<Entry>, y: seq<Entry>, z: Entry)
    requires Even(o) && SectionOk(s, x) && SectionOk(s, y) && !HasConflict(o, s, x, y)
    ensures z in Union(o, s, x, y) <==> z in x || z in y
  {
    KeptMembers(o, s, x, y);
    HasConflictMeaning(o, s, x, y);
    if z in y {
      var i :| 0 <= i < |y| && y[i] == z;
      assert !Loses(o, Against(o, s, x, y[i]));
      ConflictIsPair(o, s, x, y, z);
    }
  }

  /** The name a merged entry carries depends on the entry alone. */
  function FinalName(o: Options, s: Section, pa: Option<string>, pb: Option<string>, x: seq<Entry>, y: seq<Entry>,
                     z: Entry): string {
    OutName(o, s, Renamed(o, s, x, y), if z in x then pa else pb, z.name)
  }

  lemma MergedAt(o: Options, s: Section, pa: Option<string>, pb: Option<string>, x: seq<Entry>, y: seq<Entry>, i: nat)
    requires SectionOk(s, x) && i < |Union(o, s, x, y)|
    ensures |MergeSection(o, s, pa, pb, x, y)| == |Union(o, s, x, y)|
    ensures var z := Union(o, s, x, y)[i];
      MergeSection(o, s, pa, pb, x, y)[i] == z.(name := FinalName(o, s, pa, pb, x, y, z))
  {
    var kept := Kept(o, s, x, y);
    if i >= |x| {
      var z := kept[i - |x|];
      assert z in kept;
      KeptMembers(o, s, x, y);
      VerdictMeaning(o, s, x, z);
    }
  }

  lemma FinalNameSymmetric(o: Options, s: Section, pa: Option<string>, pb: Option<string>, x: seq<Entry>,
                           y: seq<Entry>, z: Entry)
    requires Even(o) && SectionOk(s, x) && SectionOk(s, y) && IdsAgree(s, x, y) && (z in x || z in y)
    ensures FinalName(o, s, pa, pb, x, y, z) == FinalName(o, s, pb, pa, y, x, z)
  {
    RenamedSymmetric(o, s, x, y);
    if z in x && z in y {
      SharedNotRenamed(o, s, x, y, z);
    }
  }

  /** Where the other order puts the entry at position i. */
  lemma Counterpart(o: Options, s: Section, pa: Option<string>, pb: Option<string>, x: seq<Entry>, y: seq<Entry>,
                    i: nat)
      returns (j: nat)
    requires Even(o) && SectionOk(s, x) && SectionOk(s, y) && !HasConflict(o, s, x, y) && i < |Union(o, s, x, y)|
    ensures j < |Union(o, s, y, x)| && Union(o, s, y, x)[j] == Union(o, s, x, y)[i]
    ensures |MergeSection(o, s, pa, pb, x, y)| == |Union(o, s, x, y)|
    ensures |MergeSection(o, s, pb, pa, y, x)| == |Union(o, s, y, x)|
    ensures MergeSection(o, s, pb, pa, y, x)[j] == MergeSection(o, s, pa, pb, x, y)[i]
  {
    var z := Union(o, s, x, y)[i];
    assert z in Union(o, s, x, y);
    HasConflictSymmetric(o, s, x, y);
    HasConflictMeaning(o, s, x, y);
    UnionMembers(o, s, x, y, z);
    UnionMembers(o, s, y, x, z);
    j :| 0 <= j < |Union(o, s, y, x)| && Union(o, s, y, x)[j] == z;
    MergedAt(o, s, pa, pb, x, y, i);
    MergedAt(o, s, pb, pa, y, x, j);
    FinalNameSymmetric(o, s, pa, pb, x, y, z);
  }

  /** Both orders merge a section to the same entries. */
  lemma SectionSymmetric(o: Options, s: Section, pa: Option<string>, pb: Option<string>, x: seq<Entry>, y: seq<Entry>,
                         q: Entry)
    requires Even(o) && SectionOk(s, x) && SectionOk(s, y) && !HasConflict(o, s, x, y)
    ensures q in MergeSection(o, s, pa, pb, x, y) ==> q in MergeSection(o, s, pb, pa, y, x)
  {
    if q in MergeSection(o, s, pa, pb, x, y) {
      var m := MergeSection(o, s, pa, pb, x, y);
      var i :| 0 <= i < |m| && m[i] == q;
      var j := Counterpart(o, s, pa, pb, x, y, i);
      assert MergeSection(o, s, pb, pa, y, x)[j] == q;
    }
  }

  lemma NamesClashBoth(o: Options, s: Section, pa: Option<string>, pb: Option<string>, x: seq<Entry>, y: seq<Entry>)
    requires Even(o) && SectionOk(s, x) && SectionOk(s, y) && !HasConflict(o, s, x, y)
    requires !Distinct(Names(MergeSection(o, s, pa, pb, x, y)))
    ensures !Distinct(Names(MergeSection(o, s, pb, pa, y, x)))
  {
    var m, w := MergeSection(o, s, pa, pb, x, y), MergeSection(o, s, pb, pa, y, x);
    var i, j :| 0 <= i < j < |m| && Names(m)[i] == Names(m)[j];
    UnionDistinct(o, s, x, y);
    var i' := Counterpart(o, s, pa, pb, x, y, i);
    var j' := Counterpart(o, s, pa, pb, x, y, j);
    assert Union(o, s, x, y)[i] != Union(o, s, x, y)[j];
    assert Names(w)[i'] == Names(w)[j'] && i' != j';
  }

  lemma SectionFailsBoth(o: Options, s: Section, a: Input, b: Input, x: seq<Entry>, y: seq<Entry>)
    requires Even(o) && SectionOk(s, x) && SectionOk(s, y) && SectionFails(o, s, a, b, x, y)
    ensures SectionFails(o, s, b, a, y, x)
  {
    HasConflictSymmetric(o, s, x, y);
    if !HasConflict(o, s, x, y) {
      HasConflictMeaning(o, s, x, y);
      RenamedSymmetric(o, s, x, y);
      if !Distinct(Names(MergeSection(o, s, Prefix(a), Prefix(b), x, y))) {
        NamesClashBoth(o, s, Prefix(a), Prefix(b), x, y);
      }
    }
  }

  // ---------------------------------------------------------------- packet sets

  lemma {:induction false} NothingLost(ch: Channels, index: nat, packets: seq<Packet>)
    requires ch.dropped == {}
    ensures ch.Unlost(index, packets) == packets
  {
    if packets != [] {
      NothingLost(ch, index, packets[..|packets| - 1]);
      assert packets == packets[..|packets| - 1] + [packets[|packets| - 1]];
    }
  }

  lemma {:induction false} NothingOmitted(ch: Channels, index: nat, names: seq<string>)
    requires ch.dropped == {}
    ensures ch.Surviving(index, names) == names
  {
    if names != [] {
      NothingOmitted(ch, index, names[..|names| - 1]);
      assert names == names[..|names| - 1] + [names[|names| - 1]];
    }
  }

  /** Two orders, one table of channel names: input 0 of one is input 1 of the other. */
  ghost predicate SameTables(ab: Channels, ba: Channels) {
    && ab.dropped == {} && ba.dropped == {} && ab.renamed == ba.renamed && ab.o == ba.o
    && (forall n :: ab.Name(0, n) == ba.Name(1, n))
    && (forall n :: ab.Name(1, n) == ba.Name(0, n))
  }

  lemma TablesSymmetric(o: Options, a: Input, b: Input)
    requires Even(o) && WellFormed(a.data) && WellFormed(b.data)
    requires !HasConflict(o, TelemetryChannels, a.data.entries[TelemetryChannels], b.data.entries[TelemetryChannels])
    ensures SameTables(ChannelsOf(o, a, b), ChannelsOf(o, b, a))
  {
    var s := TelemetryChannels;
    var x, y := a.data.entries[s], b.data.entries[s];
    HasConflictMeaning(o, s, x, y);
    HasConflictSymmetric(o, s, x, y);
    HasConflictMeaning(o, s, y, x);
    RenamedSymmetric(o, s, x, y);
    forall n | n in Shared(o, x, y) ensures n !in Renamed(o, s, x, y) {
      SharedNameNotRenamed(o, x, y, n);
    }
    forall n | n in Shared(o, y, x) ensures n !in Renamed(o, s, y, x) {
      SharedNameNotRenamed(o, y, x, n);
    }
  }

  lemma SharedNameNotRenamed(o: Options, x: seq<Entry>, y: seq<Entry>, n: string)
    requires Even(o) && SectionOk(TelemetryChannels, x) && SectionOk(TelemetryChannels, y)
    requires IdsAgree(TelemetryChannels, x, y) && n in Shared(o, x, y)
    ensures n !in Renamed(o, TelemetryChannels, x, y)
  {
    var i :| 0 <= i < |y| && Against(o, TelemetryChannels, x, y[i]) == Identical && y[i].name == n;
    ConflictIsPair(o, TelemetryChannels, x, y, y[i]);
    SharedNotRenamed(o, TelemetryChannels, x, y, y[i]);
  }

  lemma RewrittenSymmetric(ab: Channels, ba: Channels, i: nat, j: nat, e: Entry)
    requires SameTables(ab, ba) && (i, j) in {(0, 1), (1, 0)}
    ensures ab.Rewritten(i, e) == ba.Rewritten(j, e)
  {
    if e.body.PacketSet? {
      var packets := e.body.packets;
      NothingLost(ab, i, packets);
      NothingLost(ba, j, packets);
      NothingOmitted(ab, i, e.body.omitted);
      NothingOmitted(ba, j, e.body.omitted);
      forall names: seq<string> ensures ab.FollowNames(i, names) == ba.FollowNames(j, names) {
      }
      assert ab.FollowPackets(i, packets) == ba.FollowPackets(j, packets);
    }
  }

  /** Following names asks for a prefix only when some channel is renamed. */
  lemma AskingIsRenaming(ch: Channels, index: nat, sets: seq<Entry>)
    requires !ch.o.namespaceAll && ch.AsksPrefix(index, sets)
    ensures ch.renamed != {}
  {
    var i :| 0 <= i < |sets| && ch.SetAsks(index, sets[i]);
    var packets := ch.Unlost(index, sets[i].body.packets);
    if ch.PacketsAsk(packets) {
      var k :| 0 <= k < |packets| && ch.NamesAsk(packets[k].members);
      var j :| 0 <= j < |packets[k].members| && packets[k].members[j] in ch.renamed;
    }
  }

  /** The lists to be merged are the same in both orders, with the roles exchanged. */
  lemma InputsSymmetric(o: Options, s: Section, a: Input, b: Input)
    requires Even(o) && WellFormed(a.data) && WellFormed(b.data)
    requires !HasConflict(o, TelemetryChannels, a.data.entries[TelemetryChannels], b.data.entries[TelemetryChannels])
    ensures SectionInput(o, s, a, b, 0) == SectionInput(o, s, b, a, 1)
    ensures SectionInput(o, s, a, b, 1) == SectionInput(o, s, b, a, 0)
  {
    if !IdBearing(s) {
      var ab, ba := ChannelsOf(o, a, b), ChannelsOf(o, b, a);
      TablesSymmetric(o, a, b);
      forall e ensures ab.Rewritten(0, e) == ba.Rewritten(1, e) && ab.Rewritten(1, e) == ba.Rewritten(0, e) {
        RewrittenSymmetric(ab, ba, 0, 1, e);
        RewrittenSymmetric(ab, ba, 1, 0, e);
      }
    }
  }

  lemma InputsOk(o: Options, s: Section, a: Input, b: Input)
    requires WellFormed(a.data) && WellFormed(b.data)
    ensures SectionOk(s, SectionInput(o, s, a, b, 0)) && SectionOk(s, SectionInput(o, s, a, b, 1))
  {
    if !IdBearing(s) {
      RewrittenSectionOk(o, a, b, 0);
      RewrittenSectionOk(o, a, b, 1);
    }
  }

  // ---------------------------------------------------------------- definitions

  lemma ClashMeaning(x: seq<Definition>, d: Definition)
    requires Distinct(QualifiedNames(x))
    ensures DefinitionClash(x, d) <==> exists p :: p in x && p.qualifiedName == d.qualifiedName && p != d
  {
    DefinitionMapFacts(x);
    forall p | p in x ensures p.qualifiedName in DefinitionMap(x) && DefinitionMap(x)[p.qualifiedName] == p {
      var i :| 0 <= i < |x| && x[i] == p;
    }
  }

  lemma DefinitionsFailBoth(o: Options, x: seq<Definition>, y: seq<Definition>)
    requires DefinitionsOk(x) && DefinitionsOk(y) && DefinitionsFail(o, x, y)
    ensures DefinitionsFail(o, y, x)
  {
    var i :| 0 <= i < |y| && DefinitionClash(x, y[i]);
    ClashMeaning(x, y[i]);
    var p :| p in x && p.qualifiedName == y[i].qualifiedName && p != y[i];
    var j :| 0 <= j < |x| && x[j] == p;
    ClashMeaning(y, x[j]);
    assert y[i] in y;
    assert DefinitionClash(y, x[j]);
  }

  // ---------------------------------------------------------------- the whole merge

  lemma NameListed(entries: seq<Entry>, n: string)
    ensures n in Names(entries) <==> exists e :: e in entries && e.name == n
  {
    if n in Names(entries) {
      var i :| 0 <= i < |entries| && Names(entries)[i] == n;
      assert entries[i] in entries;
    }
    if exists e :: e in entries && e.name == n {
      var e :| e in entries && e.name == n;
      var i :| 0 <= i < |entries| && entries[i] == e;
      assert Names(entries)[i] == n;
    }
  }

  lemma UnknownReferenceMoves(channels: seq<Entry>, sets: seq<Entry>, channels': seq<Entry>, sets': seq<Entry>)
    requires UnknownReference(channels, sets)
    requires forall q | q in sets :: q in sets'
    requires forall q | q in channels' :: q in channels
    ensures UnknownReference(channels', sets')
  {
    var i :| 0 <= i < |sets| && sets[i].body.PacketSet?
      && exists name | name in References(sets[i]) :: name !in Names(channels);
    var name :| name in References(sets[i]) && name !in Names(channels);
    assert sets[i] in sets;
    var j :| 0 <= j < |sets'| && sets'[j] == sets[i];
    NameListed(channels, name);
    NameListed(channels', name);
  }

  lemma MergedSectionSymmetric(o: Options, s: Section, a: Input, b: Input)
    requires Even(o) && WellFormed(a.data) && WellFormed(b.data)
    requires !HasConflict(o, TelemetryChannels, a.data.entries[TelemetryChannels], b.data.entries[TelemetryChannels])
    requires !HasConflict(o, s, SectionInput(o, s, a, b, 0), SectionInput(o, s, a, b, 1))
    ensures forall q :: q in MergedSection(o, s, a, b) <==> q in MergedSection(o, s, b, a)
  {
    var x, y := SectionInput(o, s, a, b, 0), SectionInput(o, s, a, b, 1);
    InputsSymmetric(o, s, a, b);
    InputsOk(o, s, a, b);
    HasConflictSymmetric(o, s, x, y);
    forall q ensures q in MergedSection(o, s, a, b) <==> q in MergedSection(o, s, b, a) {
      SectionSymmetric(o, s, Prefix(a), Prefix(b), x, y, q);
      SectionSymmetric(o, s, Prefix(b), Prefix(a), y, x, q);
    }
  }

  /** Some section, or its need for prefixes, records an error. */
  ghost predicate SomeSectionFails(o: Options, a: Input, b: Input)
    requires WellFormed(a.data) && WellFormed(b.data)
  {
    exists s :: SectionFails(o, s, a, b, SectionInput(o, s, a, b, 0), SectionInput(o, s, a, b, 1))
  }

  lemma SomeSectionFailsBoth(o: Options, a: Input, b: Input)
    requires Even(o) && WellFormed(a.data) && WellFormed(b.data) && SomeSectionFails(o, a, b)
    ensures SomeSectionFails(o, b, a)
  {
    var c := TelemetryChannels;
    var x, y := a.data.entries[c], b.data.entries[c];
    if HasConflict(o, c, x, y) {
      HasConflictSymmetric(o, c, x, y);
      assert SectionFails(o, c, b, a, SectionInput(o, c, b, a, 0), SectionInput(o, c, b, a, 1));
    } else {
      var s :| SectionFails(o, s, a, b, SectionInput(o, s, a, b, 0), SectionInput(o, s, a, b, 1));
      InputsSymmetric(o, s, a, b);
      InputsOk(o, s, a, b);
      SectionFailsBoth(o, s, a, b, SectionInput(o, s, a, b, 0), SectionInput(o, s, a, b, 1));
      assert SectionFails(o, s, b, a, SectionInput(o, s, b, a, 0), SectionInput(o, s, b, a, 1));
    }
  }

  lemma NoSectionConflict(o: Options, s: Section, a: Input, b: Input)
    requires WellFormed(a.data) && WellFormed(b.data) && !SomeSectionFails(o, a, b)
    ensures !HasConflict(o, s, SectionInput(o, s, a, b, 0), SectionInput(o, s, a, b, 1))
  {
    assert !SectionFails(o, s, a, b, SectionInput(o, s, a, b, 0), SectionInput(o, s, a, b, 1));
  }

  lemma FailsBoth(o: Options, a: Input, b: Input)
    requires Even(o) && MergeFails(o, a, b)
    ensures MergeFails(o, b, a)
  {
    if WellFormed(a.data) && WellFormed(b.data) {
      if exists s :: DefinitionsFail(o, a.data.definitions[s], b.data.definitions[s]) {
        var s :| DefinitionsFail(o, a.data.definitions[s], b.data.definitions[s]);
        DefinitionsFailBoth(o, a.data.definitions[s], b.data.definitions[s]);
      } else if SomeSectionFails(o, a, b) {
        SomeSectionFailsBoth(o, a, b);
      } else if !MetadataFails(o, a.data.metadata, b.data.metadata) {
        NoPrefixTrouble(o, a, b);
        LateFailsBoth(o, a, b);
      }
    }
  }

  lemma LateFailsBoth(o: Options, a: Input, b: Input)
    requires Even(o) && WellFormed(a.data) && WellFormed(b.data) && !SomeSectionFails(o, a, b)
    requires UnknownReference(MergedSection(o, TelemetryChannels, a, b), MergedSection(o, TelemetryPacketSets, a, b))
    ensures MergeFails(o, b, a)
  {
    NoSectionConflict(o, TelemetryChannels, a, b);
    NoSectionConflict(o, TelemetryPacketSets, a, b);
    MergedSectionSymmetric(o, TelemetryChannels, a, b);
    MergedSectionSymmetric(o, TelemetryPacketSets, a, b);
    UnknownReferenceMoves(MergedSection(o, TelemetryChannels, a, b), MergedSection(o, TelemetryPacketSets, a, b),
                          MergedSection(o, TelemetryChannels, b, a), MergedSection(o, TelemetryPacketSets, b, a));
  }

  /** Once the channels are merged without error, rewriting the packet sets finds no new trouble with prefixes. */
  lemma NoPrefixTrouble(o: Options, a: Input, b: Input)
    requires Even(o) && WellFormed(a.data) && WellFormed(b.data) && !SomeSectionFails(o, a, b)
    ensures BadPrefixes(a, b) ==> forall index, sets :: !ChannelsOf(o, a, b).AsksPrefix(index, sets)
  {
    var c := TelemetryChannels;
    var ch := ChannelsOf(o, a, b);
    assert !SectionFails(o, c, a, b, SectionInput(o, c, a, b, 0), SectionInput(o, c, a, b, 1));
    forall index, sets | ch.AsksPrefix(index, sets) ensures ch.renamed != {} {
      AskingIsRenaming(ch, index, sets);
    }
  }

  /** Without `prefer_primary` and `namespace_all`, a merge succeeds exactly when the merge in the other order does, and
      then every section of the two results holds the same entries: same ids, same bodies, same possibly prefixed names,
      packet sets included; and the same definitions. */
  lemma MergeIsSymmetric(o: Options, a: Input, b: Input)
    requires Even(o)
    ensures MergeFails(o, a, b) <==> MergeFails(o, b, a)
    ensures !MergeFails(o, a, b) ==> forall s, q :: q in MergedSection(o, s, a, b) <==> q in MergedSection(o, s, b, a)
    ensures !MergeFails(o, a, b) ==> forall s, d :: d in MergedDefinitions(s, a, b) <==> d in MergedDefinitions(s, b, a)
  {
    if MergeFails(o, a, b) {
      FailsBoth(o, a, b);
    } else if MergeFails(o, b, a) {
      FailsBoth(o, b, a);
    } else {
      NoSectionConflict(o, TelemetryChannels, a, b);
      forall s, q ensures q in MergedSection(o, s, a, b) <==> q in MergedSection(o, s, b, a) {
        NoSectionConflict(o, s, a, b);
        MergedSectionSymmetric(o, s, a, b);
      }
      forall s, d ensures d in MergedDefinitions(s, a, b) <==> d in MergedDefinitions(s, b, a) {
        DefinitionsUnited(o, s, a, b);
        DefinitionsUnited(o, s, b, a);
      }
    }
  }

  // ---------------------------------------------------------------- why the two options are excluded

  /** q is the one entry of its id. */
  ghost predicate OnlyOfItsId(m: seq<Entry>, q: Entry) {
    forall r: Entry | r.id == q.id :: r in m <==> r == q
  }

  /** The two sections hold the same entries of this id. */
  ghost predicate AgreeOnId(m: seq<Entry>, w: seq<Entry>, id: Option<int>) {
    forall q: Entry | q.id == id :: q in m <==> q in w
  }

  /** Of an id the primary holds, the merged section has only the primary's entry. */
  lemma PrimaryHoldsId(o: Options, s: Section, pa: Option<string>, pb: Option<string>, x: seq<Entry>, y: seq<Entry>,
                       p: Entry)
    requires IdBearing(s) && SectionOk(s, x) && p in x
    ensures OnlyOfItsId(MergeSection(o, s, pa, pb, x, y), Out(o, s, pa, pb, x, y, 0, p))
  {
    MergedMembers(o, s, pa, pb, x, y);
    KeptMembers(o, s, x, y);
    forall e | e in Kept(o, s, x, y) ensures e.id != p.id {
      VerdictMeaning(o, s, x, e);
    }
    forall r | r in x && r.id == p.id ensures r == p {
      SameNameSame(s, x, r, p);
    }
  }

  /** With `namespace_all`, an entry both inputs share carries the primary's prefix: the two orders agree on its id if
      and only if the prefixes are equal. */
  lemma NamespaceAllFollowsPrimary(o: Options, s: Section, pa: Option<string>, pb: Option<string>, x: seq<Entry>,
                                   y: seq<Entry>, e: Entry)
    requires o.namespaceAll && IdBearing(s) && SectionOk(s, x) && SectionOk(s, y) && e in x && e in y
    ensures AgreeOnId(MergeSection(o, s, pa, pb, x, y), MergeSection(o, s, pb, pa, y, x), e.id)
      <==> pa.GetOr("None") == pb.GetOr("None")
  {
    PrimaryHoldsId(o, s, pa, pb, x, y, e);
    PrimaryHoldsId(o, s, pb, pa, y, x, e);
    var q, r := Out(o, s, pa, pb, x, y, 0, e), Out(o, s, pb, pa, y, x, 0, e);
    assert q.name == Prefixed(pa, e.name) && r.name == Prefixed(pb, e.name);
    SamePrefixed(pa.GetOr("None"), pb.GetOr("None"), e.name);
    assert q.id == e.id && q in MergeSection(o, s, pa, pb, x, y);
  }

  /** Of an id both inputs use, each order has only its first input's entry, so the two agree on it if and only if those
      two entries carry the same name and body in the merge; with `prefer_primary` this is no conflict. */
  lemma PreferPrimaryKeepsPrimary(o: Options, s: Section, pa: Option<string>, pb: Option<string>, x: seq<Entry>,
                                  y: seq<Entry>, p: Entry, e: Entry)
    requires IdBearing(s) && SectionOk(s, x) && SectionOk(s, y) && p in x && e in y && p.id == e.id
    ensures OnlyOfItsId(MergeSection(o, s, pa, pb, x, y), Out(o, s, pa, pb, x, y, 0, p))
    ensures OnlyOfItsId(MergeSection(o, s, pb, pa, y, x), Out(o, s, pb, pa, y, x, 0, e))
    ensures AgreeOnId(MergeSection(o, s, pa, pb, x, y), MergeSection(o, s, pb, pa, y, x), p.id)
      <==> Out(o, s, pa, pb, x, y, 0, p) == Out(o, s, pb, pa, y, x, 0, e)
    ensures o.preferPrimary ==> !HasConflict(o, s, x, y) && !HasConflict(o, s, y, x)
  {
    PrimaryHoldsId(o, s, pa, pb, x, y, p);
    PrimaryHoldsId(o, s, pb, pa, y, x, e);
    var q := Out(o, s, pa, pb, x, y, 0, p);
    assert q.id == p.id && q in MergeSection(o, s, pa, pb, x, y);
  }
}
