/** What a merge preserves. */
module MergeTheorems {
  import opened Bytes
  import opened MergeSpec

  // ---------------------------------------------------------------- look-up tables

  lemma {:induction false} NameMapFacts(entries: seq<Entry>)
    requires Distinct(Names(entries))
    ensures forall i | 0 <= i < |entries| ::
      entries[i].name in NameMap(entries) && NameMap(entries)[entries[i].name] == entries[i]
    ensures forall n | n in NameMap(entries) :: NameMap(entries)[n] in entries && NameMap(entries)[n].name == n
  {
    if entries != [] {
      var k := |entries| - 1;
      DistinctShorter(entries);
      NameMapFacts(entries[..k]);
      forall i | 0 <= i < k ensures entries[i].name != entries[k].name {
        assert Names(entries)[i] != Names(entries)[k];
      }
      assert forall e | e in entries[..k] :: e in entries;
      assert forall i | 0 <= i < k :: entries[..k][i] == entries[i];
    }
  }

  lemma DistinctShorter(entries: seq<Entry>)
    requires entries != []
    ensures Distinct(Names(entries)) ==> Distinct(Names(entries[..|entries| - 1]))
    ensures Distinct(Ids(entries)) ==> Distinct(Ids(entries[..|entries| - 1]))
  {
    assert Names(entries[..|entries| - 1]) == Names(entries)[..|entries| - 1];
    assert Ids(entries[..|entries| - 1]) == Ids(entries)[..|entries| - 1];
  }

  lemma {:induction false} IdMapFacts(entries: seq<Entry>)
    requires Distinct(Ids(entries))
    ensures forall i | 0 <= i < |entries| ::
      entries[i].id in IdMap(entries) && IdMap(entries)[entries[i].id] == entries[i]
    ensures forall n | n in IdMap(entries) :: IdMap(entries)[n] in entries && IdMap(entries)[n].id == n
  {
    if entries != [] {
      var k := |entries| - 1;
      DistinctShorter(entries);
      IdMapFacts(entries[..k]);
      forall i | 0 <= i < k ensures entries[i].id != entries[k].id {
        assert Ids(entries)[i] != Ids(entries)[k];
      }
      assert forall e | e in entries[..k] :: e in entries;
      assert forall i | 0 <= i < k :: entries[..k][i] == entries[i];
    }
  }

  // ---------------------------------------------------------------- what the verdicts mean

  /** Some primary entry has this id. */
  ghost predicate SameId(s: Section, primary: seq<Entry>, e: Entry) {
    IdBearing(s) && exists p :: p in primary && p.id == e.id
  }

  ghost predicate SameName(primary: seq<Entry>, e: Entry) {
    exists p :: p in primary && p.name == e.name
  }

  lemma SameNameSame(s: Section, entries: seq<Entry>, p: Entry, q: Entry)
    requires SectionOk(s, entries) && p in entries && q in entries
    ensures p.name == q.name ==> p == q
    ensures IdBearing(s) && p.id == q.id ==> p == q
  {
    var i :| 0 <= i < |entries| && entries[i] == p;
    var j :| 0 <= j < |entries| && entries[j] == q;
    assert Names(entries)[i] == p.name && Names(entries)[j] == q.name;
    assert Ids(entries)[i] == p.id && Ids(entries)[j] == q.id;
  }

  lemma LookUps(s: Section, primary: seq<Entry>, e: Entry)
    requires SectionOk(s, primary)
    ensures e.name in NameMap(primary) <==> SameName(primary, e)
    ensures e.name in NameMap(primary) ==>
      NameMap(primary)[e.name] in primary && NameMap(primary)[e.name].name == e.name
    ensures IdBearing(s) ==> (e.id in IdMap(primary) <==> SameId(s, primary, e))
    ensures IdBearing(s) && e.id in IdMap(primary) ==>
      IdMap(primary)[e.id] in primary && IdMap(primary)[e.id].id == e.id
  {
    NameMapFacts(primary);
    if IdBearing(s) {
      IdMapFacts(primary);
    }
  }

  /** The verdicts, read without the tables. */
  lemma VerdictMeaning(o: Options, s: Section, primary: seq<Entry>, e: Entry)
    requires SectionOk(s, primary)
    ensures var v := Against(o, s, primary, e);
      && (v == Identical <==> e in primary)
      && (v in {DefinitionConflict, IdConflict} <==> e !in primary && SameId(s, primary, e))
      && (v == DefinitionConflict ==> exists p :: p in primary && p.id == e.id && p.name == e.name)
      && (v == NameConflict <==>
        e !in primary && !SameId(s, primary, e) && SameName(primary, e) && !(IdBearing(s) && o.namespaceAll))
      && (Stays(o, v) ==> e !in primary && !SameId(s, primary, e))
  {
    LookUps(s, primary, e);
    if e in primary {
      SameNameSame(s, primary, e, NameMap(primary)[e.name]);
    }
  }

  lemma {:induction false} KeptMembers(o: Options, s: Section, primary: seq<Entry>, secondary: seq<Entry>)
    ensures forall x :: x in Kept(o, s, primary, secondary) <==> x in secondary && Stays(o, Against(o, s, primary, x))
  {
    if secondary != [] {
      KeptMembers(o, s, primary, secondary[..|secondary| - 1]);
      assert forall x :: x in secondary <==> x in secondary[..|secondary| - 1] || x == secondary[|secondary| - 1];
    }
  }

  lemma {:induction false} KeptDistinct(o: Options, s: Section, primary: seq<Entry>, secondary: seq<Entry>)
    requires Distinct(secondary)
    ensures Distinct(Kept(o, s, primary, secondary))
  {
    if secondary != [] {
      var k := |secondary| - 1;
      KeptDistinct(o, s, primary, secondary[..k]);
      KeptMembers(o, s, primary, secondary[..k]);
      assert secondary[k] !in secondary[..k];
    }
  }

  lemma SectionDistinct(s: Section, entries: seq<Entry>)
    requires SectionOk(s, entries)
    ensures Distinct(entries)
  {
    forall i, j | 0 <= i < j < |entries| ensures entries[i] != entries[j] {
      assert Names(entries)[i] != Names(entries)[j];
    }
  }

  /** The entries of a merged section before they are renamed. */
  function Union(o: Options, s: Section, primary: seq<Entry>, secondary: seq<Entry>): seq<Entry> {
    primary + Kept(o, s, primary, secondary)
  }

  lemma UnionDistinct(o: Options, s: Section, primary: seq<Entry>, secondary: seq<Entry>)
    requires SectionOk(s, primary) && SectionOk(s, secondary)
    ensures Distinct(Union(o, s, primary, secondary))
    ensures IdBearing(s) ==> Distinct(Ids(Union(o, s, primary, secondary)))
  {
    SectionDistinct(s, primary);
    SectionDistinct(s, secondary);
    KeptDistinct(o, s, primary, secondary);
    KeptMembers(o, s, primary, secondary);
    var u := Union(o, s, primary, secondary);
    forall i, j | 0 <= i < j < |u| ensures u[i] != u[j] && (IdBearing(s) ==> u[i].id != u[j].id) {
      UnionPair(o, s, primary, secondary, i, j);
    }
    forall i, j | IdBearing(s) && 0 <= i < j < |u| ensures Ids(u)[i] != Ids(u)[j] {
    }
  }

  lemma UnionPair(o: Options, s: Section, primary: seq<Entry>, secondary: seq<Entry>, i: nat, j: nat)
    requires SectionOk(s, primary) && SectionOk(s, secondary)
    requires i < j < |Union(o, s, primary, secondary)|
    requires Distinct(primary) && Distinct(Kept(o, s, primary, secondary))
    requires forall x :: x in Kept(o, s, primary, secondary) <==> x in secondary && Stays(o, Against(o, s, primary, x))
    ensures var u := Union(o, s, primary, secondary); u[i] != u[j] && (IdBearing(s) ==> u[i].id != u[j].id)
  {
    var u, kept := Union(o, s, primary, secondary), Kept(o, s, primary, secondary);
    var x, y := u[i], u[j];
    if j < |primary| {
      SameNameSame(s, primary, x, y);
    } else {
      assert y == kept[j - |primary|] && y in kept;
      VerdictMeaning(o, s, primary, y);
      if i < |primary| {
        assert x in primary;
      } else {
        assert x == kept[i - |primary|] && x in kept;
        SameNameSame(s, secondary, x, y);
      }
    }
  }

  // ---------------------------------------------------------------- the merged section

  lemma RenamedMeaning(o: Options, s: Section, primary: seq<Entry>, secondary: seq<Entry>, n: string)
    requires SectionOk(s, primary)
    ensures n in Renamed(o, s, primary, secondary) <==>
      !o.noNamespace && exists e :: e in secondary && e.name == n && Against(o, s, primary, e) == NameConflict
  {
    if n in Renamed(o, s, primary, secondary) {
      var i :| 0 <= i < |secondary| && Against(o, s, primary, secondary[i]) == NameConflict && secondary[i].name == n;
      assert secondary[i] in secondary;
    }
    if exists e :: e in secondary && e.name == n && Against(o, s, primary, e) == NameConflict {
      var e :| e in secondary && e.name == n && Against(o, s, primary, e) == NameConflict;
      var i :| 0 <= i < |secondary| && secondary[i] == e;
    }
  }

  /** An entry of input `index` under its output name. */
  function Out(o: Options, s: Section, pa: Option<string>, pb: Option<string>, primary: seq<Entry>,
               secondary: seq<Entry>, index: nat, e: Entry): Entry {
    e.(name := OutName(o, s, Renamed(o, s, primary, secondary), if index == 0 then pa else pb, e.name))
  }

  /** The merged section holds the primary's entries and the secondary's that stay, under their output names. */
  lemma MergedMembers(o: Options, s: Section, pa: Option<string>, pb: Option<string>, primary: seq<Entry>,
                      secondary: seq<Entry>)
    ensures var m := MergeSection(o, s, pa, pb, primary, secondary);
      forall x :: x in m <==>
        (exists p :: p in primary && x == Out(o, s, pa, pb, primary, secondary, 0, p))
        || (exists e :: e in Kept(o, s, primary, secondary) && x == Out(o, s, pa, pb, primary, secondary, 1, e))
  {
    var m := MergeSection(o, s, pa, pb, primary, secondary);
    var kept := Kept(o, s, primary, secondary);
    forall p | p in primary ensures Out(o, s, pa, pb, primary, secondary, 0, p) in m {
      var i :| 0 <= i < |primary| && primary[i] == p;
      assert m[i] == Out(o, s, pa, pb, primary, secondary, 0, p);
    }
    forall e | e in kept ensures Out(o, s, pa, pb, primary, secondary, 1, e) in m {
      var i :| 0 <= i < |kept| && kept[i] == e;
      assert m[|primary| + i] == Out(o, s, pa, pb, primary, secondary, 1, e);
    }
    forall x | x in m
      ensures (exists p :: p in primary && x == Out(o, s, pa, pb, primary, secondary, 0, p))
        || (exists e :: e in kept && x == Out(o, s, pa, pb, primary, secondary, 1, e))
    {
      var i :| 0 <= i < |m| && m[i] == x;
      if i < |primary| {
        assert primary[i] in primary && x == Out(o, s, pa, pb, primary, secondary, 0, primary[i]);
      } else {
        assert kept[i - |primary|] in kept && x == Out(o, s, pa, pb, primary, secondary, 1, kept[i - |primary|]);
      }
    }
  }

  lemma NameHeldOnce(entries: seq<Entry>, x: Entry, y: Entry)
    requires Distinct(Names(entries)) && x in entries && y in entries && x.name == y.name
    ensures x == y
  {
    var i :| 0 <= i < |entries| && entries[i] == x;
    var j :| 0 <= j < |entries| && entries[j] == y;
    assert Names(entries)[i] == Names(entries)[j];
  }

  /** m holds every entry of x under its output name, with its id and body, every entry of y that is one of x's or loses
      no conflict, and nothing else; when conflicts are errors its ids are the ids of x and y together. */
  ghost predicate UnitedIn(o: Options, s: Section, pa: Option<string>, pb: Option<string>, x: seq<Entry>, y: seq<Entry>,
                           m: seq<Entry>) {
    && (forall p | p in x :: Out(o, s, pa, pb, x, y, 0, p) in m)
    && (forall e | e in y :: Against(o, s, x, e) == Identical ==> Out(o, s, pa, pb, x, y, 0, e) in m)
    && (forall e | e in y :: Stays(o, Against(o, s, x, e)) ==> Out(o, s, pa, pb, x, y, 1, e) in m)
    && (forall q | q in m :: (exists p :: p in x && q == Out(o, s, pa, pb, x, y, 0, p))
                             || (exists e :: e in y && q == Out(o, s, pa, pb, x, y, 1, e)))
    && (!o.preferPrimary ==> forall id :: HasId(m, id) <==> HasId(x, id) || HasId(y, id))
  }

  lemma MergedIds(o: Options, s: Section, pa: Option<string>, pb: Option<string>, x: seq<Entry>, y: seq<Entry>)
    ensures Ids(MergeSection(o, s, pa, pb, x, y)) == Ids(Union(o, s, x, y))
  {
  }

  lemma SectionSucceeds(o: Options, s: Section, a: Input, b: Input)
    requires !MergeFails(o, a, b) && IdBearing(s)
    ensures SectionOk(s, a.data.entries[s]) && SectionOk(s, b.data.entries[s])
    ensures !HasConflict(o, s, a.data.entries[s], b.data.entries[s]) && Distinct(Names(MergedSection(o, s, a, b)))
  {
    assert !SectionFails(o, s, a, b, SectionInput(o, s, a, b, 0), SectionInput(o, s, a, b, 1));
  }

  /** A successful merge is a conservative union, section by section, with unique ids and names. Without
      `prefer_primary` the ids are the union of the inputs' ids. */
  lemma MergeIsConservativeUnion(o: Options, s: Section, a: Input, b: Input)
    requires !MergeFails(o, a, b) && IdBearing(s)
    ensures var m := MergedSection(o, s, a, b);
      && Distinct(Ids(m)) && Distinct(Names(m))
      && UnitedIn(o, s, Prefix(a), Prefix(b), a.data.entries[s], b.data.entries[s], m)
  {
    var m := MergedSection(o, s, a, b);
    var x, y := a.data.entries[s], b.data.entries[s];
    SectionSucceeds(o, s, a, b);
    UnionDistinct(o, s, x, y);
    MergedIds(o, s, Prefix(a), Prefix(b), x, y);
    SectionUnited(o, s, Prefix(a), Prefix(b), x, y);
  }

  lemma SectionUnited(o: Options, s: Section, pa: Option<string>, pb: Option<string>, x: seq<Entry>, y: seq<Entry>)
    requires SectionOk(s, x) && !HasConflict(o, s, x, y)
    ensures UnitedIn(o, s, pa, pb, x, y, MergeSection(o, s, pa, pb, x, y))
  {
    var m := MergeSection(o, s, pa, pb, x, y);
    EntriesUnited(o, s, pa, pb, x, y, m);
    if !o.preferPrimary {
      forall e | e in y ensures Out(o, s, pa, pb, x, y, 0, e) in m || Out(o, s, pa, pb, x, y, 1, e) in m {
        NoConflictAt(o, s, x, y, e);
      }
      IdsUnited(o, s, pa, pb, x, y, m);
    }
  }

  lemma NoConflictAt(o: Options, s: Section, x: seq<Entry>, y: seq<Entry>, e: Entry)
    requires !o.preferPrimary && !HasConflict(o, s, x, y) && e in y
    ensures Against(o, s, x, e) == Identical || Stays(o, Against(o, s, x, e))
  {
    var i :| 0 <= i < |y| && y[i] == e;
    assert !Loses(o, Against(o, s, x, y[i]));
  }

  /** All of the union but its ids. */
  lemma EntriesUnited(o: Options, s: Section, pa: Option<string>, pb: Option<string>, x: seq<Entry>, y: seq<Entry>,
                      m: seq<Entry>)
    requires SectionOk(s, x) && m == MergeSection(o, s, pa, pb, x, y)
    ensures forall p | p in x :: Out(o, s, pa, pb, x, y, 0, p) in m
    ensures forall e | e in y :: Against(o, s, x, e) == Identical ==> Out(o, s, pa, pb, x, y, 0, e) in m
    ensures forall e | e in y :: Stays(o, Against(o, s, x, e)) ==> Out(o, s, pa, pb, x, y, 1, e) in m
    ensures forall q | q in m :: (exists p :: p in x && q == Out(o, s, pa, pb, x, y, 0, p))
                                 || (exists e :: e in y && q == Out(o, s, pa, pb, x, y, 1, e))
  {
    MergedMembers(o, s, pa, pb, x, y);
    KeptMembers(o, s, x, y);
    forall e | e in y ensures Against(o, s, x, e) == Identical ==> e in x {
      VerdictMeaning(o, s, x, e);
    }
  }

  lemma IdsUnited(o: Options, s: Section, pa: Option<string>, pb: Option<string>, x: seq<Entry>, y: seq<Entry>,
                  m: seq<Entry>)
    requires forall p | p in x :: Out(o, s, pa, pb, x, y, 0, p) in m
    requires forall e | e in y :: Out(o, s, pa, pb, x, y, 0, e) in m || Out(o, s, pa, pb, x, y, 1, e) in m
    requires forall q | q in m :: (exists p :: p in x && q == Out(o, s, pa, pb, x, y, 0, p))
                                  || (exists e :: e in y && q == Out(o, s, pa, pb, x, y, 1, e))
    ensures forall id :: HasId(m, id) <==> HasId(x, id) || HasId(y, id)
  {
    forall id | HasId(x, id) || HasId(y, id) ensures HasId(m, id) {
      var e :| (e in x || e in y) && e.id == id;
      var q0, q1 := Out(o, s, pa, pb, x, y, 0, e), Out(o, s, pa, pb, x, y, 1, e);
      assert q0.id == id && q1.id == id && (q0 in m || q1 in m);
    }
    forall id | HasId(m, id) ensures HasId(x, id) || HasId(y, id) {
      var q :| q in m && q.id == id;
      if exists p :: p in x && q == Out(o, s, pa, pb, x, y, 0, p) {
        var p :| p in x && q == Out(o, s, pa, pb, x, y, 0, p);
        assert p.id == id;
      } else {
        var e :| e in y && q == Out(o, s, pa, pb, x, y, 1, e);
        assert e.id == id;
      }
    }
  }

  ghost predicate HasId(entries: seq<Entry>, id: Option<int>) {
    exists e :: e in entries && e.id == id
  }

  // ---------------------------------------------------------------- definitions

  /** The table holds each definition under its name, and nothing else. */
  predicate Tabulates(ds: seq<Definition>, table: map<string, Definition>) {
    && (forall i | 0 <= i < |ds| :: ds[i].qualifiedName in table && table[ds[i].qualifiedName] == ds[i])
    && (forall n | n in table :: table[n] in ds && table[n].qualifiedName == n)
  }

  lemma {:induction false} DefinitionMapFacts(ds: seq<Definition>)
    requires Distinct(QualifiedNames(ds))
    ensures Tabulates(ds, DefinitionMap(ds))
  {
    if ds != [] {
      var k := |ds| - 1;
      assert QualifiedNames(ds[..k]) == QualifiedNames(ds)[..k];
      DefinitionMapFacts(ds[..k]);
      OneMoreDefinition(ds, DefinitionMap(ds[..k]));
    }
  }

  lemma OneMoreDefinition(ds: seq<Definition>, table: map<string, Definition>)
    requires ds != [] && Distinct(QualifiedNames(ds)) && Tabulates(ds[..|ds| - 1], table)
    ensures Tabulates(ds, table[ds[|ds| - 1].qualifiedName := ds[|ds| - 1]])
  {
    var k := |ds| - 1;
    forall i | 0 <= i < k ensures ds[i].qualifiedName != ds[k].qualifiedName && ds[..k][i] == ds[i] {
      assert QualifiedNames(ds)[i] != QualifiedNames(ds)[k];
    }
    assert forall d | d in ds[..k] :: d in ds;
  }

  lemma {:induction false} KeptDefinitionMembers(x: seq<Definition>, y: seq<Definition>)
    ensures forall d :: d in KeptDefinitions(x, y) <==> d in y && d.qualifiedName !in DefinitionMap(x)
  {
    if y != [] {
      KeptDefinitionMembers(x, y[..|y| - 1]);
      assert forall d :: d in y <==> d in y[..|y| - 1] || d == y[|y| - 1];
    }
  }

  lemma TabulatesMembers(ds: seq<Definition>, table: map<string, Definition>)
    requires Tabulates(ds, table)
    ensures forall d | d in ds :: d.qualifiedName in table && table[d.qualifiedName] == d
    ensures forall n :: n in table <==> exists d :: d in ds && d.qualifiedName == n
  {
    forall d | d in ds ensures d.qualifiedName in table && table[d.qualifiedName] == d {
      var i :| 0 <= i < |ds| && ds[i] == d;
    }
  }

  /** Definitions: the primary's all stay, no other definition has one of their names, and the secondary's are there
      too unless the primary already defines the name; without `prefer_primary` every definition of either input is
      there. */
  lemma DefinitionsUnited(o: Options, s: DefinitionSection, a: Input, b: Input)
    requires !MergeFails(o, a, b)
    ensures var m := MergedDefinitions(s, a, b); var x, y := a.data.definitions[s], b.data.definitions[s];
      && (forall d, d' | d in m && d' in x && d.qualifiedName == d'.qualifiedName :: d == d')
      && (forall d :: d in m <==> d in x || (d in y && forall d' | d' in x :: d'.qualifiedName != d.qualifiedName))
      && (!o.preferPrimary ==> forall d :: d in m <==> d in x || d in y)
  {
    var m := MergedDefinitions(s, a, b);
    var x, y := a.data.definitions[s], b.data.definitions[s];
    DefinitionMapFacts(x);
    KeptDefinitionMembers(x, y);
    TabulatesMembers(x, DefinitionMap(x));
    if !o.preferPrimary {
      assert !DefinitionsFail(o, x, y);
      forall d | d in y ensures d in m {
        var i :| 0 <= i < |y| && y[i] == d;
        assert !DefinitionClash(x, y[i]);
      }
    }
  }

  // ---------------------------------------------------------------- references

  /** In these channels the name stands for the channel with this id, and no other. */
  ghost predicate Denotes(channels: seq<Entry>, name: string, id: Option<int>) {
    (exists c :: c in channels && c.name == name && c.id == id)
    && forall c | c in channels && c.name == name :: c.id == id
  }

  /** A secondary name has a property of verdicts exactly when its entry's verdict has it. */
  lemma NamesWithMeaning(o: Options, s: Section, x: seq<Entry>, y: seq<Entry>, p: Verdict -> bool, e: Entry)
    requires SectionOk(s, y) && e in y
    ensures e.name in NamesWith(o, s, x, y, p) <==> p(Against(o, s, x, e))
  {
    if e.name in NamesWith(o, s, x, y, p) {
      var i :| 0 <= i < |y| && p(Against(o, s, x, y[i])) && y[i].name == e.name;
      SameNameSame(s, y, y[i], e);
    }
    var j :| 0 <= j < |y| && y[j] == e;
  }

  function ChannelList(a: Input, b: Input, index: nat): seq<Entry>
    requires WellFormed(a.data) && WellFormed(b.data)
  {
    if index == 0 then a.data.entries[TelemetryChannels] else b.data.entries[TelemetryChannels]
  }

  lemma OutDenotes(m: seq<Entry>, q: Entry)
    requires Distinct(Names(m)) && q in m
    ensures Denotes(m, q.name, q.id)
  {
    forall c | c in m && c.name == q.name ensures c.id == q.id {
      NameHeldOnce(m, c, q);
    }
  }

  /** The name a channel of either input is rewritten to denotes, in the merged channels, exactly that channel's id,
      through every case: identical, redefined, renamed, all prefixed; only dropped names are excluded. */
  lemma ChannelNameFollowed(o: Options, a: Input, b: Input, index: nat, c: Entry)
    requires !MergeFails(o, a, b) && index < 2
    requires c in ChannelList(a, b, index) && c.name !in ChannelsOf(o, a, b).DroppedFor(index)
    ensures Denotes(MergedSection(o, TelemetryChannels, a, b), ChannelsOf(o, a, b).Name(index, c.name), c.id)
  {
    var s, m := TelemetryChannels, MergedSection(o, TelemetryChannels, a, b);
    var x, y := a.data.entries[s], b.data.entries[s];
    var pa, pb := Prefix(a), Prefix(b);
    assert !SectionFails(o, s, a, b, x, y);
    MergedMembers(o, s, pa, pb, x, y);
    if index == 0 {
      OutDenotes(m, Out(o, s, pa, pb, x, y, 0, c));
    } else {
      SecondaryFollowed(o, a, b, c);
    }
  }

  lemma SecondaryFollowed(o: Options, a: Input, b: Input, c: Entry)
    requires !MergeFails(o, a, b)
    requires c in b.data.entries[TelemetryChannels] && c.name !in ChannelsOf(o, a, b).dropped
    ensures Denotes(MergedSection(o, TelemetryChannels, a, b), ChannelsOf(o, a, b).Name(1, c.name), c.id)
  {
    var s, m := TelemetryChannels, MergedSection(o, TelemetryChannels, a, b);
    var x, y := a.data.entries[s], b.data.entries[s];
    var pa, pb := Prefix(a), Prefix(b);
    var v := Against(o, s, x, c);
    assert !SectionFails(o, s, a, b, x, y);
    MergedMembers(o, s, pa, pb, x, y);
    NamesWithMeaning(o, s, x, y, v => v == Identical || (v == DefinitionConflict && o.preferPrimary), c);
    NamesWithMeaning(o, s, x, y, v => o.preferPrimary && (v == IdConflict || (v == NameConflict && o.noNamespace)), c);
    VerdictMeaning(o, s, x, c);
    assert !o.preferPrimary ==> !Loses(o, v) by {
      var i :| 0 <= i < |y| && y[i] == c;
      assert !HasConflict(o, s, x, y);
    }
    if Stays(o, v) {
      KeptMembers(o, s, x, y);
      OutDenotes(m, Out(o, s, pa, pb, x, y, 1, c));
    } else if v == Identical {
      OutDenotes(m, Out(o, s, pa, pb, x, y, 0, c));
    } else {
      var p :| p in x && p.id == c.id && p.name == c.name;
      OutDenotes(m, Out(o, s, pa, pb, x, y, 0, p));
    }
  }

  /** Wherever the old name stood for a channel of the input, the new one stands for that channel's id in the merge. */
  ghost predicate Follows(o: Options, a: Input, b: Input, index: nat, was: seq<string>, now: seq<string>)
    requires WellFormed(a.data) && WellFormed(b.data)
  {
    |now| == |was| && forall k, c | 0 <= k < |was| && c in ChannelList(a, b, index) && c.name == was[k] ::
      Denotes(MergedSection(o, TelemetryChannels, a, b), now[k], c.id)
  }

  /** The merged packet set is that of input `index`, under its name or that name with the input's prefix, with the
      packets listing dropped channels gone, and every other packet and every kept omitted name meaning the same
      channels as before. */
  ghost predicate SameMeaning(o: Options, a: Input, b: Input, index: nat, e: Entry, q: Entry)
    requires WellFormed(a.data) && WellFormed(b.data) && e.body.PacketSet?
  {
    var ch := ChannelsOf(o, a, b);
    var kept := ch.Unlost(index, e.body.packets);
    && q.id == e.id && (q.name == e.name || q.name == Prefixed(if index == 0 then Prefix(a) else Prefix(b), e.name))
    && q.body.PacketSet? && q.body.rest == e.body.rest && |q.body.packets| == |kept|
    && (forall i | 0 <= i < |kept| :: q.body.packets[i] == kept[i].(members := q.body.packets[i].members)
          && Follows(o, a, b, index, kept[i].members, q.body.packets[i].members))
    && Follows(o, a, b, index, ch.Surviving(index, e.body.omitted), q.body.omitted)
  }

  lemma {:induction false} UnlostMeaning(ch: Channels, index: nat, packets: seq<Packet>)
    ensures forall p :: p in ch.Unlost(index, packets) <==> p in packets && !ch.Lost(index, p)
  {
    if packets != [] {
      UnlostMeaning(ch, index, packets[..|packets| - 1]);
      assert forall p :: p in packets <==> p in packets[..|packets| - 1] || p == packets[|packets| - 1];
    }
  }

  lemma {:induction false} SurvivingMeaning(ch: Channels, index: nat, names: seq<string>)
    ensures forall n :: n in ch.Surviving(index, names) <==> n in names && n !in ch.DroppedFor(index)
  {
    if names != [] {
      SurvivingMeaning(ch, index, names[..|names| - 1]);
      assert forall n :: n in names <==> n in names[..|names| - 1] || n == names[|names| - 1];
    }
  }

  lemma NamesFollowed(o: Options, a: Input, b: Input, index: nat, names: seq<string>)
    requires !MergeFails(o, a, b) && index < 2
    requires forall k | 0 <= k < |names| :: names[k] !in ChannelsOf(o, a, b).DroppedFor(index)
    ensures Follows(o, a, b, index, names, ChannelsOf(o, a, b).FollowNames(index, names))
  {
    forall k, c | 0 <= k < |names| && c in ChannelList(a, b, index) && c.name == names[k]
      ensures Denotes(MergedSection(o, TelemetryChannels, a, b), ChannelsOf(o, a, b).FollowNames(index, names)[k], c.id)
    {
      ChannelNameFollowed(o, a, b, index, c);
    }
  }

  lemma RewrittenKeepsMeaning(o: Options, a: Input, b: Input, index: nat, e: Entry, q: Entry)
    requires !MergeFails(o, a, b) && index < 2 && e.body.PacketSet?
    requires q.body == ChannelsOf(o, a, b).Rewritten(index, e).body && q.id == e.id
    requires q.name == e.name || q.name == Prefixed(if index == 0 then Prefix(a) else Prefix(b), e.name)
    ensures SameMeaning(o, a, b, index, e, q)
  {
    var ch := ChannelsOf(o, a, b);
    var kept := ch.Unlost(index, e.body.packets);
    UnlostMeaning(ch, index, e.body.packets);
    SurvivingMeaning(ch, index, e.body.omitted);
    NamesFollowed(o, a, b, index, ch.Surviving(index, e.body.omitted));
    forall i | 0 <= i < |kept|
      ensures q.body.packets[i] == kept[i].(members := q.body.packets[i].members)
        && Follows(o, a, b, index, kept[i].members, q.body.packets[i].members)
    {
      assert kept[i] in kept && !ch.Lost(index, kept[i]);
      NamesFollowed(o, a, b, index, kept[i].members);
    }
  }

  function SetList(a: Input, b: Input, index: nat): seq<Entry>
    requires WellFormed(a.data) && WellFormed(b.data)
  {
    if index == 0 then a.data.entries[TelemetryPacketSets] else b.data.entries[TelemetryPacketSets]
  }

  ghost predicate ComesFrom(o: Options, a: Input, b: Input, index: nat, q: Entry)
    requires WellFormed(a.data) && WellFormed(b.data)
  {
    exists e :: e in SetList(a, b, index) && e.body.PacketSet? && SameMeaning(o, a, b, index, e, q)
  }

  ghost predicate Represented(o: Options, a: Input, b: Input, index: nat, e: Entry)
    requires WellFormed(a.data) && WellFormed(b.data) && e.body.PacketSet?
  {
    exists q :: q in MergedSection(o, TelemetryPacketSets, a, b) && SameMeaning(o, a, b, index, e, q)
  }

  /** `prefer_primary` drops this packet set of the secondary: names are not prefixed, and a different set of the
      primary has its name. */
  ghost predicate SetDropped(o: Options, a: Input, b: Input, e: Entry)
    requires WellFormed(a.data) && WellFormed(b.data)
  {
    var now := ChannelsOf(o, a, b).Rewritten(1, e);
    && o.preferPrimary && o.noNamespace
    && exists p :: p in SectionInput(o, TelemetryPacketSets, a, b, 0) && p.name == e.name && p != now
  }

  lemma SetsArePacketSets(a: Input, b: Input, index: nat, e: Entry)
    requires WellFormed(a.data) && WellFormed(b.data) && e in SetList(a, b, index)
    ensures e.body.PacketSet?
  {
    var sets := SetList(a, b, index);
    var i :| 0 <= i < |sets| && sets[i] == e;
    assert EntryOk(TelemetryPacketSets, sets[i]);
  }

  /** Merging preserves what packets mean. Every packet set of the merged dictionary is one of an input's, with the same
      channels behind its names; every packet set of the primary is represented, and so is every one of the secondary
      unless `prefer_primary` drops it for its name. */
  lemma MergePreservesReferences(o: Options, a: Input, b: Input)
    requires !MergeFails(o, a, b)
    ensures forall q | q in MergedSection(o, TelemetryPacketSets, a, b) ::
      ComesFrom(o, a, b, 0, q) || ComesFrom(o, a, b, 1, q)
    ensures forall e | e in SetList(a, b, 0) :: e.body.PacketSet? && Represented(o, a, b, 0, e)
    ensures forall e | e in SetList(a, b, 1) ::
      e.body.PacketSet? && (Represented(o, a, b, 1, e) || SetDropped(o, a, b, e))
  {
    forall q | q in MergedSection(o, TelemetryPacketSets, a, b)
      ensures ComesFrom(o, a, b, 0, q) || ComesFrom(o, a, b, 1, q)
    {
      MergedSetComesFrom(o, a, b, q);
    }
    forall e | e in SetList(a, b, 0) ensures e.body.PacketSet? && Represented(o, a, b, 0, e) {
      PrimarySetRepresented(o, a, b, e);
    }
    forall e | e in SetList(a, b, 1)
      ensures e.body.PacketSet? && (Represented(o, a, b, 1, e) || SetDropped(o, a, b, e))
    {
      SecondarySetRepresented(o, a, b, e);
    }
  }

  lemma MergedSetComesFrom(o: Options, a: Input, b: Input, q: Entry)
    requires !MergeFails(o, a, b) && q in MergedSection(o, TelemetryPacketSets, a, b)
    ensures ComesFrom(o, a, b, 0, q) || ComesFrom(o, a, b, 1, q)
  {
    var s := TelemetryPacketSets;
    var x, y := SectionInput(o, s, a, b, 0), SectionInput(o, s, a, b, 1);
    MergedMembers(o, s, Prefix(a), Prefix(b), x, y);
    if exists p :: p in x && q == Out(o, s, Prefix(a), Prefix(b), x, y, 0, p) {
      var p :| p in x && q == Out(o, s, Prefix(a), Prefix(b), x, y, 0, p);
      OutComesFrom(o, a, b, 0, p, q, x, y);
    } else {
      var p :| p in Kept(o, s, x, y) && q == Out(o, s, Prefix(a), Prefix(b), x, y, 1, p);
      KeptMembers(o, s, x, y);
      OutComesFrom(o, a, b, 1, p, q, x, y);
    }
  }

  lemma OutComesFrom(o: Options, a: Input, b: Input, index: nat, p: Entry, q: Entry, x: seq<Entry>, y: seq<Entry>)
    requires !MergeFails(o, a, b) && index < 2
    requires p in SectionInput(o, TelemetryPacketSets, a, b, index)
    requires q == Out(o, TelemetryPacketSets, Prefix(a), Prefix(b), x, y, index, p)
    ensures ComesFrom(o, a, b, index, q)
  {
    var sets := SetList(a, b, index);
    var i :| 0 <= i < |sets| && ChannelsOf(o, a, b).Rewritten(index, sets[i]) == p;
    SetsArePacketSets(a, b, index, sets[i]);
    RewrittenKeepsMeaning(o, a, b, index, sets[i], q);
  }

  lemma PrimarySetRepresented(o: Options, a: Input, b: Input, e: Entry)
    requires !MergeFails(o, a, b) && e in SetList(a, b, 0)
    ensures e.body.PacketSet? && Represented(o, a, b, 0, e)
  {
    var s := TelemetryPacketSets;
    var x, y := SectionInput(o, s, a, b, 0), SectionInput(o, s, a, b, 1);
    SetsArePacketSets(a, b, 0, e);
    var i :| 0 <= i < |SetList(a, b, 0)| && SetList(a, b, 0)[i] == e;
    assert x[i] in x;
    MergedMembers(o, s, Prefix(a), Prefix(b), x, y);
    RewrittenKeepsMeaning(o, a, b, 0, e, Out(o, s, Prefix(a), Prefix(b), x, y, 0, x[i]));
  }

  lemma SecondarySetRepresented(o: Options, a: Input, b: Input, e: Entry)
    requires !MergeFails(o, a, b) && e in SetList(a, b, 1)
    ensures e.body.PacketSet? && (Represented(o, a, b, 1, e) || SetDropped(o, a, b, e))
  {
    var s := TelemetryPacketSets;
    var x, y := SectionInput(o, s, a, b, 0), SectionInput(o, s, a, b, 1);
    SetsArePacketSets(a, b, 1, e);
    var i :| 0 <= i < |SetList(a, b, 1)| && SetList(a, b, 1)[i] == e;
    var v := Against(o, s, x, y[i]);
    assert y[i] in y;
    MergedMembers(o, s, Prefix(a), Prefix(b), x, y);
    KeptMembers(o, s, x, y);
    assert !SectionFails(o, s, a, b, x, y);
    if Stays(o, v) {
      RewrittenKeepsMeaning(o, a, b, 1, e, Out(o, s, Prefix(a), Prefix(b), x, y, 1, y[i]));
    } else if v == Identical {
      RewrittenSectionOk(o, a, b, 0);
      RewrittenSectionOk(o, a, b, 1);
      VerdictMeaning(o, s, x, y[i]);
      NamesWithMeaning(o, s, x, y, v => v == NameConflict && !o.noNamespace, y[i]);
      RewrittenKeepsMeaning(o, a, b, 1, e, Out(o, s, Prefix(a), Prefix(b), x, y, 0, y[i]));
    } else {
      assert Loses(o, v);
      RewrittenSectionOk(o, a, b, 0);
      VerdictMeaning(o, s, x, y[i]);
    }
  }

  /** Rewritten packet sets are still well formed. */
  lemma RewrittenSectionOk(o: Options, a: Input, b: Input, index: nat)
    requires WellFormed(a.data) && WellFormed(b.data)
    ensures SectionOk(TelemetryPacketSets, SectionInput(o, TelemetryPacketSets, a, b, index))
  {
    var sets, now := SetList(a, b, index), SectionInput(o, TelemetryPacketSets, a, b, index);
    assert Names(now) == Names(sets);
    forall i | 0 <= i < |now| ensures EntryOk(TelemetryPacketSets, now[i]) {
      assert EntryOk(TelemetryPacketSets, sets[i]);
    }
  }
}
