/** The `Merger`: merges a primary and a secondary input, recording errors instead of raising. */
module Merger {
  import opened Bytes
  import opened MergeSpec

  function Pairs(s: Section, names: set<string>): set<(Section, string)> {
    set n | n in names :: (s, n)
  }

  lemma NamesWithGrow(o: Options, s: Section, x: seq<Entry>, y: seq<Entry>, p: Verdict -> bool, i: nat)
    requires i < |y|
    ensures NamesWith(o, s, x, y[..i + 1], p) ==
      NamesWith(o, s, x, y[..i], p) + (if p(Against(o, s, x, y[i])) then {y[i].name} else {})
  {
    assert forall k | 0 <= k < i :: y[..i + 1][k] == y[..i][k];
    assert y[..i + 1][i] == y[i];
  }

  lemma KeptGrow(o: Options, s: Section, x: seq<Entry>, y: seq<Entry>, i: nat)
    requires i < |y|
    ensures Kept(o, s, x, y[..i + 1]) ==
      Kept(o, s, x, y[..i]) + (if Stays(o, Against(o, s, x, y[i])) then [y[i]] else [])
  {
    assert y[..i + 1][..i] == y[..i];
  }

  lemma ConflictGrow(o: Options, s: Section, x: seq<Entry>, y: seq<Entry>, i: nat)
    requires i < |y|
    ensures HasConflict(o, s, x, y[..i + 1]) <==>
      HasConflict(o, s, x, y[..i]) || (!o.preferPrimary && Loses(o, Against(o, s, x, y[i])))
  {
    assert forall k | 0 <= k < i :: y[..i + 1][k] == y[..i][k];
    assert y[..i + 1][i] == y[i];
  }

  /** What the loop over secondary entries has recorded. */
  datatype Record = Record(kept: seq<Entry>, conflict: bool, renamed: set<string>, shared: set<string>,
                           dropped: set<string>)
  {
    ghost function After(o: Options, s: Section, v: Verdict, e: Entry): Record {
      Record(if Stays(o, v) then kept + [e] else kept,
             conflict || (!o.preferPrimary && Loses(o, v)),
             if Renames(o, v) then renamed + {e.name} else renamed,
             if Shares(o, s, v) then shared + {e.name} else shared,
             if Drops(o, s, v) then dropped + {e.name} else dropped)
    }
  }

  predicate Renames(o: Options, v: Verdict) {
    v == NameConflict && !o.noNamespace
  }

  predicate Shares(o: Options, s: Section, v: Verdict) {
    s == TelemetryChannels && (v == Identical || (v == DefinitionConflict && o.preferPrimary))
  }

  predicate Drops(o: Options, s: Section, v: Verdict) {
    s == TelemetryChannels && o.preferPrimary && (v == IdConflict || (v == NameConflict && o.noNamespace))
  }

  ghost function RecordOf(o: Options, s: Section, x: seq<Entry>, y: seq<Entry>): Record {
    Record(Kept(o, s, x, y), HasConflict(o, s, x, y), Renamed(o, s, x, y),
           if s == TelemetryChannels then Shared(o, x, y) else {},
           if s == TelemetryChannels then Dropped(o, x, y) else {})
  }

  lemma NothingRecorded(o: Options, s: Section, x: seq<Entry>, y: seq<Entry>) returns (rec: Record)
    ensures rec == RecordOf(o, s, x, y[..0]) == Record([], false, {}, {}, {})
  {
    rec := RecordOf(o, s, x, y[..0]);
  }

  lemma OneMoreEntry(o: Options, s: Section, x: seq<Entry>, y: seq<Entry>, i: nat)
    requires i < |y|
    ensures RecordOf(o, s, x, y[..i + 1]) == RecordOf(o, s, x, y[..i]).After(o, s, Against(o, s, x, y[i]), y[i])
  {
    KeptGrow(o, s, x, y, i);
    ConflictGrow(o, s, x, y, i);
    NamesWithGrow(o, s, x, y, v => v == NameConflict && !o.noNamespace, i);
    NamesWithGrow(o, TelemetryChannels, x, y, v => v == Identical || (v == DefinitionConflict && o.preferPrimary), i);
    NamesWithGrow(o, TelemetryChannels, x, y,
                  v => o.preferPrimary && (v == IdConflict || (v == NameConflict && o.noNamespace)), i);
  }

  lemma Accumulates(s: Section, r0: set<(Section, string)>, s0: set<string>, d0: set<string>, rec: Record, v: Verdict,
                    e: Entry, o: Options)
    ensures var next := rec.After(o, s, v, e);
      && r0 + Pairs(s, next.renamed) ==
        (if Renames(o, v) then r0 + Pairs(s, rec.renamed) + {(s, e.name)} else r0 + Pairs(s, rec.renamed))
      && s0 + next.shared == (if Shares(o, s, v) then s0 + rec.shared + {e.name} else s0 + rec.shared)
      && d0 + next.dropped == (if Drops(o, s, v) then d0 + rec.dropped + {e.name} else d0 + rec.dropped)
      && (next.renamed != {} <==> rec.renamed != {} || Renames(o, v))
  {
  }

  class Merger {
    const primary: Input
    const secondary: Input
    const o: Options
    /** how many errors are recorded */
    var errors: nat
    var renamed0: set<(Section, string)>
    var renamed1: set<(Section, string)>
    var droppedChannels: set<string>
    var sharedChannels: set<string>
    var prefixes: Option<(Option<string>, Option<string>)>
    var prefixError: bool

    constructor (primary: Input, secondary: Input, o: Options)
      ensures this.primary == primary && this.secondary == secondary && this.o == o
      ensures Valid() && errors == 0 && renamed0 == {} && droppedChannels == {} && sharedChannels == {}
    {
      this.primary, this.secondary, this.o := primary, secondary, o;
      this.errors, this.renamed0, this.renamed1 := 0, {}, {};
      this.droppedChannels, this.sharedChannels, this.prefixes, this.prefixError := {}, {}, None, false;
    }

    predicate Bad() {
      BadPrefixes(primary, secondary)
    }

    /** Both inputs' renames agree; prefixes, once asked for, are the inputs', and a problem with them is recorded. */
    ghost predicate Valid()
      reads this
    {
      && renamed0 == renamed1
      && (prefixError ==> errors > 0)
      && (prefixes.None? ==> !prefixError)
      && (prefixes.Some? ==> prefixes == Some((Prefix(primary), Prefix(secondary))) && (prefixError <==> Bad()))
    }

    function PrefixOf(index: nat): Option<string> {
      if index == 0 then Prefix(primary) else Prefix(secondary)
    }

    /** The names of section `s` recorded as renamed. */
    function RenamedNow(s: Section): set<string>
      reads this`renamed0
    {
      set p | p in renamed0 && p.0 == s :: p.1
    }

    function Prefixing(s: Section, name: string): bool
      reads this`renamed0
    {
      (o.namespaceAll && IdBearing(s)) || (s, name) in renamed0
    }

    /** `prefixes` */
    method Prefixes()
      requires Valid()
      modifies this`errors, this`prefixes, this`prefixError
      ensures Valid() && prefixes.Some?
      ensures errors > 0 <==> old(errors) > 0 || Bad()
    {
      if prefixes.None? {
        var pa, pb := Prefix(primary), Prefix(secondary);
        prefixes := Some((pa, pb));
        var errorsBefore := errors;
        if pa.None? {
          errors := errors + 1;
        }
        if pb.None? {
          errors := errors + 1;
        }
        if pa.Some? && pb.Some? && pa == pb {
          errors := errors + 1;
        }
        prefixError := errors > errorsBefore;
      }
    }

    /** `output_name` */
    method OutputName(index: nat, s: Section, name: string) returns (out: string)
      requires Valid() && index < 2
      modifies this`errors, this`prefixes, this`prefixError
      ensures Valid()
      ensures out == OutName(o, s, RenamedNow(s), PrefixOf(index), name)
      ensures errors > 0 <==> old(errors) > 0 || (Prefixing(s, name) && Bad())
    {
      assert name in RenamedNow(s) <==> (s, name) in renamed0;
      if (o.namespaceAll && IdBearing(s)) || (s, name) in (if index == 0 then renamed0 else renamed1) {
        Prefixes();
        return Prefixed(if index == 0 then prefixes.value.0 else prefixes.value.1, name);
      }
      return name;
    }

    /** `drop` */
    method Drop(s: Section, name: string, nameKept: bool)
      requires Valid()
      modifies this`errors, this`sharedChannels, this`droppedChannels
      ensures Valid()
      ensures errors > 0 <==> old(errors) > 0 || !o.preferPrimary
      ensures sharedChannels == old(sharedChannels)
        + (if o.preferPrimary && s == TelemetryChannels && nameKept then {name} else {})
      ensures droppedChannels == old(droppedChannels)
        + (if o.preferPrimary && s == TelemetryChannels && !nameKept then {name} else {})
    {
      if !o.preferPrimary {
        errors := errors + 1;
        return;
      }
      if s == TelemetryChannels {
        if nameKept {
          sharedChannels := sharedChannels + {name};
        } else {
          droppedChannels := droppedChannels + {name};
        }
      }
    }

    method NamesOf(entries: seq<Entry>) returns (byName: map<string, Entry>)
      ensures byName == NameMap(entries)
    {
      byName := map[];
      for i := 0 to |entries|
        invariant byName == NameMap(entries[..i])
      {
        assert entries[..i + 1][..i] == entries[..i];
        byName := byName[entries[i].name := entries[i]];
      }
      assert entries[..|entries|] == entries;
    }

    method IdsOf(entries: seq<Entry>) returns (byId: map<Option<int>, Entry>)
      ensures byId == IdMap(entries)
    {
      byId := map[];
      for i := 0 to |entries|
        invariant byId == IdMap(entries[..i])
      {
        assert entries[..i + 1][..i] == entries[..i];
        byId := byId[entries[i].id := entries[i]];
      }
      assert entries[..|entries|] == entries;
    }

    /** What one secondary entry does to the record: the body of the loop in `merge_entries`. */
    method MergeEntry(s: Section, ghost x: seq<Entry>, byName: map<string, Entry>, byId: map<Option<int>, Entry>,
                      entry: Entry)
        returns (stays: bool)
      requires Valid() && byName == NameMap(x) && (IdBearing(s) ==> byId == IdMap(x))
      modifies this
      ensures Valid()
      ensures var v := Against(o, s, x, entry);
        && stays == Stays(o, v)
        && renamed0 == (if Renames(o, v) then old(renamed0) + {(s, entry.name)} else old(renamed0))
        && sharedChannels == (if Shares(o, s, v) then old(sharedChannels) + {entry.name} else old(sharedChannels))
        && droppedChannels == (if Drops(o, s, v) then old(droppedChannels) + {entry.name} else old(droppedChannels))
        && (errors > 0 <==> old(errors) > 0 || (!o.preferPrimary && Loses(o, v)) || (Renames(o, v) && Bad()))
    {
      ghost var v := Judge(o, s, byName, byId, entry);
      assert v == Against(o, s, x, entry);
      var name := entry.name;
      if name in byName && byName[name] == entry {
        assert v == Identical;
        if s == TelemetryChannels {
          sharedChannels := sharedChannels + {name};
        }
        return false;
      }
      var sameId := if IdBearing(s) && entry.id in byId then Some(byId[entry.id]) else None;
      if sameId.Some? && sameId.value.name == name {
        assert v == DefinitionConflict;
        Drop(s, name, true);
        return false;
      } else if sameId.Some? {
        assert v == IdConflict;
        Drop(s, name, false);
        return false;
      } else if name !in byName || (IdBearing(s) && o.namespaceAll) {
        assert v == Unmatched;
        return true;
      } else if o.noNamespace {
        Drop(s, name, false);
        return false;
      } else {
        Rename(s, name);
        return true;
      }
    }

    /** Both inputs' entries of this name get prefixes, which are asked for at once. */
    method Rename(s: Section, name: string)
      requires Valid()
      modifies this`renamed0, this`renamed1, this`errors, this`prefixes, this`prefixError
      ensures Valid()
      ensures renamed0 == old(renamed0) + {(s, name)}
      ensures errors > 0 <==> old(errors) > 0 || Bad()
    {
      renamed0 := renamed0 + {(s, name)};
      renamed1 := renamed1 + {(s, name)};
      var _ := OutputName(0, s, name);
      var _ := OutputName(1, s, name);
    }

    /** `merge_entries` records and builds exactly what its section calls for. */
    method MergeEntries(s: Section, x: seq<Entry>, y: seq<Entry>) returns (merged: seq<Entry>)
      requires Valid() && RenamedNow(s) == {}
      modifies this
      ensures Valid()
      ensures merged == MergeSection(o, s, Prefix(primary), Prefix(secondary), x, y)
      ensures errors > 0 <==> old(errors) > 0 || SectionFails(o, s, primary, secondary, x, y)
      ensures renamed0 == old(renamed0) + Pairs(s, Renamed(o, s, x, y))
      ensures sharedChannels == old(sharedChannels) + (if s == TelemetryChannels then Shared(o, x, y) else {})
      ensures droppedChannels == old(droppedChannels) + (if s == TelemetryChannels then Dropped(o, x, y) else {})
    {
      var kept := CollectKept(s, x, y);
      ghost var conflict := errors > 0;
      RenamedExactly(s, old(renamed0), Renamed(o, s, x, y));
      merged := RenameSide(0, s, x, Renamed(o, s, x, y));
      var rest := RenameSide(1, s, kept, Renamed(o, s, x, y));
      merged := merged + rest;
      if prefixError {
        return;
      }
      if !Distinct(Names(merged)) {
        errors := errors + 1;
      }
    }

    lemma RenamedExactly(s: Section, before: set<(Section, string)>, names: set<string>)
      requires renamed0 == before + Pairs(s, names)
      requires forall n :: (s, n) !in before
      ensures RenamedNow(s) == names
    {
      forall n ensures n in RenamedNow(s) <==> n in names {
        assert n in RenamedNow(s) <==> (s, n) in renamed0;
      }
    }

    /** The loop over the secondary's entries. */
    method CollectKept(s: Section, x: seq<Entry>, y: seq<Entry>) returns (kept: seq<Entry>)
      requires Valid() && RenamedNow(s) == {}
      modifies this
      ensures Valid()
      ensures kept == Kept(o, s, x, y)
      ensures errors > 0 <==> old(errors) > 0 || HasConflict(o, s, x, y) || (Renamed(o, s, x, y) != {} && Bad())
      ensures renamed0 == old(renamed0) + Pairs(s, Renamed(o, s, x, y))
      ensures forall n :: (s, n) !in old(renamed0)
      ensures sharedChannels == old(sharedChannels) + (if s == TelemetryChannels then Shared(o, x, y) else {})
      ensures droppedChannels == old(droppedChannels) + (if s == TelemetryChannels then Dropped(o, x, y) else {})
    {
      forall n ensures (s, n) !in old(renamed0) {
        assert n !in RenamedNow(s);
      }
      var byName := NamesOf(x);
      var byId := map[];
      if IdBearing(s) {
        byId := IdsOf(x);
      }
      kept := [];
      ghost var e0, r0, s0, d0 := errors > 0, renamed0, sharedChannels, droppedChannels;
      ghost var rec := NothingRecorded(o, s, x, y);
      for i := 0 to |y|
        invariant Valid()
        invariant rec == RecordOf(o, s, x, y[..i])
        invariant kept == rec.kept
        invariant errors > 0 <==> e0 || rec.conflict || (rec.renamed != {} && Bad())
        invariant renamed0 == r0 + Pairs(s, rec.renamed)
        invariant sharedChannels == s0 + rec.shared && droppedChannels == d0 + rec.dropped
      {
        var stays := MergeEntry(s, x, byName, byId, y[i]);
        if stays {
          kept := kept + [y[i]];
        }
        ghost var v := Against(o, s, x, y[i]);
        OneMoreEntry(o, s, x, y, i);
        Accumulates(s, r0, s0, d0, rec, v, y[i], o);
        rec := rec.After(o, s, v, y[i]);
      }
      assert y[..|y|] == y;
    }

    /** One side of the comprehension that renames the merged entries. */
    method RenameSide(index: nat, s: Section, entries: seq<Entry>, ghost names: set<string>) returns (out: seq<Entry>)
      requires Valid() && index < 2 && RenamedNow(s) == names
      requires names != {} && Bad() ==> errors > 0
      modifies this`errors, this`prefixes, this`prefixError
      ensures Valid()
      ensures out == RenameAll(o, s, names, PrefixOf(index), entries)
      ensures errors > 0 <==> old(errors) > 0 || (o.namespaceAll && IdBearing(s) && entries != [] && Bad())
    {
      out := [];
      for i := 0 to |entries|
        invariant Valid() && RenamedNow(s) == names
        invariant out == RenameAll(o, s, names, PrefixOf(index), entries[..i])
        invariant errors > 0 <==> old(errors) > 0 || (o.namespaceAll && IdBearing(s) && i > 0 && Bad())
      {
        var name := OutputName(index, s, entries[i].name);
        assert entries[i].name in RenamedNow(s) <==> (s, entries[i].name) in renamed0;
        out := out + [entries[i].(name := name)];
        RenameOne(index, s, entries, names, i);
      }
      assert entries[..|entries|] == entries;
    }

    lemma RenameOne(index: nat, s: Section, entries: seq<Entry>, names: set<string>, i: nat)
      requires i < |entries|
      ensures RenameAll(o, s, names, PrefixOf(index), entries[..i + 1]) ==
        RenameAll(o, s, names, PrefixOf(index), entries[..i])
        + [entries[i].(name := OutName(o, s, names, PrefixOf(index), entries[i].name))]
    {
    }

    // ---------------------------------------------------------------- packet sets

    /** The channel tables as they stand. */
    function Tables(): Channels
      reads this
    {
      Channels(o, RenamedNow(TelemetryChannels), sharedChannels, droppedChannels, Prefix(primary), Prefix(secondary))
    }

    /** `channel`, over a list of names */
    method FollowNames(index: nat, names: seq<string>) returns (out: seq<string>)
      requires Valid() && index < 2
      modifies this`errors, this`prefixes, this`prefixError
      ensures Valid()
      ensures out == Tables().FollowNames(index, names)
      ensures errors > 0 <==> old(errors) > 0 || (Tables().NamesAsk(names) && Bad())
    {
      out := [];
      for i := 0 to |names|
        invariant Valid()
        invariant out == Tables().FollowNames(index, names[..i])
        invariant errors > 0 <==> old(errors) > 0 || (Tables().NamesAsk(names[..i]) && Bad())
      {
        var name := OutputName(if names[i] in sharedChannels then 0 else index, TelemetryChannels, names[i]);
        out := out + [name];
        assert names[i] in RenamedNow(TelemetryChannels) <==> (TelemetryChannels, names[i]) in renamed0;
        FollowOne(Tables(), index, names, i);
      }
      assert names[..|names|] == names;
    }

    /** `rewrite_packet_set` */
    method RewritePacketSet(index: nat, e: Entry) returns (out: Entry)
      requires Valid() && index < 2 && e.body.PacketSet?
      modifies this`errors, this`prefixes, this`prefixError
      ensures Valid()
      ensures out == Tables().Rewritten(index, e)
      ensures errors > 0 <==> old(errors) > 0 || (Tables().SetAsks(index, e) && Bad())
    {
      ghost var ch := Tables();
      var dropped := if index == 1 then droppedChannels else {};
      var packets := RewritePackets(index, dropped, e.body.packets);
      var omitted := [];
      for i := 0 to |e.body.omitted|
        invariant omitted == ch.Surviving(index, e.body.omitted[..i])
      {
        assert e.body.omitted[..i + 1][..i] == e.body.omitted[..i];
        if e.body.omitted[i] !in dropped {
          omitted := omitted + [e.body.omitted[i]];
        }
      }
      assert e.body.omitted[..|e.body.omitted|] == e.body.omitted;
      omitted := FollowNames(index, omitted);
      out := e.(body := PacketSet(packets, omitted, e.body.rest));
    }

    method RewritePackets(index: nat, dropped: set<string>, packets: seq<Packet>) returns (out: seq<Packet>)
      requires Valid() && index < 2 && dropped == Tables().DroppedFor(index)
      modifies this`errors, this`prefixes, this`prefixError
      ensures Valid()
      ensures out == Tables().FollowPackets(index, Tables().Unlost(index, packets))
      ensures errors > 0 <==> old(errors) > 0 || (Tables().PacketsAsk(Tables().Unlost(index, packets)) && Bad())
    {
      ghost var ch := Tables();
      out := [];
      for i := 0 to |packets|
        invariant Valid() && Tables() == ch
        invariant out == ch.FollowPackets(index, ch.Unlost(index, packets[..i]))
        invariant errors > 0 <==> old(errors) > 0 || (ch.PacketsAsk(ch.Unlost(index, packets[..i])) && Bad())
      {
        UnlostOne(ch, index, packets, i);
        var lost := exists k | 0 <= k < |packets[i].members| :: packets[i].members[k] in dropped;
        if !lost {
          var members := FollowNames(index, packets[i].members);
          out := out + [packets[i].(members := members)];
        }
      }
      assert packets[..|packets|] == packets;
    }

    method RewriteAll(index: nat, sets: seq<Entry>) returns (out: seq<Entry>)
      requires Valid() && index < 2 && forall i | 0 <= i < |sets| :: sets[i].body.PacketSet?
      modifies this`errors, this`prefixes, this`prefixError
      ensures Valid()
      ensures out == Tables().RewrittenAll(index, sets)
      ensures errors > 0 <==> old(errors) > 0 || (Tables().AsksPrefix(index, sets) && Bad())
    {
      ghost var ch := Tables();
      out := [];
      for i := 0 to |sets|
        invariant Valid() && Tables() == ch
        invariant out == ch.RewrittenAll(index, sets[..i])
        invariant errors > 0 <==> old(errors) > 0 || (ch.AsksPrefix(index, sets[..i]) && Bad())
      {
        var one := RewritePacketSet(index, sets[i]);
        out := out + [one];
        RewriteOne(ch, index, sets, i);
      }
      assert sets[..|sets|] == sets;
    }

    // ---------------------------------------------------------------- definitions and metadata

    /** `merge_by_qualified_name` */
    method MergeByQualifiedName(x: seq<Definition>, y: seq<Definition>) returns (merged: seq<Definition>)
      requires Valid()
      modifies this`errors
      ensures Valid()
      ensures merged == x + KeptDefinitions(x, y)
      ensures errors > 0 <==> old(errors) > 0 || DefinitionsFail(o, x, y)
    {
      var held := map[];
      for i := 0 to |x|
        invariant held == DefinitionMap(x[..i])
      {
        assert x[..i + 1][..i] == x[..i];
        held := held[x[i].qualifiedName := x[i]];
      }
      assert x[..|x|] == x;
      var kept := [];
      for i := 0 to |y|
        invariant Valid()
        invariant kept == KeptDefinitions(x, y[..i])
        invariant errors > 0 <==>
          old(errors) > 0 || (!o.preferPrimary && exists k | 0 <= k < i :: DefinitionClash(x, y[k]))
      {
        assert y[..i + 1][..i] == y[..i];
        if y[i].qualifiedName !in held {
          kept := kept + [y[i]];
        } else if held[y[i].qualifiedName] != y[i] {
          if !o.preferPrimary {
            errors := errors + 1;
          }
        }
      }
      assert y[..|y|] == y;
      merged := x + kept;
    }

    /** `merge_metadata` */
    method MergeMetadata() returns (merged: Metadata)
      requires Valid()
      modifies this`errors
      ensures Valid()
      ensures merged == MergedMetadata(o, primary.data.metadata, secondary.data.metadata)
      ensures errors > 0 <==> old(errors) > 0 || MetadataFails(o, primary.data.metadata, secondary.data.metadata)
    {
      var first, second := primary.data.metadata, secondary.data.metadata;
      var name;
      if o.name.None? {
        name := first.deploymentName.GetOr("unknown") + "_" + second.deploymentName.GetOr("unknown") + "_merged";
      } else {
        name := o.name.value;
        if !DottedIdentifier(name) {
          errors := errors + 1;
        }
      }
      if !(first.project == second.project && first.framework == second.framework && first.spec == second.spec) {
        if !o.permissive {
          errors := errors + 1;
        }
      }
      merged := first.(deploymentName := Some(name));
    }

    // ---------------------------------------------------------------- the whole merge

    /** `check_packet_sets` */
    method CheckPacketSets(channels: seq<Entry>, sets: seq<Entry>)
      requires Valid()
      modifies this`errors
      ensures Valid()
      ensures errors > 0 <==> old(errors) > 0 || UnknownReference(channels, sets)
    {
      if errors > 0 {
        return;
      }
      for i := 0 to |sets|
        invariant Valid()
        invariant errors > 0 <==> UnknownReference(channels, sets[..i])
      {
        UnknownOne(channels, sets, i);
        if sets[i].body.PacketSet? && exists name | name in References(sets[i]) :: name !in Names(channels) {
          errors := errors + 1;
        }
      }
      assert sets[..|sets|] == sets;
    }

    /** What the record holds once the first n id-bearing sections are merged. */
    ghost predicate Recorded(n: nat)
      reads this
      requires n <= |ID_SECTIONS| && WellFormed(primary.data) && WellFormed(secondary.data)
    {
      var a, b := primary.data.entries, secondary.data.entries;
      && Valid()
      && (forall s, m :: (s, m) in renamed0 <==> s in ID_SECTIONS[..n] && m in Renamed(o, s, a[s], b[s]))
      && sharedChannels ==
        (if TelemetryChannels in ID_SECTIONS[..n] then Shared(o, a[TelemetryChannels], b[TelemetryChannels]) else {})
      && droppedChannels ==
        (if TelemetryChannels in ID_SECTIONS[..n] then Dropped(o, a[TelemetryChannels], b[TelemetryChannels]) else {})
    }

    /** One id-bearing section. */
    method MergeIdSection(i: nat) returns (merged: seq<Entry>)
      requires WellFormed(primary.data) && WellFormed(secondary.data) && i < |ID_SECTIONS| && Recorded(i)
      modifies this
      ensures Recorded(i + 1)
      ensures merged == MergedSection(o, ID_SECTIONS[i], primary, secondary)
      ensures errors > 0 <==> old(errors) > 0 || IdSectionFails(o, primary, secondary, ID_SECTIONS[i])
    {
      var s := ID_SECTIONS[i];
      SectionsDistinct(i);
      assert RenamedNow(s) == {};
      merged := MergeEntries(s, primary.data.entries[s], secondary.data.entries[s]);
    }

    /** The loop over the id-bearing sections. */
    method MergeIdSections() returns (merged: map<Section, seq<Entry>>)
      requires WellFormed(primary.data) && WellFormed(secondary.data) && Recorded(0)
      modifies this
      ensures Recorded(|ID_SECTIONS|)
      ensures merged.Keys == set s | s in ID_SECTIONS
      ensures forall s | s in merged :: merged[s] == MergedSection(o, s, primary, secondary)
      ensures errors > 0 <==> old(errors) > 0 || exists s | s in ID_SECTIONS :: IdSectionFails(o, primary, secondary, s)
    {
      merged := map[];
      for i := 0 to |ID_SECTIONS|
        invariant Recorded(i)
        invariant merged.Keys == set s | s in ID_SECTIONS[..i]
        invariant forall s | s in merged :: merged[s] == MergedSection(o, s, primary, secondary)
        invariant errors > 0 <==>
          old(errors) > 0 || exists s | s in ID_SECTIONS[..i] :: IdSectionFails(o, primary, secondary, s)
      {
        var one := MergeIdSection(i);
        SectionsDistinct(i);
        merged := merged[ID_SECTIONS[i] := one];
      }
      assert ID_SECTIONS[..|ID_SECTIONS|] == ID_SECTIONS;
    }

    /** `merge`: the merged dictionary, or nothing once any error has been recorded. */
    method Merge() returns (result: Option<Dictionary>)
      requires Valid() && errors == 0 && renamed0 == {} && droppedChannels == {} && sharedChannels == {}
      modifies this
      ensures result.None? <==> MergeFails(o, primary, secondary)
      ensures result.Some? ==> result == Some(MergedDictionary(o, primary, secondary))
      ensures errors > 0 <==> result.None?
    {
      if !WellFormed(primary.data) {
        errors := errors + 1;
      }
      if !WellFormed(secondary.data) {
        errors := errors + 1;
      }
      if errors > 0 {
        return None;
      }
      var metadata := MergeMetadata();
      var types := MergeByQualifiedName(primary.data.definitions[TypeDefinitions],
        secondary.data.definitions[TypeDefinitions]);
      var constants := MergeByQualifiedName(primary.data.definitions[Constants], secondary.data.definitions[Constants]);
      var entries := MergeIdSections();
      var sets := MergePacketSets();
      CheckPacketSets(entries[TelemetryChannels], sets);
      FailsExactly(o, primary, secondary);
      if errors > 0 {
        return None;
      }
      result := Some(Dictionary(metadata, map[TypeDefinitions := types, Constants := constants],
                                entries[TelemetryPacketSets := sets]));
      SameDictionary(result.value, types, constants, entries, sets);
    }

    /** Both inputs' packet sets, rewritten and merged. */
    method MergePacketSets() returns (sets: seq<Entry>)
      requires WellFormed(primary.data) && WellFormed(secondary.data) && Recorded(|ID_SECTIONS|)
      modifies this
      ensures Valid()
      ensures sets == MergedSection(o, TelemetryPacketSets, primary, secondary)
      ensures errors > 0 <==> old(errors) > 0 || PacketSetsFail(o, primary, secondary)
    {
      var x, y := RewriteBoth();
      sets := MergeEntries(TelemetryPacketSets, x, y);
    }

    method RewriteBoth() returns (x: seq<Entry>, y: seq<Entry>)
      requires WellFormed(primary.data) && WellFormed(secondary.data) && Recorded(|ID_SECTIONS|)
      modifies this`errors, this`prefixes, this`prefixError
      ensures Valid() && RenamedNow(TelemetryPacketSets) == {}
      ensures x == SectionInput(o, TelemetryPacketSets, primary, secondary, 0)
      ensures y == SectionInput(o, TelemetryPacketSets, primary, secondary, 1)
      ensures errors > 0 <==> old(errors) > 0 || SetsAskBadPrefix(o, primary, secondary)
    {
      var a, b := primary.data.entries[TelemetryPacketSets], secondary.data.entries[TelemetryPacketSets];
      AllPacketSets(a);
      AllPacketSets(b);
      TablesAreChannels();
      NoSetsRenamed();
      x := RewriteAll(0, a);
      y := RewriteAll(1, b);
    }

    lemma NoSetsRenamed()
      requires WellFormed(primary.data) && WellFormed(secondary.data) && Recorded(|ID_SECTIONS|)
      ensures RenamedNow(TelemetryPacketSets) == {}
    {
      assert TelemetryPacketSets !in ID_SECTIONS;
    }

    lemma TablesAreChannels()
      requires WellFormed(primary.data) && WellFormed(secondary.data) && Recorded(|ID_SECTIONS|)
      ensures Tables() == ChannelsOf(o, primary, secondary)
    {
      assert ID_SECTIONS[..|ID_SECTIONS|] == ID_SECTIONS;
      assert ID_SECTIONS[3] == TelemetryChannels;
      var renamed := Renamed(o, TelemetryChannels, primary.data.entries[TelemetryChannels],
        secondary.data.entries[TelemetryChannels]);
      forall n ensures n in RenamedNow(TelemetryChannels) <==> n in renamed {
        assert n in RenamedNow(TelemetryChannels) <==> (TelemetryChannels, n) in renamed0;
      }
    }

    lemma SameDictionary(d: Dictionary, types: seq<Definition>, constants: seq<Definition>,
                         entries: map<Section, seq<Entry>>, sets: seq<Entry>)
      requires WellFormed(primary.data) && WellFormed(secondary.data)
      requires d == Dictionary(MergedMetadata(o, primary.data.metadata, secondary.data.metadata),
                               map[TypeDefinitions := types, Constants := constants],
                               entries[TelemetryPacketSets := sets])
      requires types == MergedDefinitions(TypeDefinitions, primary, secondary)
      requires constants == MergedDefinitions(Constants, primary, secondary)
      requires entries.Keys == set s | s in ID_SECTIONS
      requires forall s | s in entries :: entries[s] == MergedSection(o, s, primary, secondary)
      requires sets == MergedSection(o, TelemetryPacketSets, primary, secondary)
      ensures d == MergedDictionary(o, primary, secondary)
    {
      DefinitionsComplete(types, constants, map s | s in {TypeDefinitions, Constants} ::
        MergedDefinitions(s, primary, secondary));
      EntriesComplete(entries, sets, map s | s in SECTIONS :: MergedSection(o, s, primary, secondary));
    }
  }

  lemma AllPacketSets(sets: seq<Entry>)
    requires SectionOk(TelemetryPacketSets, sets)
    ensures forall i | 0 <= i < |sets| :: sets[i].body.PacketSet?
  {
    assert forall i | 0 <= i < |sets| :: EntryOk(TelemetryPacketSets, sets[i]);
  }

  lemma FollowOne(ch: Channels, index: nat, names: seq<string>, i: nat)
    requires i < |names|
    ensures ch.FollowNames(index, names[..i + 1]) == ch.FollowNames(index, names[..i]) + [ch.Name(index, names[i])]
    ensures ch.NamesAsk(names[..i + 1]) <==> ch.NamesAsk(names[..i]) || ch.o.namespaceAll || names[i] in ch.renamed
  {
    assert forall k | 0 <= k < i :: names[..i + 1][k] == names[..i][k];
    assert names[..i + 1][i] == names[i];
  }

  lemma UnlostOne(ch: Channels, index: nat, packets: seq<Packet>, i: nat)
    requires i < |packets|
    ensures var was, now := ch.Unlost(index, packets[..i]), ch.Unlost(index, packets[..i + 1]);
      if ch.Lost(index, packets[i]) then now == was
      else
        && now == was + [packets[i]]
        && ch.FollowPackets(index, now) == ch.FollowPackets(index, was)
          + [packets[i].(members := ch.FollowNames(index, packets[i].members))]
        && (ch.PacketsAsk(now) <==> ch.PacketsAsk(was) || ch.NamesAsk(packets[i].members))
  {
    assert packets[..i + 1][..i] == packets[..i];
    var was, now := ch.Unlost(index, packets[..i]), ch.Unlost(index, packets[..i + 1]);
    if !ch.Lost(index, packets[i]) {
      assert forall k | 0 <= k < |was| :: now[k] == was[k];
      assert now[|was|] == packets[i];
    }
  }

  lemma RewriteOne(ch: Channels, index: nat, sets: seq<Entry>, i: nat)
    requires i < |sets|
    ensures ch.RewrittenAll(index, sets[..i + 1]) == ch.RewrittenAll(index, sets[..i]) + [ch.Rewritten(index, sets[i])]
    ensures ch.AsksPrefix(index, sets[..i + 1]) <==> ch.AsksPrefix(index, sets[..i]) || ch.SetAsks(index, sets[i])
  {
    assert forall k | 0 <= k < i :: sets[..i + 1][k] == sets[..i][k];
    assert sets[..i + 1][i] == sets[i];
  }

  lemma UnknownOne(channels: seq<Entry>, sets: seq<Entry>, i: nat)
    requires i < |sets|
    ensures UnknownReference(channels, sets[..i + 1]) <==>
      UnknownReference(channels, sets[..i])
      || (sets[i].body.PacketSet? && exists name | name in References(sets[i]) :: name !in Names(channels))
  {
    assert forall k | 0 <= k < i :: sets[..i + 1][k] == sets[..i][k];
    assert sets[..i + 1][i] == sets[i];
  }

  lemma SectionsDistinct(i: nat)
    requires i < |ID_SECTIONS|
    ensures ID_SECTIONS[i] !in ID_SECTIONS[..i] && IdBearing(ID_SECTIONS[i])
    ensures forall s :: s in ID_SECTIONS[..i + 1] <==> s in ID_SECTIONS[..i] || s == ID_SECTIONS[i]
  {
    assert ID_SECTIONS[..i + 1] == ID_SECTIONS[..i] + [ID_SECTIONS[i]];
  }

  /** Rewriting or merging the packet sets records an error. */
  predicate PacketSetsFail(o: Options, a: Input, b: Input)
    requires WellFormed(a.data) && WellFormed(b.data)
  {
    var s := TelemetryPacketSets;
    SetsAskBadPrefix(o, a, b) || SectionFails(o, s, a, b, SectionInput(o, s, a, b, 0), SectionInput(o, s, a, b, 1))
  }

  /** Following the names of the packet sets asks for a bad prefix. */
  predicate SetsAskBadPrefix(o: Options, a: Input, b: Input)
    requires WellFormed(a.data) && WellFormed(b.data)
  {
    && BadPrefixes(a, b)
    && (ChannelsOf(o, a, b).AsksPrefix(0, a.data.entries[TelemetryPacketSets])
        || ChannelsOf(o, a, b).AsksPrefix(1, b.data.entries[TelemetryPacketSets]))
  }

  lemma DefinitionsComplete(types: seq<Definition>, constants: seq<Definition>,
                            whole: map<DefinitionSection, seq<Definition>>)
    requires whole.Keys == {TypeDefinitions, Constants}
    requires whole[TypeDefinitions] == types && whole[Constants] == constants
    ensures map[TypeDefinitions := types, Constants := constants] == whole
  {
  }

  lemma EntriesComplete(entries: map<Section, seq<Entry>>, sets: seq<Entry>, whole: map<Section, seq<Entry>>)
    requires entries.Keys == set s | s in ID_SECTIONS
    requires whole.Keys == set s | s in SECTIONS
    requires whole[TelemetryPacketSets] == sets && forall s | s in entries :: entries[s] == whole[s]
    ensures entries[TelemetryPacketSets := sets] == whole
  {
    assert forall s :: s in SECTIONS <==> s in ID_SECTIONS || s == TelemetryPacketSets;
  }

  /** Merging an id-bearing section records an error. */
  predicate IdSectionFails(o: Options, a: Input, b: Input, s: Section)
    requires WellFormed(a.data) && WellFormed(b.data)
  {
    SectionFails(o, s, a, b, a.data.entries[s], b.data.entries[s])
  }

  lemma SectionsListed(s: Section)
    ensures IdBearing(s) <==> s in ID_SECTIONS
  {
    assert ID_SECTIONS[0] == Commands && ID_SECTIONS[1] == Parameters && ID_SECTIONS[2] == Events;
    assert ID_SECTIONS[3] == TelemetryChannels && ID_SECTIONS[4] == Records && ID_SECTIONS[5] == Containers;
  }

  lemma SectionsSplit(o: Options, a: Input, b: Input)
    requires WellFormed(a.data) && WellFormed(b.data)
    ensures (exists s :: SectionFails(o, s, a, b, SectionInput(o, s, a, b, 0), SectionInput(o, s, a, b, 1)))
      <==> (exists s | s in ID_SECTIONS :: IdSectionFails(o, a, b, s))
           || SectionFails(o, TelemetryPacketSets, a, b, SectionInput(o, TelemetryPacketSets, a, b, 0),
                           SectionInput(o, TelemetryPacketSets, a, b, 1))
  {
    if exists s :: SectionFails(o, s, a, b, SectionInput(o, s, a, b, 0), SectionInput(o, s, a, b, 1)) {
      var s :| SectionFails(o, s, a, b, SectionInput(o, s, a, b, 0), SectionInput(o, s, a, b, 1));
      SectionsListed(s);
      assert IdBearing(s) ==> IdSectionFails(o, a, b, s);
    }
    if exists s | s in ID_SECTIONS :: IdSectionFails(o, a, b, s) {
      var s :| s in ID_SECTIONS && IdSectionFails(o, a, b, s);
      SectionsListed(s);
      assert SectionFails(o, s, a, b, SectionInput(o, s, a, b, 0), SectionInput(o, s, a, b, 1));
    }
  }

  /** The steps of the merge account for every way it can fail. */
  lemma FailsExactly(o: Options, a: Input, b: Input)
    requires WellFormed(a.data) && WellFormed(b.data)
    ensures MergeFails(o, a, b) <==> (
      || MetadataFails(o, a.data.metadata, b.data.metadata)
      || DefinitionsFail(o, a.data.definitions[TypeDefinitions], b.data.definitions[TypeDefinitions])
      || DefinitionsFail(o, a.data.definitions[Constants], b.data.definitions[Constants])
      || (exists s | s in ID_SECTIONS :: IdSectionFails(o, a, b, s))
      || PacketSetsFail(o, a, b)
      || UnknownReference(MergedSection(o, TelemetryChannels, a, b), MergedSection(o, TelemetryPacketSets, a, b)))
  {
    SectionsSplit(o, a, b);
    if exists d :: DefinitionsFail(o, a.data.definitions[d], b.data.definitions[d]) {
      var d :| DefinitionsFail(o, a.data.definitions[d], b.data.definitions[d]);
      assert d == TypeDefinitions || d == Constants;
    }
  }
}
