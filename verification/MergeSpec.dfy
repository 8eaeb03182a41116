/** What merging two dictionaries means: which entries of the secondary are kept, which names are prefixed, and what
    each packet's channel names become. */
module MergeSpec {
  import opened Bytes
  import opened Strings

  /** The sections whose entries have names; all but the last carry ids. */
  datatype Section = Commands | Parameters | Events | TelemetryChannels | Records | Containers | TelemetryPacketSets

  /** The sections of definitions with qualified names. */
  datatype DefinitionSection = TypeDefinitions | Constants

  const ID_SECTIONS := [Commands, Parameters, Events, TelemetryChannels, Records, Containers]
  const SECTIONS := ID_SECTIONS + [TelemetryPacketSets]

  datatype Packet = Packet(name: string, id: int, members: seq<string>, rest: string)

  /** The fields other than name and id: as they are, or those of a packet set. */
  datatype Body = Plain(json: string) | PacketSet(packets: seq<Packet>, omitted: seq<string>, rest: string)

  datatype Entry = Entry(name: string, id: Option<int>, body: Body)

  datatype Definition = Definition(qualifiedName: string, body: string)

  datatype Metadata = Metadata(deploymentName: Option<string>, project: Option<string>, framework: Option<string>,
                               spec: Option<string>, rest: string)

  datatype Dictionary = Dictionary(metadata: Metadata, definitions: map<DefinitionSection, seq<Definition>>,
                                   entries: map<Section, seq<Entry>>)

  datatype Options = Options(name: Option<string>, permissive: bool, preferPrimary: bool, noNamespace: bool,
                             namespaceAll: bool)

  datatype Input = Input(data: Dictionary, prefix: Option<string>)

  predicate IdBearing(s: Section) {
    s != TelemetryPacketSets
  }

  predicate Distinct<T(==)>(s: seq<T>) {
    forall i, j | 0 <= i < j < |s| :: s[i] != s[j]
  }

  function Names(entries: seq<Entry>): seq<string> {
    seq(|entries|, i requires 0 <= i < |entries| => entries[i].name)
  }

  function Ids(entries: seq<Entry>): seq<Option<int>> {
    seq(|entries|, i requires 0 <= i < |entries| => entries[i].id)
  }

  function QualifiedNames(definitions: seq<Definition>): seq<string> {
    seq(|definitions|, i requires 0 <= i < |definitions| => definitions[i].qualifiedName)
  }

  // ---------------------------------------------------------------- validation

  predicate EntryOk(s: Section, e: Entry) {
    e.name != "" && if IdBearing(s) then e.id.Some? && e.body.Plain? else e.id.None? && e.body.PacketSet?
  }

  predicate SectionOk(s: Section, entries: seq<Entry>) {
    && (forall i | 0 <= i < |entries| :: EntryOk(s, entries[i]))
    && Distinct(Names(entries))
    && (IdBearing(s) ==> Distinct(Ids(entries)))
  }

  predicate DefinitionsOk(definitions: seq<Definition>) {
    (forall i | 0 <= i < |definitions| :: definitions[i].qualifiedName != "") && Distinct(QualifiedNames(definitions))
  }

  /** Nothing for `validate` to record. */
  predicate WellFormed(d: Dictionary) {
    && (forall s :: s in d.entries && SectionOk(s, d.entries[s]))
    && (forall s :: s in d.definitions && DefinitionsOk(d.definitions[s]))
  }

  // ---------------------------------------------------------------- prefixes

  predicate Letter(c: char) {
    'a' <= c <= 'z' || 'A' <= c <= 'Z' || c == '_'
  }

  predicate Identifier(s: string) {
    s != "" && Letter(s[0]) && forall i | 0 <= i < |s| :: Letter(s[i]) || '0' <= s[i] <= '9'
  }

  predicate DottedIdentifier(s: string)
    decreases |s|
  {
    var last := LastSegment(s);
    Identifier(last) && (|last| == |s| || DottedIdentifier(s[..|s| - |last| - 1]))
  }

  /** `namespace_prefix` */
  function Prefix(input: Input): Option<string> {
    var segment := LastSegment(input.data.metadata.deploymentName.GetOr(""));
    if input.prefix.Some? && input.prefix.value != "" then input.prefix
    else if Identifier(segment) then Some(segment) else None
  }

  /** A prefix is missing, or both are the same. */
  predicate BadPrefixes(a: Input, b: Input) {
    Prefix(a).None? || Prefix(b).None? || Prefix(a) == Prefix(b)
  }

  function Prefixed(prefix: Option<string>, name: string): string {
    prefix.GetOr("None") + "." + name
  }

  // ---------------------------------------------------------------- collisions

  /** The dictionary built by `{entry["name"]: entry for entry in entries}` */
  function NameMap(entries: seq<Entry>): map<string, Entry> {
    if entries == [] then map[]
    else NameMap(entries[..|entries| - 1])[entries[|entries| - 1].name := entries[|entries| - 1]]
  }

  function IdMap(entries: seq<Entry>): map<Option<int>, Entry> {
    if entries == [] then map[]
    else IdMap(entries[..|entries| - 1])[entries[|entries| - 1].id := entries[|entries| - 1]]
  }

  /** How a secondary entry stands to the primary's entries of its section. */
  datatype Verdict = Identical | DefinitionConflict | IdConflict | Unmatched | NameConflict

  function Judge(o: Options, s: Section, byName: map<string, Entry>, byId: map<Option<int>, Entry>, e: Entry): Verdict {
    if e.name in byName && byName[e.name] == e then Identical
    else if IdBearing(s) && e.id in byId && byId[e.id].name == e.name then DefinitionConflict
    else if IdBearing(s) && e.id in byId then IdConflict
    else if e.name !in byName || (IdBearing(s) && o.namespaceAll) then Unmatched
    else NameConflict
  }

  function Against(o: Options, s: Section, primary: seq<Entry>, e: Entry): Verdict {
    Judge(o, s, NameMap(primary), IdMap(primary), e)
  }

  /** The secondary's entry stays. */
  predicate Stays(o: Options, v: Verdict) {
    v == Unmatched || (v == NameConflict && !o.noNamespace)
  }

  /** The secondary's entry loses a conflict. */
  predicate Loses(o: Options, v: Verdict) {
    v == DefinitionConflict || v == IdConflict || (v == NameConflict && o.noNamespace)
  }

  function Kept(o: Options, s: Section, primary: seq<Entry>, secondary: seq<Entry>): seq<Entry> {
    if secondary == [] then []
    else
      var rest, last := Kept(o, s, primary, secondary[..|secondary| - 1]), secondary[|secondary| - 1];
      if Stays(o, Against(o, s, primary, last)) then rest + [last] else rest
  }

  /** Names of the secondary's entries with a verdict satisfying `p`. */
  function NamesWith(o: Options, s: Section, primary: seq<Entry>, secondary: seq<Entry>,
                     p: Verdict -> bool): set<string> {
    set i | 0 <= i < |secondary| && p(Against(o, s, primary, secondary[i])) :: secondary[i].name
  }

  /** Names both inputs use for different entries: renamed in both. */
  function Renamed(o: Options, s: Section, primary: seq<Entry>, secondary: seq<Entry>): set<string> {
    NamesWith(o, s, primary, secondary, v => v == NameConflict && !o.noNamespace)
  }

  /** Secondary names that stand for the primary's entry. */
  function Shared(o: Options, primary: seq<Entry>, secondary: seq<Entry>): set<string> {
    NamesWith(o, TelemetryChannels, primary, secondary,
              v => v == Identical || (v == DefinitionConflict && o.preferPrimary))
  }

  /** Secondary names that leave the merge. */
  function Dropped(o: Options, primary: seq<Entry>, secondary: seq<Entry>): set<string> {
    NamesWith(o, TelemetryChannels, primary, secondary,
              v => o.preferPrimary && (v == IdConflict || (v == NameConflict && o.noNamespace)))
  }

  /** A name as an entry of one input carries it in the merged section. */
  function OutName(o: Options, s: Section, renamed: set<string>, prefix: Option<string>, name: string): string {
    if (o.namespaceAll && IdBearing(s)) || name in renamed then Prefixed(prefix, name) else name
  }

  function RenameAll(o: Options, s: Section, renamed: set<string>, prefix: Option<string>,
                     entries: seq<Entry>): seq<Entry> {
    seq(|entries|, i requires 0 <= i < |entries| =>
      entries[i].(name := OutName(o, s, renamed, prefix, entries[i].name)))
  }

  /** `merge_entries`: the primary's entries, then the secondary's that stay, under their output names. */
  function MergeSection(o: Options, s: Section, pa: Option<string>, pb: Option<string>,
                        primary: seq<Entry>, secondary: seq<Entry>): seq<Entry> {
    var renamed := Renamed(o, s, primary, secondary);
    RenameAll(o, s, renamed, pa, primary) + RenameAll(o, s, renamed, pb, Kept(o, s, primary, secondary))
  }

  /** Some output name of the section carries a prefix. */
  predicate UsesPrefix(o: Options, s: Section, primary: seq<Entry>, secondary: seq<Entry>) {
    (o.namespaceAll && IdBearing(s) && primary + Kept(o, s, primary, secondary) != [])
    || Renamed(o, s, primary, secondary) != {}
  }

  /** A conflict is lost and not resolved in favour of the primary. */
  predicate HasConflict(o: Options, s: Section, primary: seq<Entry>, secondary: seq<Entry>) {
    !o.preferPrimary && exists i | 0 <= i < |secondary| :: Loses(o, Against(o, s, primary, secondary[i]))
  }

  /** Merging the section records an error. */
  predicate SectionFails(o: Options, s: Section, a: Input, b: Input, primary: seq<Entry>, secondary: seq<Entry>) {
    || HasConflict(o, s, primary, secondary)
    || (UsesPrefix(o, s, primary, secondary) && BadPrefixes(a, b))
    || !Distinct(Names(MergeSection(o, s, Prefix(a), Prefix(b), primary, secondary)))
  }

  // ---------------------------------------------------------------- definitions

  function DefinitionMap(definitions: seq<Definition>): map<string, Definition> {
    if definitions == [] then map[]
    else
      var rest, last := definitions[..|definitions| - 1], definitions[|definitions| - 1];
      DefinitionMap(rest)[last.qualifiedName := last]
  }

  predicate DefinitionClash(primary: seq<Definition>, d: Definition) {
    var held := DefinitionMap(primary);
    d.qualifiedName in held && held[d.qualifiedName] != d
  }

  function KeptDefinitions(primary: seq<Definition>, secondary: seq<Definition>): seq<Definition> {
    if secondary == [] then []
    else
      var rest, last := KeptDefinitions(primary, secondary[..|secondary| - 1]), secondary[|secondary| - 1];
      if last.qualifiedName in DefinitionMap(primary) then rest else rest + [last]
  }

  predicate DefinitionsFail(o: Options, primary: seq<Definition>, secondary: seq<Definition>) {
    !o.preferPrimary && exists i | 0 <= i < |secondary| :: DefinitionClash(primary, secondary[i])
  }

  // ---------------------------------------------------------------- packet sets

  /** What a rewrite of packet sets depends on: the channels' renamed, shared and dropped names and the prefixes. */
  datatype Channels = Channels(o: Options, renamed: set<string>, shared: set<string>, dropped: set<string>,
                               pa: Option<string>, pb: Option<string>)
  {
    /** The merged name of channel `name` of input `index`. */
    function Name(index: nat, name: string): string {
      OutName(o, TelemetryChannels, renamed, if index == 0 || name in shared then pa else pb, name)
    }

    function DroppedFor(index: nat): set<string> {
      if index == 1 then dropped else {}
    }

    predicate Lost(index: nat, p: Packet) {
      exists k | 0 <= k < |p.members| :: p.members[k] in DroppedFor(index)
    }

    /** The packets that list no dropped channel. */
    function Unlost(index: nat, packets: seq<Packet>): seq<Packet> {
      if packets == [] then []
      else
        var rest, last := Unlost(index, packets[..|packets| - 1]), packets[|packets| - 1];
        if Lost(index, last) then rest else rest + [last]
    }

    function Surviving(index: nat, names: seq<string>): seq<string> {
      if names == [] then []
      else
        var rest, last := Surviving(index, names[..|names| - 1]), names[|names| - 1];
        if last in DroppedFor(index) then rest else rest + [last]
    }

    /** A packet set without what references dropped channels. */
    function Trimmed(index: nat, e: Entry): Entry
      requires e.body.PacketSet?
    {
      e.(body := PacketSet(Unlost(index, e.body.packets), Surviving(index, e.body.omitted), e.body.rest))
    }

    function FollowNames(index: nat, names: seq<string>): seq<string> {
      seq(|names|, k requires 0 <= k < |names| => Name(index, names[k]))
    }

    function FollowPackets(index: nat, packets: seq<Packet>): seq<Packet> {
      seq(|packets|, k requires 0 <= k < |packets| => packets[k].(members := FollowNames(index, packets[k].members)))
    }

    /** `rewrite_packet_set` */
    function Rewritten(index: nat, e: Entry): Entry {
      if e.body.Plain? then e
      else
        var t := Trimmed(index, e).body;
        e.(body := PacketSet(FollowPackets(index, t.packets), FollowNames(index, t.omitted), t.rest))
    }

    function RewrittenAll(index: nat, sets: seq<Entry>): seq<Entry> {
      seq(|sets|, i requires 0 <= i < |sets| => Rewritten(index, sets[i]))
    }

    /** Following the names asks for a prefix. */
    predicate NamesAsk(names: seq<string>) {
      exists k | 0 <= k < |names| :: o.namespaceAll || names[k] in renamed
    }

    predicate PacketsAsk(packets: seq<Packet>) {
      exists k | 0 <= k < |packets| :: NamesAsk(packets[k].members)
    }

    predicate SetAsks(index: nat, e: Entry) {
      e.body.PacketSet? &&
      (PacketsAsk(Unlost(index, e.body.packets)) || NamesAsk(Surviving(index, e.body.omitted)))
    }

    /** Rewriting the packet sets asks for a prefix. */
    predicate AsksPrefix(index: nat, sets: seq<Entry>) {
      exists i | 0 <= i < |sets| :: SetAsks(index, sets[i])
    }
  }

  /** The channel names a packet set mentions. */
  function References(e: Entry): set<string>
    requires e.body.PacketSet?
  {
    (set i, k | 0 <= i < |e.body.packets| && 0 <= k < |e.body.packets[i].members| :: e.body.packets[i].members[k])
    + (set k | 0 <= k < |e.body.omitted| :: e.body.omitted[k])
  }

  function ChannelsOf(o: Options, a: Input, b: Input): Channels
    requires TelemetryChannels in a.data.entries && TelemetryChannels in b.data.entries
  {
    var x, y := a.data.entries[TelemetryChannels], b.data.entries[TelemetryChannels];
    Channels(o, Renamed(o, TelemetryChannels, x, y), Shared(o, x, y), Dropped(o, x, y), Prefix(a), Prefix(b))
  }

  // ---------------------------------------------------------------- the whole merge

  /** `merge_metadata` records an error. */
  predicate MetadataFails(o: Options, a: Metadata, b: Metadata) {
    (o.name.Some? && !DottedIdentifier(o.name.value))
    || (!o.permissive && !(a.project == b.project && a.framework == b.framework && a.spec == b.spec))
  }

  function MergedMetadata(o: Options, a: Metadata, b: Metadata): Metadata {
    var derived := a.deploymentName.GetOr("unknown") + "_" + b.deploymentName.GetOr("unknown") + "_merged";
    a.(deploymentName := Some(o.name.GetOr(derived)))
  }

  /** The lists `merge_entries` is given: as they are, or rewritten packet sets. */
  function SectionInput(o: Options, s: Section, a: Input, b: Input, index: nat): seq<Entry>
    requires WellFormed(a.data) && WellFormed(b.data)
  {
    var mine := if index == 0 then a.data.entries[s] else b.data.entries[s];
    if IdBearing(s) then mine else ChannelsOf(o, a, b).RewrittenAll(index, mine)
  }

  function MergedSection(o: Options, s: Section, a: Input, b: Input): seq<Entry>
    requires WellFormed(a.data) && WellFormed(b.data)
  {
    MergeSection(o, s, Prefix(a), Prefix(b), SectionInput(o, s, a, b, 0), SectionInput(o, s, a, b, 1))
  }

  function MergedDefinitions(s: DefinitionSection, a: Input, b: Input): seq<Definition>
    requires WellFormed(a.data) && WellFormed(b.data)
  {
    a.data.definitions[s] + KeptDefinitions(a.data.definitions[s], b.data.definitions[s])
  }

  function MergedDictionary(o: Options, a: Input, b: Input): Dictionary
    requires WellFormed(a.data) && WellFormed(b.data)
  {
    Dictionary(MergedMetadata(o, a.data.metadata, b.data.metadata),
               map s | s in {TypeDefinitions, Constants} :: MergedDefinitions(s, a, b),
               map s | s in SECTIONS :: MergedSection(o, s, a, b))
  }

  /** Some packet set mentions a channel that is not there. */
  predicate UnknownReference(channels: seq<Entry>, sets: seq<Entry>) {
    exists i | 0 <= i < |sets| :: sets[i].body.PacketSet?
      && exists name | name in References(sets[i]) :: name !in Names(channels)
  }

  /** The merge records an error, and so returns nothing. */
  ghost predicate MergeFails(o: Options, a: Input, b: Input) {
    || !WellFormed(a.data) || !WellFormed(b.data)
    || MetadataFails(o, a.data.metadata, b.data.metadata)
    || (exists s :: DefinitionsFail(o, a.data.definitions[s], b.data.definitions[s]))
    || (exists s :: SectionFails(o, s, a, b, SectionInput(o, s, a, b, 0), SectionInput(o, s, a, b, 1)))
    || (BadPrefixes(a, b) && (ChannelsOf(o, a, b).AsksPrefix(0, a.data.entries[TelemetryPacketSets])
                              || ChannelsOf(o, a, b).AsksPrefix(1, b.data.entries[TelemetryPacketSets])))
    || UnknownReference(MergedSection(o, TelemetryChannels, a, b), MergedSection(o, TelemetryPacketSets, a, b))
  }
}
