/** The names a merge gives, when a merge succeeds, and the order in which it keeps things, all said of the inputs. */
module MergeNames {
  import opened Bytes
  import opened Strings
  import opened Sequences
  import opened MergeSpec
  import opened MergeTheorems
  import opened MergeSymmetry

  // ---------------------------------------------------------------- prefixes

  /** An explicit prefix is taken as it is; otherwise it is the deployment's name, or what stands behind its last dot,
      if that is an identifier. */
  lemma PrefixMeaning(input: Input, path: string, segment: string)
    requires '.' !in segment
    ensures input.prefix.Some? && input.prefix.value != "" ==> Prefix(input) == input.prefix
    ensures var named := input.data.metadata.deploymentName;
      input.prefix in {None, Some("")} ==>
        && (named == None ==> Prefix(input) == None)
        && (named in {Some(segment), Some(path + "." + segment)} ==>
              Prefix(input) == if Identifier(segment) then Some(segment) else None)
  {
    NoDot(segment);
    BehindDot(path, segment);
    assert LastSegment("") == "";
  }

  function Joined(segments: seq<string>): string
    requires segments != []
  {
    if |segments| == 1 then segments[0]
    else Joined(segments[..|segments| - 1]) + "." + segments[|segments| - 1]
  }

  ghost predicate JoinsIdentifiers(s: string, segments: seq<string>) {
    segments != [] && (forall i | 0 <= i < |segments| :: Identifier(segments[i])) && s == Joined(segments)
  }

  lemma NoDotInIdentifier(s: string)
    requires Identifier(s)
    ensures '.' !in s
  {
  }

  lemma {:induction false} JoinedIsDotted(s: string, segments: seq<string>)
    requires JoinsIdentifiers(s, segments)
    ensures DottedIdentifier(s)
  {
    var k := |segments| - 1;
    NoDotInIdentifier(segments[k]);
    if k == 0 {
      NoDot(s);
    } else {
      var front := Joined(segments[..k]);
      BehindDot(front, segments[k]);
      assert s[..|front|] == front;
      JoinedIsDotted(front, segments[..k]);
    }
  }

  lemma JoinOneMore(s: string, segments: seq<string>, last: string)
    requires JoinsIdentifiers(s, segments) && Identifier(last)
    ensures JoinsIdentifiers(s + "." + last, segments + [last])
  {
    var more := segments + [last];
    assert more[..|more| - 1] == segments;
  }

  lemma {:induction false} DottedIsJoined(s: string)
    requires DottedIdentifier(s)
    ensures exists segments :: JoinsIdentifiers(s, segments)
    decreases |s|
  {
    var last := LastSegment(s);
    LastSegmentMeaning(s);
    if |last| == |s| {
      assert JoinsIdentifiers(s, [s]);
    } else {
      var front := s[..|s| - |last| - 1];
      DottedIsJoined(front);
      var segments :| JoinsIdentifiers(front, segments);
      JoinOneMore(front, segments, last);
      assert s == front + "." + last;
    }
  }

  /** The names `--name` accepts are the identifiers joined by dots. */
  lemma DottedMeaning(s: string)
    ensures DottedIdentifier(s) <==> exists segments :: JoinsIdentifiers(s, segments)
  {
    if DottedIdentifier(s) {
      DottedIsJoined(s);
    }
    if exists segments :: JoinsIdentifiers(s, segments) {
      var segments :| JoinsIdentifiers(s, segments);
      JoinedIsDotted(s, segments);
    }
  }

  // ---------------------------------------------------------------- the names in a merged section

  /** An entry of the secondary that is not the primary's and whose id the primary does not use. */
  ghost predicate Newcomer(s: Section, x: seq<Entry>, e: Entry) {
    e !in x && !SameId(s, x, e)
  }

  lemma NewcomerStays(o: Options, s: Section, x: seq<Entry>, e: Entry)
    requires SectionOk(s, x)
    ensures var v := Against(o, s, x, e); var all := o.namespaceAll && IdBearing(s);
      && (Stays(o, v) <==> Newcomer(s, x, e) && (o.noNamespace && !all ==> !SameName(x, e)))
      && (v == NameConflict <==> Newcomer(s, x, e) && SameName(x, e) && !all)
  {
    VerdictMeaning(o, s, x, e);
    LookUps(s, x, e);
  }

  /** The name belongs to an entry of the primary and to a newcomer. */
  ghost predicate Collides(s: Section, x: seq<Entry>, y: seq<Entry>, n: string) {
    exists p, e :: p in x && e in y && p.name == n && e.name == n && Newcomer(s, x, e)
  }

  lemma RenamedCollides(o: Options, s: Section, x: seq<Entry>, y: seq<Entry>, n: string)
    requires SectionOk(s, x)
    ensures n in Renamed(o, s, x, y) <==>
      !o.noNamespace && !(o.namespaceAll && IdBearing(s)) && Collides(s, x, y, n)
  {
    RenamedMeaning(o, s, x, y, n);
    forall e | e in y ensures Against(o, s, x, e) == NameConflict <==>
      Newcomer(s, x, e) && SameName(x, e) && !(o.namespaceAll && IdBearing(s))
    {
      NewcomerStays(o, s, x, e);
    }
  }

  /** The name of an entry in the merged section. */
  ghost function FullName(o: Options, s: Section, x: seq<Entry>, y: seq<Entry>, prefix: string, n: string): string {
    if (o.namespaceAll && IdBearing(s)) || (!o.noNamespace && Collides(s, x, y, n)) then prefix + "." + n else n
  }

  /** q is an entry of the primary under its full name. */
  ghost predicate FromPrimary(o: Options, s: Section, A: string, x: seq<Entry>, y: seq<Entry>, q: Entry) {
    exists p :: p in x && q == p.(name := FullName(o, s, x, y, A, p.name))
  }

  /** q is a newcomer under its full name, and not dropped for its own. */
  ghost predicate FromSecondary(o: Options, s: Section, B: string, x: seq<Entry>, y: seq<Entry>, q: Entry) {
    exists e :: e in y && Newcomer(s, x, e)
      && (o.noNamespace && !(o.namespaceAll && IdBearing(s)) ==> !SameName(x, e))
      && q == e.(name := FullName(o, s, x, y, B, e.name))
  }

  lemma OutIsFull(o: Options, s: Section, A: string, B: string, x: seq<Entry>, y: seq<Entry>, index: nat, e: Entry)
    requires SectionOk(s, x)
    ensures Out(o, s, Some(A), Some(B), x, y, index, e)
      == e.(name := FullName(o, s, x, y, if index == 0 then A else B, e.name))
  {
    RenamedCollides(o, s, x, y, e.name);
  }

  /** The merged section holds every entry of the primary, and of the secondary every newcomer that is not dropped for
      its name: with prefixes exactly when all names get them or the name collides and collisions are resolved so. */
  lemma SectionExactly(o: Options, s: Section, A: string, B: string, x: seq<Entry>, y: seq<Entry>, q: Entry)
    requires SectionOk(s, x)
    ensures q in MergeSection(o, s, Some(A), Some(B), x, y)
      <==> FromPrimary(o, s, A, x, y, q) || FromSecondary(o, s, B, x, y, q)
  {
    MergedMembers(o, s, Some(A), Some(B), x, y);
    KeptMembers(o, s, x, y);
    PrimaryExactly(o, s, A, B, x, y, q);
    SecondaryExactly(o, s, A, B, x, y, q);
  }

  lemma PrimaryExactly(o: Options, s: Section, A: string, B: string, x: seq<Entry>, y: seq<Entry>, q: Entry)
    requires SectionOk(s, x)
    ensures FromPrimary(o, s, A, x, y, q) <==> exists p :: p in x && q == Out(o, s, Some(A), Some(B), x, y, 0, p)
  {
    forall p ensures Out(o, s, Some(A), Some(B), x, y, 0, p) == p.(name := FullName(o, s, x, y, A, p.name)) {
      OutIsFull(o, s, A, B, x, y, 0, p);
    }
  }

  lemma SecondaryExactly(o: Options, s: Section, A: string, B: string, x: seq<Entry>, y: seq<Entry>, q: Entry)
    requires SectionOk(s, x)
    ensures FromSecondary(o, s, B, x, y, q) <==>
      exists e :: e in Kept(o, s, x, y) && q == Out(o, s, Some(A), Some(B), x, y, 1, e)
  {
    KeptMembers(o, s, x, y);
    forall e ensures Out(o, s, Some(A), Some(B), x, y, 1, e) == e.(name := FullName(o, s, x, y, B, e.name)) {
      OutIsFull(o, s, A, B, x, y, 1, e);
    }
    forall e ensures Stays(o, Against(o, s, x, e)) <==>
      Newcomer(s, x, e) && (o.noNamespace && !(o.namespaceAll && IdBearing(s)) ==> !SameName(x, e))
    {
      NewcomerStays(o, s, x, e);
    }
  }

  /** Two entries with one name and different ids, or different packet sets with one name, both stay, each with its
      input's prefix. */
  lemma CollisionPrefixed(o: Options, s: Section, A: string, B: string, x: seq<Entry>, y: seq<Entry>, p: Entry,
                          e: Entry)
    requires SectionOk(s, x) && SectionOk(s, y) && !o.namespaceAll && !o.noNamespace
    requires p in x && e in y && p.name == e.name && p != e && !SameId(s, x, e)
    ensures p.(name := A + "." + p.name) in MergeSection(o, s, Some(A), Some(B), x, y)
    ensures e.(name := B + "." + e.name) in MergeSection(o, s, Some(A), Some(B), x, y)
  {
    if e in x {
      SameNameSame(s, x, p, e);
    }
    assert Newcomer(s, x, e);
    SectionExactly(o, s, A, B, x, y, p.(name := A + "." + p.name));
    SectionExactly(o, s, A, B, x, y, e.(name := B + "." + e.name));
  }

  /** An entry whose name no different entry of the other input has keeps its name. */
  lemma UnpairedKeepsName(o: Options, s: Section, A: string, B: string, x: seq<Entry>, y: seq<Entry>, z: Entry)
    requires SectionOk(s, x) && SectionOk(s, y) && !(o.namespaceAll && IdBearing(s))
    requires z in x || (z in y && !SameId(s, x, z))
    requires !NamePair(x, y, z.name)
    ensures z in MergeSection(o, s, Some(A), Some(B), x, y)
  {
    SectionExactly(o, s, A, B, x, y, z);
    assert !Collides(s, x, y, z.name);
    assert z.(name := z.name) == z;
    if z !in x {
      assert Newcomer(s, x, z) && !SameName(x, z);
    }
  }

  /** With `namespace_all`, every entry of the primary and every newcomer has its input's prefix. */
  lemma NamespaceAllPrefixes(o: Options, s: Section, A: string, B: string, x: seq<Entry>, y: seq<Entry>, z: Entry)
    requires SectionOk(s, x) && o.namespaceAll && IdBearing(s)
    ensures z in x ==> z.(name := A + "." + z.name) in MergeSection(o, s, Some(A), Some(B), x, y)
    ensures z in y && !SameId(s, x, z) ==> z.(name := B + "." + z.name) in MergeSection(o, s, Some(A), Some(B), x, y)
  {
    SectionExactly(o, s, A, B, x, y, z.(name := A + "." + z.name));
    SectionExactly(o, s, A, B, x, y, z.(name := B + "." + z.name));
  }

  // ---------------------------------------------------------------- errors, whatever the options

  /** The entry loses: it differs from the primary's of its id, or of its name where names may not be prefixed. */
  ghost predicate Beaten(o: Options, s: Section, x: seq<Entry>, e: Entry) {
    && e !in x
    && (SameId(s, x, e) || (SameName(x, e) && o.noNamespace && !(o.namespaceAll && IdBearing(s))))
  }

  /** A section has a conflict exactly when an entry loses and the primary is not preferred. */
  lemma ConflictIff(o: Options, s: Section, x: seq<Entry>, y: seq<Entry>)
    requires SectionOk(s, x)
    ensures HasConflict(o, s, x, y) <==> !o.preferPrimary && exists e :: e in y && Beaten(o, s, x, e)
  {
    forall e ensures Loses(o, Against(o, s, x, e)) <==> Beaten(o, s, x, e) {
      VerdictMeaning(o, s, x, e);
      NewcomerStays(o, s, x, e);
    }
    if exists e :: e in y && Beaten(o, s, x, e) {
      var e :| e in y && Beaten(o, s, x, e);
      var i :| 0 <= i < |y| && y[i] == e;
      assert Loses(o, Against(o, s, x, y[i]));
    }
  }

  /** Prefixes are asked for exactly when all names get one and there is a name, or a collision is renamed. */
  lemma PrefixAskedIff(o: Options, s: Section, x: seq<Entry>, y: seq<Entry>)
    requires SectionOk(s, x)
    ensures UsesPrefix(o, s, x, y) <==>
      if o.namespaceAll && IdBearing(s) then x != [] || exists e :: e in y && Newcomer(s, x, e)
      else !o.noNamespace && exists n :: Collides(s, x, y, n)
  {
    forall n ensures n in Renamed(o, s, x, y) <==>
      !o.noNamespace && !(o.namespaceAll && IdBearing(s)) && Collides(s, x, y, n)
    {
      RenamedCollides(o, s, x, y, n);
    }
    if o.namespaceAll && IdBearing(s) {
      KeptMembers(o, s, x, y);
      forall e ensures Stays(o, Against(o, s, x, e)) <==> Newcomer(s, x, e) {
        NewcomerStays(o, s, x, e);
      }
      NoMembers(Kept(o, s, x, y));
    }
  }

  lemma NoMembers<T>(s: seq<T>)
    ensures s != [] <==> exists e :: e in s
  {
    if s != [] {
      assert s[0] in s;
    }
  }

  /** Whenever a merge succeeds, no id-bearing entry has lost unless the primary is preferred, and if any name of the
      section carries a prefix, the prefixes are there and differ. */
  lemma SuccessMeans(o: Options, s: Section, a: Input, b: Input)
    requires IdBearing(s) && !MergeFails(o, a, b)
    ensures var x, y := a.data.entries[s], b.data.entries[s];
      && (!o.preferPrimary ==> forall e | e in y :: !Beaten(o, s, x, e))
      && ((o.namespaceAll && x + y != []) || (!o.noNamespace && exists n :: Collides(s, x, y, n)) ==>
            Prefix(a).Some? && Prefix(b).Some? && Prefix(a) != Prefix(b))
  {
    var x, y := a.data.entries[s], b.data.entries[s];
    assert !SectionFails(o, s, a, b, SectionInput(o, s, a, b, 0), SectionInput(o, s, a, b, 1));
    ConflictIff(o, s, x, y);
    PrefixAskedIff(o, s, x, y);
    if o.namespaceAll && x == [] && y != [] {
      assert y[0] in y && Newcomer(s, x, y[0]);
    }
  }
}
