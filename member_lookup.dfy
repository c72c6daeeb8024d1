/**
 * The mapping table of a type mapper. Every mapping gets a physical index (its
 * position among all columns of the file) and a logical index (its position among
 * the columns that carry data, i.e. ignoring ignored columns). Ignored columns take
 * a physical slot but no logical one.
 */
module MemberLookups {
  import opened FlatFiles

  /**
   * The dictionary keys. The source builds them as strings: a member's name, "@Custom_"
   * followed by a column name, or "@Ignored_" followed by a physical index. Member names
   * are identifiers and never contain '@', so the three kinds never collide; the model
   * keeps them apart by constructor.
   */
  datatype Key = MemberKey(name: string) | CustomKey(name: string) | IgnoredKey(index: nat)

  /** A mapping as far as the table is concerned: its column and its two indices. */
  datatype MemberMapping =
    | ColumnMapping(column: ColumnDefinition, physicalIndex: nat, logicalIndex: nat)
    | IgnoredMapping(physicalIndex: nat)
  {
    /** The column this mapping contributes to a schema. */
    function ColumnDefinitionOf(): ColumnDefinition
    {
      if IgnoredMapping? then ColumnDefinition("", IgnoredColumn) else column
    }
  }

  /** The number of ignored mappings in `ms`. */
  function CountIgnored(ms: seq<MemberMapping>): (n: nat)
    ensures n <= |ms|
  {
    if ms == [] then 0
    else CountIgnored(ms[..|ms| - 1]) + (if ms[|ms| - 1].IgnoredMapping? then 1 else 0)
  }

  /**
   * The indexing rule of the table at position i of the mappings in physical order:
   * the mapping has physical index i and, unless it is ignored, logical index i minus
   * the number of ignored mappings before it.
   */
  ghost predicate IndexedAt(ms: seq<MemberMapping>, i: nat)
    requires i < |ms|
  {
    && ms[i].physicalIndex == i
    && (ms[i].ColumnMapping? ==> ms[i].logicalIndex + CountIgnored(ms[..i]) == i)
  }

  /** The indexing rule holds at every position. */
  ghost predicate WellIndexed(ms: seq<MemberMapping>)
  {
    forall i {:trigger IndexedAt(ms, i)} :: 0 <= i < |ms| ==> IndexedAt(ms, i)
  }

  /** The logical indices of the non-ignored mappings, in physical order. */
  function LogicalIndices(ms: seq<MemberMapping>): seq<nat>
  {
    if ms == [] then []
    else
      var last := ms[|ms| - 1];
      LogicalIndices(ms[..|ms| - 1]) + (if last.ColumnMapping? then [last.logicalIndex] else [])
  }

  /** `[0, 1, ..., n - 1]`. */
  function Range(n: nat): (r: seq<nat>)
    ensures |r| == n && forall i :: 0 <= i < n ==> r[i] == i
  {
    seq(n, i requires 0 <= i < n => i)
  }

  /** Appending a mapping that follows the indexing rule keeps the rule. */
  lemma {:induction false} WellIndexedAppend(ms: seq<MemberMapping>, m: MemberMapping)
    requires WellIndexed(ms) && m.physicalIndex == |ms|
    requires m.ColumnMapping? ==> m.logicalIndex + CountIgnored(ms) == |ms|
    ensures WellIndexed(ms + [m])
    ensures CountIgnored(ms + [m]) == CountIgnored(ms) + (if m.IgnoredMapping? then 1 else 0)
  {
    var ms' := ms + [m];
    assert ms'[..|ms|] == ms;
    forall i | 0 <= i < |ms'|
      ensures IndexedAt(ms', i)
    {
      if i < |ms| {
        assert ms'[..i] == ms[..i];
        assert IndexedAt(ms, i);
      }
    }
  }

  /**
   * The logical indices of the non-ignored mappings are exactly 0, 1, ..., in physical
   * order, and there are as many as there are non-ignored mappings.
   */
  lemma {:induction false} LogicalIndicesDense(ms: seq<MemberMapping>)
    requires WellIndexed(ms)
    ensures LogicalIndices(ms) == Range(|ms| - CountIgnored(ms))
  {
    if ms != [] {
      var p := ms[..|ms| - 1];
      var last := ms[|ms| - 1];
      forall i | 0 <= i < |p|
        ensures IndexedAt(p, i)
      {
        assert p[..i] == ms[..i];
        assert IndexedAt(ms, i);
      }
      LogicalIndicesDense(p);
      assert ms[..|ms| - 1] == p;
      if last.ColumnMapping? {
        assert IndexedAt(ms, |p|);
        assert last.logicalIndex == |p| - CountIgnored(p);
        assert Range(|p| - CountIgnored(p) + 1) == Range(|p| - CountIgnored(p)) + [|p| - CountIgnored(p)];
      }
    }
  }

  /** `order` lists each key of `lookup` exactly once. */
  ghost predicate KeysMatch(lookup: map<Key, MemberMapping>, order: seq<Key>)
  {
    && |order| == |lookup|
    && (forall i, j :: 0 <= i < j < |order| ==> order[i] != order[j])
    && (forall k :: k in lookup <==> k in order)
  }

  /** `mappings` holds the mapping of each key of `order`, position by position. */
  ghost predicate Aligned(lookup: map<Key, MemberMapping>, order: seq<Key>, mappings: seq<MemberMapping>)
  {
    && |mappings| == |order|
    && forall i :: 0 <= i < |order| ==> order[i] in lookup && lookup[order[i]] == mappings[i]
  }

  /**
   * The table's invariant: the mappings in insertion order follow the indexing rule,
   * the ignored counter counts the ignored mappings, and exactly the "@Ignored_<n>"
   * keys hold ignored mappings, each at physical index n.
   */
  ghost predicate TableValid(lookup: map<Key, MemberMapping>, order: seq<Key>, mappings: seq<MemberMapping>, ignoredCount: nat)
  {
    && KeysMatch(lookup, order)
    && Aligned(lookup, order, mappings)
    && WellIndexed(mappings)
    && ignoredCount == CountIgnored(mappings)
    && IgnoredKeysExact(lookup)
  }

  /** Registering a fresh key at the end of the order keeps the order exact. */
  lemma KeysMatchAppend(lookup: map<Key, MemberMapping>, order: seq<Key>, key: Key, m: MemberMapping)
    requires KeysMatch(lookup, order) && key !in lookup
    ensures KeysMatch(lookup[key := m], order + [key])
  {
    var lookup', order' := lookup[key := m], order + [key];
    assert lookup'.Keys == lookup.Keys + {key};
    assert |lookup'| == |lookup| + 1;
    forall i, j | 0 <= i < j < |order'|
      ensures order'[i] != order'[j]
    {
      if j == |order| {
        assert order[i] in lookup;
      }
    }
  }

  /** ... and keeps each position's mapping that of its key. */
  lemma AlignedAppend(lookup: map<Key, MemberMapping>, order: seq<Key>, mappings: seq<MemberMapping>, key: Key, m: MemberMapping)
    requires Aligned(lookup, order, mappings) && key !in lookup
    ensures Aligned(lookup[key := m], order + [key], mappings + [m])
  {
    var order', mappings' := order + [key], mappings + [m];
    forall i | 0 <= i < |order'|
      ensures order'[i] in lookup[key := m] && lookup[key := m][order'[i]] == mappings'[i]
    {
      if i < |order| {
        assert order[i] in lookup;
      }
    }
  }

  /** Only ignored keys hold ignored mappings, each at the index its key names. */
  ghost predicate IgnoredKeysExact(lookup: map<Key, MemberMapping>)
  {
    && (forall k :: k in lookup ==> (k.IgnoredKey? <==> lookup[k].IgnoredMapping?))
    && (forall j :: IgnoredKey(j) in lookup ==> lookup[IgnoredKey(j)] == IgnoredMapping(j))
  }

  lemma IgnoredKeysAppend(lookup: map<Key, MemberMapping>, key: Key, m: MemberMapping)
    requires IgnoredKeysExact(lookup)
    requires key.IgnoredKey? <==> m.IgnoredMapping?
    requires key.IgnoredKey? ==> m == IgnoredMapping(key.index)
    ensures IgnoredKeysExact(lookup[key := m])
  {
  }

  /** Adding a fresh key whose mapping follows the indexing rule keeps the invariant. */
  lemma TableAppend(lookup: map<Key, MemberMapping>, order: seq<Key>, mappings: seq<MemberMapping>, ignoredCount: nat, key: Key, m: MemberMapping)
    requires TableValid(lookup, order, mappings, ignoredCount) && key !in lookup
    requires m.physicalIndex == |order|
    requires m.ColumnMapping? ==> m.logicalIndex + ignoredCount == |order|
    requires key.IgnoredKey? <==> m.IgnoredMapping?
    requires key.IgnoredKey? ==> m == IgnoredMapping(key.index)
    ensures TableValid(lookup[key := m], order + [key], mappings + [m], if m.IgnoredMapping? then ignoredCount + 1 else ignoredCount)
    ensures |lookup[key := m]| == |lookup| + 1
  {
    KeysMatchAppend(lookup, order, key, m);
    AlignedAppend(lookup, order, mappings, key, m);
    IgnoredKeysAppend(lookup, key, m);
    WellIndexedAppend(mappings, m);
  }

  class MemberLookup {
    var lookup: map<Key, MemberMapping>
    var factories: set<string>
    var ignoredCount: nat
    /** The keys in insertion order; the source recovers this order by sorting on physical index. */
    ghost var order: seq<Key>
    /** The mappings in physical (insertion) order. */
    ghost var mappings: seq<MemberMapping>

    ghost predicate Valid()
      reads this
    {
      TableValid(lookup, order, mappings, ignoredCount)
    }

    constructor ()
      ensures Valid() && lookup == map[] && mappings == [] && factories == {} && ignoredCount == 0
    {
      lookup, factories, ignoredCount := map[], {}, 0;
      order, mappings := [], [];
    }

    /** The number of columns that carry data: the physical count minus the ignored ones. */
    function LogicalCount(): (n: int)
      reads this
      requires Valid()
      ensures n >= 0 && n == |LogicalIndices(mappings)|
      ensures LogicalIndices(mappings) == Range(n)
    {
      LogicalIndicesDense(mappings);
      |lookup| - ignoredCount
    }

    /** A key's mapping sits at the position given by its physical index. */
    lemma KeyAtPhysicalIndex(k: Key)
      requires Valid() && k in lookup
      ensures lookup[k].physicalIndex < |order| && order[lookup[k].physicalIndex] == k
    {
      var i :| 0 <= i < |order| && order[i] == k;
      assert IndexedAt(mappings, i);
    }

    /**
     * The get-or-add shared by members and custom mappings. A present key returns its
     * mapping and changes nothing (the factory is not called). A new key gets the mapping
     * the factory builds from physical index = number of mappings so far and logical
     * index = that minus the ignored ones; it is appended in physical order.
     */
    method GetOrAdd(key: Key, column: ColumnDefinition) returns (m: MemberMapping)
      requires Valid() && !key.IgnoredKey?
      modifies this
      ensures Valid() && factories == old(factories) && ignoredCount == old(ignoredCount)
      ensures key in lookup && m == lookup[key]
      ensures key in old(lookup) ==>
        m == old(lookup[key]) && lookup == old(lookup) && mappings == old(mappings)
      ensures key !in old(lookup) ==>
        && m.ColumnMapping? && m.column == column && m.physicalIndex == old(|lookup|) && m.logicalIndex + old(ignoredCount) == old(|lookup|)
        && lookup == old(lookup)[key := m]
        && mappings == old(mappings) + [m]
        && LogicalCount() == old(LogicalCount()) + 1
    {
      if key in lookup {
        m := lookup[key];
      } else {
        m := AddColumn(key, column);
      }
    }

    /** The add half of `GetOrAdd`, for a key not yet present. */
    method AddColumn(key: Key, column: ColumnDefinition) returns (m: MemberMapping)
      requires Valid() && !key.IgnoredKey? && key !in lookup
      modifies this
      ensures Valid() && factories == old(factories) && ignoredCount == old(ignoredCount)
      ensures m.ColumnMapping? && m.column == column && m.physicalIndex == old(|lookup|) && m.logicalIndex + old(ignoredCount) == old(|lookup|)
      ensures lookup == old(lookup)[key := m]
      ensures mappings == old(mappings) + [m]
      ensures LogicalCount() == old(LogicalCount()) + 1
    {
      var physicalIndex := |lookup|;
      var logicalIndex := physicalIndex - ignoredCount;
      m := ColumnMapping(column, physicalIndex, logicalIndex);
      TableAppend(lookup, order, mappings, ignoredCount, key, m);
      lookup, order, mappings := lookup[key := m], order + [key], mappings + [m];
    }

    /** `GetOrAddMember(IMemberAccessor, factory)`: keyed by the member's name. */
    method GetOrAddMember(memberName: string, column: ColumnDefinition) returns (m: MemberMapping)
      requires Valid()
      modifies this
      ensures Valid() && factories == old(factories) && ignoredCount == old(ignoredCount)
      ensures MemberKey(memberName) in lookup && m == lookup[MemberKey(memberName)]
      ensures MemberKey(memberName) in old(lookup) ==>
        m == old(lookup[MemberKey(memberName)]) && lookup == old(lookup) && mappings == old(mappings)
      ensures MemberKey(memberName) !in old(lookup) ==>
        && m.ColumnMapping? && m.column == column && m.physicalIndex == old(|lookup|) && m.logicalIndex + old(ignoredCount) == old(|lookup|)
        && lookup == old(lookup)[MemberKey(memberName) := m]
        && mappings == old(mappings) + [m]
    {
      m := GetOrAdd(MemberKey(memberName), column);
    }

    /** `GetOrAddCustomMapping(name, factory)`: keyed by "@Custom_" and the column name. */
    method GetOrAddCustomMapping(name: string, column: ColumnDefinition) returns (m: MemberMapping)
      requires Valid()
      modifies this
      ensures Valid() && factories == old(factories) && ignoredCount == old(ignoredCount)
      ensures CustomKey(name) in lookup && m == lookup[CustomKey(name)]
      ensures CustomKey(name) in old(lookup) ==>
        m == old(lookup[CustomKey(name)]) && lookup == old(lookup) && mappings == old(mappings)
      ensures CustomKey(name) !in old(lookup) ==>
        && m.ColumnMapping? && m.column == column && m.physicalIndex == old(|lookup|) && m.logicalIndex + old(ignoredCount) == old(|lookup|)
        && lookup == old(lookup)[CustomKey(name) := m]
        && mappings == old(mappings) + [m]
    {
      m := GetOrAdd(CustomKey(name), column);
    }

    /**
     * Adds an ignored column at the next physical index under the key "@Ignored_<index>",
     * which is never present yet, and counts it as ignored: the logical count is unchanged.
     */
    method AddIgnored() returns (m: MemberMapping)
      requires Valid()
      modifies this
      ensures Valid() && factories == old(factories)
      ensures m == IgnoredMapping(old(|lookup|))
      ensures IgnoredKey(old(|lookup|)) !in old(lookup)
      ensures lookup == old(lookup)[IgnoredKey(old(|lookup|)) := m]
      ensures ignoredCount == old(ignoredCount) + 1
      ensures mappings == old(mappings) + [m]
      ensures LogicalCount() == old(LogicalCount())
    {
      var n := |lookup|;
      m := IgnoredMapping(n);
      var key := IgnoredKey(m.physicalIndex);
      forall k | k in lookup
        ensures lookup[k].physicalIndex < n
      {
        KeyAtPhysicalIndex(k);
      }
      TableAppend(lookup, order, mappings, ignoredCount, key, m);
      lookup, order, mappings, ignoredCount := lookup[key := m], order + [key], mappings + [m], ignoredCount + 1;
    }

    /** All mappings ordered by physical index, which is the order they were added in. */
    method GetMappings() returns (ms: seq<MemberMapping>)
      requires Valid()
      ensures ms == mappings
      ensures forall i :: 0 <= i < |ms| ==> ms[i].physicalIndex == i
      ensures forall k :: k in lookup ==> lookup[k].physicalIndex < |ms| && ms[lookup[k].physicalIndex] == lookup[k]
    {
      var n := |lookup|;
      var result := new MemberMapping[n](_ => IgnoredMapping(0));
      var remaining := lookup.Keys;
      while remaining != {}
        invariant remaining <= lookup.Keys
        invariant forall i :: 0 <= i < n && order[i] !in remaining ==> result[i] == mappings[i]
        decreases remaining
      {
        var k :| k in remaining;
        KeyAtPhysicalIndex(k);
        result[lookup[k].physicalIndex] := lookup[k];
        remaining := remaining - {k};
      }
      ms := result[..];
      forall i | 0 <= i < |ms|
        ensures ms[i].physicalIndex == i
      {
        assert IndexedAt(mappings, i);
      }
      forall k | k in lookup
        ensures lookup[k].physicalIndex < |ms| && ms[lookup[k].physicalIndex] == lookup[k]
      {
        KeyAtPhysicalIndex(k);
      }
    }

    /** Whether a factory is registered for the entity type (the key test of `GetFactory`). */
    predicate HasFactory(entityType: string)
      reads this
    {
      entityType in factories
    }

    /** Registers a factory; `Dictionary.Add` refuses a type that already has one. */
    method SetFactory(entityType: string) returns (outcome: Outcome)
      modifies this
      ensures outcome.Fail? <==> entityType in old(factories)
      ensures outcome.Fail? ==> outcome.error == DuplicateKey && factories == old(factories)
      ensures factories == old(factories) + {entityType}
      ensures lookup == old(lookup) && ignoredCount == old(ignoredCount) && order == old(order) && mappings == old(mappings)
    {
      if entityType in factories {
        return Fail(DuplicateKey);
      }
      factories := factories + {entityType};
      outcome := Pass;
    }
  }
}
