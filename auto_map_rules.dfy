/**
 * The selection rules of the type mapper's auto-mapping: which column kind a member
 * type gets, which public members take part and in which order, and which member a
 * column header picks. Reflection is abstracted: an entity type is the list of its
 * instance members in declaration order, each described by a `MemberInfo`.
 */
module AutoMapRules {
  import opened FlatFiles

  /** The value types the column table knows, and any other struct. */
  datatype ValueTypeName =
    | Boolean | Byte | Char | DateTime | DateTimeOffset | Decimal | Double | Guid
    | Int16 | Int32 | Int64 | SByte | Single | TimeSpan | UInt16 | UInt32 | UInt64
    | OtherStruct(name: string)

  /** The reference types the column table knows, and any other class. */
  datatype ReferenceTypeName = ByteArray | CharArray | String | OtherClass(name: string)

  /** A member's CLR type: a struct `T`, a `Nullable<T>` over a struct, or a reference type. */
  datatype ClrType =
    | Struct(v: ValueTypeName)
    | NullableStruct(v: ValueTypeName)
    | Reference(r: ReferenceTypeName)

  /**
   * `columnLookup`: the column class created for each supported member type, entry by
   * entry. Every supported struct appears twice, plain and nullable; the three
   * reference types have no nullable twin; every other type has no entry. The table holds
   * exactly the intended entries: 37 types, each with the column class named after it.
   */
  function ColumnLookup(t: ClrType): (r: Option<ColumnKind>)
    ensures r == ExpectedKind(t)
  {
    match t
    case Struct(Boolean) => Some(BooleanColumn)
    case NullableStruct(Boolean) => Some(BooleanColumn)
    case Reference(ByteArray) => Some(ByteArrayColumn)
    case Struct(Byte) => Some(ByteColumn)
    case NullableStruct(Byte) => Some(ByteColumn)
    case Reference(CharArray) => Some(CharArrayColumn)
    case Struct(Char) => Some(CharColumn)
    case NullableStruct(Char) => Some(CharColumn)
    case Struct(DateTime) => Some(DateTimeColumn)
    case NullableStruct(DateTime) => Some(DateTimeColumn)
    case Struct(DateTimeOffset) => Some(DateTimeOffsetColumn)
    case NullableStruct(DateTimeOffset) => Some(DateTimeOffsetColumn)
    case Struct(Decimal) => Some(DecimalColumn)
    case NullableStruct(Decimal) => Some(DecimalColumn)
    case Struct(Double) => Some(DoubleColumn)
    case NullableStruct(Double) => Some(DoubleColumn)
    case Struct(Guid) => Some(GuidColumn)
    case NullableStruct(Guid) => Some(GuidColumn)
    case Struct(Int16) => Some(Int16Column)
    case NullableStruct(Int16) => Some(Int16Column)
    case Struct(Int32) => Some(Int32Column)
    case NullableStruct(Int32) => Some(Int32Column)
    case Struct(Int64) => Some(Int64Column)
    case NullableStruct(Int64) => Some(Int64Column)
    case Struct(SByte) => Some(SByteColumn)
    case NullableStruct(SByte) => Some(SByteColumn)
    case Struct(Single) => Some(SingleColumn)
    case NullableStruct(Single) => Some(SingleColumn)
    case Reference(String) => Some(StringColumn)
    case Struct(TimeSpan) => Some(TimeSpanColumn)
    case NullableStruct(TimeSpan) => Some(TimeSpanColumn)
    case Struct(UInt16) => Some(UInt16Column)
    case NullableStruct(UInt16) => Some(UInt16Column)
    case Struct(UInt32) => Some(UInt32Column)
    case NullableStruct(UInt32) => Some(UInt32Column)
    case Struct(UInt64) => Some(UInt64Column)
    case NullableStruct(UInt64) => Some(UInt64Column)
    case _ => None
  }

  /** The column class for a struct, independent of the table: a struct named after the column class. */
  function StructKind(v: ValueTypeName): Option<ColumnKind>
  {
    match v
    case Boolean => Some(BooleanColumn)
    case Byte => Some(ByteColumn)
    case Char => Some(CharColumn)
    case DateTime => Some(DateTimeColumn)
    case DateTimeOffset => Some(DateTimeOffsetColumn)
    case Decimal => Some(DecimalColumn)
    case Double => Some(DoubleColumn)
    case Guid => Some(GuidColumn)
    case Int16 => Some(Int16Column)
    case Int32 => Some(Int32Column)
    case Int64 => Some(Int64Column)
    case SByte => Some(SByteColumn)
    case Single => Some(SingleColumn)
    case TimeSpan => Some(TimeSpanColumn)
    case UInt16 => Some(UInt16Column)
    case UInt32 => Some(UInt32Column)
    case UInt64 => Some(UInt64Column)
    case OtherStruct(_) => None
  }

  /** The column class for a reference type, independent of the table. */
  function ReferenceKind(r: ReferenceTypeName): Option<ColumnKind>
  {
    match r
    case ByteArray => Some(ByteArrayColumn)
    case CharArray => Some(CharArrayColumn)
    case String => Some(StringColumn)
    case OtherClass(_) => None
  }

  /** The intended kind of a type: a nullable struct is mapped like its underlying struct. */
  function ExpectedKind(t: ClrType): Option<ColumnKind>
  {
    match t
    case Struct(v) => StructKind(v)
    case NullableStruct(v) => StructKind(v)
    case Reference(r) => ReferenceKind(r)
  }

  /** `GetColumnDefinition`: a column of the table's kind with the given name, or none for an unsupported type. */
  function GetColumnDefinition(t: ClrType, columnName: string): (r: Option<ColumnDefinition>)
    ensures r.Some? <==> ExpectedKind(t).Some?
    ensures r.Some? ==> r.value.columnName == columnName && r.value.kind == ExpectedKind(t).value
  {
    match ColumnLookup(t)
    case Some(kind) => Some(ColumnDefinition(columnName, kind))
    case None => None
  }

  /** `T` and `T?` give the same column, and a struct or class unknown to the table gives none. */
  lemma NullableTwinSameColumn(v: ValueTypeName, columnName: string)
    ensures GetColumnDefinition(NullableStruct(v), columnName) == GetColumnDefinition(Struct(v), columnName)
    ensures v.OtherStruct? ==> GetColumnDefinition(Struct(v), columnName).None?
  {
  }

  /** Classes outside the table, such as entity types, get no column. */
  lemma UnknownClassUnsupported(name: string, columnName: string)
    ensures GetColumnDefinition(Reference(OtherClass(name)), columnName).None?
  {
  }

  /** Whether `t` is a value type (`Type.IsValueType`): every struct, nullable or not. */
  predicate IsValueType(t: ClrType)
  {
    !t.Reference?
  }

  /** `Nullable.GetUnderlyingType`. */
  function UnderlyingType(t: ClrType): Option<ValueTypeName>
  {
    if t.NullableStruct? then Some(t.v) else None
  }

  /** `IsNullable`: a reference type, or a value type that is `Nullable<>`; exactly the plain structs are not nullable. */
  predicate IsNullable(t: ClrType)
    ensures IsNullable(t) <==> !t.Struct?
  {
    if !IsValueType(t) then true else UnderlyingType(t).Some?
  }

  /** A struct and its nullable twin differ in nullability only. */
  lemma IsNullableExactly(t: ClrType)
    ensures t.NullableStruct? ==> IsNullable(t) && !IsNullable(Struct(t.v))
  {
  }

  // ---------------------------------------------------------------------------
  // Members and their order (`GetMembers`)

  datatype MemberKind = Property | Field | OtherMember

  /** What reflection reports about one instance member; `canWrite` is a property's setter or a field that is not read-only. */
  datatype MemberInfo = MemberInfo(name: string, kind: MemberKind, memberType: ClrType, isPublic: bool, canWrite: bool)

  /** The resolver: a member's user position (-1 leaves it out) and its column name (null allowed). */
  datatype AutoMapResolver = AutoMapResolver(getPosition: MemberInfo -> int, getColumnName: MemberInfo -> Option<string>)

  /** The public properties and fields, in declaration order; the input of the position pass. */
  function DataMembers(members: seq<MemberInfo>): (r: seq<MemberInfo>)
    ensures |r| <= |members|
    ensures forall m :: m in r <==> m in members && m.isPublic && !m.kind.OtherMember?
  {
    if members == [] then []
    else
      var rest := DataMembers(members[..|members| - 1]);
      var last := members[|members| - 1];
      assert members == members[..|members| - 1] + [last];
      if last.isPublic && !last.kind.OtherMember? then rest + [last] else rest
  }

  /** A member with its sort key: the resolver's position and its declaration index among the data members. */
  datatype Positioned = Positioned(member: MemberInfo, user: int, builtin: nat)

  /** The `Select((m, i) => ...)` step: each data member with its two positions. */
  function WithPositions(ds: seq<MemberInfo>, resolver: AutoMapResolver): (r: seq<Positioned>)
    ensures |r| == |ds|
    ensures forall i :: 0 <= i < |ds| ==> r[i] == Positioned(ds[i], resolver.getPosition(ds[i]), i)
  {
    seq(|ds|, i requires 0 <= i < |ds| => Positioned(ds[i], resolver.getPosition(ds[i]), i))
  }

  /** The `Where(user != -1)` step. */
  function Kept(ps: seq<Positioned>): (r: seq<Positioned>)
    ensures forall p :: p in r <==> p in ps && p.user != -1
    ensures multiset(r) <= multiset(ps)
  {
    if ps == [] then []
    else
      var rest := Kept(ps[..|ps| - 1]);
      var last := ps[|ps| - 1];
      assert ps == ps[..|ps| - 1] + [last];
      if last.user != -1 then rest + [last] else rest
  }

  /** The tuple order of `OrderBy(x => (user, builtin))`: by user position, then by declaration index. */
  predicate NoLater(a: Positioned, b: Positioned)
  {
    a.user < b.user || (a.user == b.user && a.builtin <= b.builtin)
  }

  predicate SortedByPosition(ps: seq<Positioned>)
  {
    forall i, j :: 0 <= i < j < |ps| ==> NoLater(ps[i], ps[j])
  }

  function Insert(p: Positioned, s: seq<Positioned>): seq<Positioned>
  {
    if s == [] then [p]
    else if NoLater(p, s[0]) then [p] + s
    else [s[0]] + Insert(p, s[1..])
  }

  lemma {:induction false} InsertPermutes(p: Positioned, s: seq<Positioned>)
    ensures multiset(Insert(p, s)) == multiset(s) + multiset{p}
  {
    if s != [] && !NoLater(p, s[0]) {
      InsertPermutes(p, s[1..]);
      assert s == [s[0]] + s[1..];
    }
  }

  lemma {:induction false} InsertSorted(p: Positioned, s: seq<Positioned>)
    requires SortedByPosition(s)
    ensures SortedByPosition(Insert(p, s))
  {
    if s != [] && !NoLater(p, s[0]) {
      var t := Insert(p, s[1..]);
      InsertSorted(p, s[1..]);
      InsertPermutes(p, s[1..]);
      forall x | x in t
        ensures NoLater(s[0], x)
      {
        assert x in multiset(t);
        if x != p {
          assert x in multiset(s[1..]);
        }
      }
      assert Insert(p, s) == [s[0]] + t;
    }
  }

  /** A stable sort by `NoLater` (insertion sort): ordered by (user position, declaration index), and a permutation of its input. */
  function SortByPosition(s: seq<Positioned>): (r: seq<Positioned>)
    ensures SortedByPosition(r)
    ensures multiset(r) == multiset(s)
  {
    if s == [] then []
    else
      var t := SortByPosition(s[1..]);
      InsertSorted(s[0], t);
      InsertPermutes(s[0], t);
      assert s == [s[0]] + s[1..];
      Insert(s[0], t)
  }

  function Members(ps: seq<Positioned>): (r: seq<MemberInfo>)
    ensures |r| == |ps| && forall i :: 0 <= i < |ps| ==> r[i] == ps[i].member
  {
    seq(|ps|, i requires 0 <= i < |ps| => ps[i].member)
  }

  /** The positioned entries `GetMembers` sorts: the data members the resolver did not leave out. */
  function Candidates(members: seq<MemberInfo>, resolver: AutoMapResolver): seq<Positioned>
  {
    Kept(WithPositions(DataMembers(members), resolver))
  }

  /** The members `GetMembers` returns, in output order, each with its sort key. */
  function OrderedCandidates(members: seq<MemberInfo>, resolver: AutoMapResolver): seq<Positioned>
  {
    SortByPosition(Candidates(members, resolver))
  }

  /** A public property or field that the resolver does not leave out. */
  predicate Listed(m: MemberInfo, resolver: AutoMapResolver)
  {
    m.isPublic && !m.kind.OtherMember? && resolver.getPosition(m) != -1
  }

  /** `GetMembers`: exactly the public properties and fields not left out, ordered by (user position, declaration index). */
  function GetMembers(members: seq<MemberInfo>, resolver: AutoMapResolver): (r: seq<MemberInfo>)
    ensures forall m :: m in r <==> m in members && Listed(m, resolver)
  {
    GetMembersOrdered(members, resolver);
    CandidatesComplete(members, resolver);
    Members(OrderedCandidates(members, resolver))
  }

  /**
   * The sorted entries are the (user, builtin) order of exactly the public data members with
   * a position other than -1: the output is sorted lexicographically, it is a permutation of
   * those entries, and every entry carries the true positions of its member.
   */
  lemma GetMembersOrdered(members: seq<MemberInfo>, resolver: AutoMapResolver)
    ensures SortedByPosition(OrderedCandidates(members, resolver))
    ensures multiset(OrderedCandidates(members, resolver)) == multiset(Candidates(members, resolver))
    ensures forall p :: p in OrderedCandidates(members, resolver) ==>
      && p.user == resolver.getPosition(p.member) && p.member in members && Listed(p.member, resolver)
  {
    var ds := DataMembers(members);
    var ps := WithPositions(ds, resolver);
    var cs := Candidates(members, resolver);
    var os := OrderedCandidates(members, resolver);
    forall p | p in os
      ensures p.user == resolver.getPosition(p.member) && p.member in members && Listed(p.member, resolver)
    {
      assert p in multiset(os);
      assert p in cs;
      var i :| 0 <= i < |ps| && ps[i] == p;
      assert ds[i] in ds;
    }
  }

  /** Every listed member of the entity has an entry among the sorted ones. */
  lemma CandidatesComplete(members: seq<MemberInfo>, resolver: AutoMapResolver)
    ensures forall m :: m in members && Listed(m, resolver) ==> m in Members(OrderedCandidates(members, resolver))
  {
    var ds := DataMembers(members);
    var ps := WithPositions(ds, resolver);
    var cs := Candidates(members, resolver);
    var os := OrderedCandidates(members, resolver);
    forall m | m in members && Listed(m, resolver)
      ensures m in Members(os)
    {
      var i :| 0 <= i < |ds| && ds[i] == m;
      assert ps[i] in ps;
      assert ps[i] in multiset(cs);
      var j :| 0 <= j < |os| && os[j] == ps[i];
      assert Members(os)[j] == m;
    }
  }

  /** Filtering a concatenation filters each part. */
  lemma {:induction false} DataMembersAppend(s: seq<MemberInfo>, t: seq<MemberInfo>)
    ensures DataMembers(s + t) == DataMembers(s) + DataMembers(t)
    decreases |t|
  {
    if t == [] {
      assert s + t == s;
    } else {
      var front := t[..|t| - 1];
      assert (s + t)[..|s + t| - 1] == s + front;
      assert (s + t)[|s + t| - 1] == t[|t| - 1];
      DataMembersAppend(s, front);
    }
  }

  /** A data member at index `a` sits in the filtered list at the count of data members before it. */
  lemma DataIndex(members: seq<MemberInfo>, a: nat)
    requires a < |members| && members[a].isPublic && !members[a].kind.OtherMember?
    ensures |DataMembers(members[..a])| < |DataMembers(members)|
    ensures DataMembers(members)[|DataMembers(members[..a])|] == members[a]
    ensures |DataMembers(members[..a + 1])| == |DataMembers(members[..a])| + 1
  {
    assert members[..a + 1][..a] == members[..a];
    assert members == members[..a + 1] + members[a + 1..];
    DataMembersAppend(members[..a + 1], members[a + 1..]);
  }

  /** Data members keep their declaration order in the filtered list. */
  lemma DataIndexMonotone(members: seq<MemberInfo>, a: nat, b: nat)
    requires a < b <= |members| && members[a].isPublic && !members[a].kind.OtherMember?
    ensures |DataMembers(members[..a])| < |DataMembers(members[..b])|
  {
    DataIndex(members, a);
    assert members[..b] == members[..a + 1] + members[a + 1..b];
    DataMembersAppend(members[..a + 1], members[a + 1..b]);
  }

  /** A listed member at index `a` has a sorted entry carrying its user position and its data-member index. */
  lemma ListedEntry(members: seq<MemberInfo>, resolver: AutoMapResolver, a: nat) returns (i: nat)
    requires a < |members| && Listed(members[a], resolver)
    ensures i < |OrderedCandidates(members, resolver)|
    ensures OrderedCandidates(members, resolver)[i] ==
      Positioned(members[a], resolver.getPosition(members[a]), |DataMembers(members[..a])|)
  {
    var ps := WithPositions(DataMembers(members), resolver);
    var cs := Candidates(members, resolver);
    var os := OrderedCandidates(members, resolver);
    DataIndex(members, a);
    var p := ps[|DataMembers(members[..a])|];
    assert p in multiset(cs);
    i :| 0 <= i < |os| && os[i] == p;
  }

  /** In a sorted sequence, an entry strictly before another by the key sits at a smaller index. */
  lemma SortedPrecedes(os: seq<Positioned>, i: nat, j: nat)
    requires SortedByPosition(os) && i < |os| && j < |os|
    requires os[i].user < os[j].user || (os[i].user == os[j].user && os[i].builtin < os[j].builtin)
    ensures i < j
  {
  }

  /**
   * The `OrderBy` key decides the output order: of two listed members at different
   * declaration indices, the one with the smaller user position comes first, and on equal
   * positions the one declared first comes first.
   */
  lemma GetMembersOrder(members: seq<MemberInfo>, resolver: AutoMapResolver, a: nat, b: nat)
    requires a < |members| && b < |members| && a != b
    requires Listed(members[a], resolver) && Listed(members[b], resolver)
    requires resolver.getPosition(members[a]) < resolver.getPosition(members[b])
      || (resolver.getPosition(members[a]) == resolver.getPosition(members[b]) && a < b)
    ensures exists i, j ::
      && 0 <= i < j < |GetMembers(members, resolver)|
      && GetMembers(members, resolver)[i] == members[a]
      && GetMembers(members, resolver)[j] == members[b]
  {
    var os := OrderedCandidates(members, resolver);
    var i := ListedEntry(members, resolver, a);
    var j := ListedEntry(members, resolver, b);
    if a < b {
      DataIndexMonotone(members, a, b);
    }
    SortedPrecedes(os, i, j);
    var g := GetMembers(members, resolver);
    assert g == Members(os);
    assert g[i] == members[a] && g[j] == members[b];
  }

  /** Declaration indices are distinct, so the order is strict: no two entries tie. */
  lemma GetMembersStrict(members: seq<MemberInfo>, resolver: AutoMapResolver)
    ensures forall i, j :: 0 <= i < j < |OrderedCandidates(members, resolver)| ==>
      OrderedCandidates(members, resolver)[i].builtin != OrderedCandidates(members, resolver)[j].builtin
  {
    var ps := WithPositions(DataMembers(members), resolver);
    var cs := Candidates(members, resolver);
    var os := OrderedCandidates(members, resolver);
    KeptDistinct(ps);
    forall i, j | 0 <= i < j < |os|
      ensures os[i].builtin != os[j].builtin
    {
      assert os[i] in multiset(cs) && os[j] in multiset(cs);
      if os[i].builtin == os[j].builtin {
        CountedTwice(os, i, j);
      }
    }
  }

  /** An element at two positions occurs at least twice. */
  lemma CountedTwice<T>(s: seq<T>, i: nat, j: nat)
    requires i < j < |s| && s[i] == s[j]
    ensures multiset(s)[s[i]] >= 2
  {
    assert s == s[..i] + [s[i]] + s[i + 1..j] + [s[j]] + s[j + 1..];
  }

  /** Every entry kept from the position pass appears once and sits at its declaration index. */
  lemma {:induction false} KeptDistinct(ps: seq<Positioned>)
    requires forall i :: 0 <= i < |ps| ==> ps[i].builtin == i
    ensures forall p :: p in Kept(ps) ==> p.builtin < |ps| && ps[p.builtin] == p
    ensures forall p :: multiset(Kept(ps))[p] <= 1
  {
    if ps != [] {
      var front := ps[..|ps| - 1];
      var last := ps[|ps| - 1];
      KeptDistinct(front);
      assert forall p :: p in Kept(front) ==> p.builtin < |front|;
      assert last !in Kept(front);
    }
  }

  // ---------------------------------------------------------------------------
  // Choosing the member for a column (`GetProperty`, `GetField`, `GetMemberExpression`)

  /** The matcher: whether a column may bind to a member, and whether several matches fall back to the exact name. */
  datatype AutoMapMatcher = AutoMapMatcher(isMatch: (ColumnDefinition, MemberInfo) -> bool, useFallback: bool)

  /** The members of kind `kind`, public or not, that the matcher accepts for `column`, in declaration order. */
  function Matches(members: seq<MemberInfo>, kind: MemberKind, column: ColumnDefinition, matcher: AutoMapMatcher): (r: seq<MemberInfo>)
    ensures forall m :: m in r <==> m in members && m.kind == kind && matcher.isMatch(column, m)
    ensures forall m :: multiset(r)[m] == if m.kind == kind && matcher.isMatch(column, m) then multiset(members)[m] else 0
  {
    if members == [] then []
    else
      var rest := Matches(members[..|members| - 1], kind, column, matcher);
      var last := members[|members| - 1];
      assert members == members[..|members| - 1] + [last];
      if last.kind == kind && matcher.isMatch(column, last) then rest + [last] else rest
  }

  /** The members of `ms` named exactly `name`. */
  function Named(ms: seq<MemberInfo>, name: string): (r: seq<MemberInfo>)
    ensures |r| <= |ms|
    ensures forall m :: m in r <==> m in ms && m.name == name
  {
    if ms == [] then []
    else
      var rest := Named(ms[..|ms| - 1], name);
      var last := ms[|ms| - 1];
      assert ms == ms[..|ms| - 1] + [last];
      if last.name == name then rest + [last] else rest
  }

  /** `SingleOrDefault()`: none for no element, the element for one, an error for more. */
  function SingleOrDefault(ms: seq<MemberInfo>): (r: Result<Option<MemberInfo>>)
    ensures r.Failure? <==> |ms| > 1
    ensures r.Failure? ==> r.error == MultipleMatches
    ensures r.Success? && r.value.Some? <==> |ms| == 1
    ensures r.Success? && r.value.Some? ==> ms == [r.value.value]
  {
    if |ms| == 0 then Success(None)
    else if |ms| == 1 then Success(Some(ms[0]))
    else Failure(MultipleMatches)
  }

  /**
   * How `GetProperty` and `GetField` narrow the matches: one match wins; several give none
   * unless the matcher falls back, in which case the single member named exactly like the
   * column wins (none when no member has that name, an error when several do).
   */
  function Disambiguate(matches: seq<MemberInfo>, columnName: string, useFallback: bool): (r: Result<Option<MemberInfo>>)
    ensures r.Success? && r.value.Some? ==> r.value.value in matches
    ensures r.Failure? <==> |matches| > 1 && useFallback && |Named(matches, columnName)| > 1
    ensures r.Failure? ==> r.error == MultipleMatches
    ensures |matches| <= 1 ==> r.Success? && (r.value.Some? <==> |matches| == 1)
    ensures |matches| > 1 && !useFallback ==> r == Success(None)
    ensures |matches| > 1 && r.Success? && r.value.Some? ==> r.value.value.name == columnName
  {
    if |matches| > 1 then
      if !useFallback then Success(None)
      else
        var r := SingleOrDefault(Named(matches, columnName));
        assert r.Success? && r.value.Some? ==> r.value.value in Named(matches, columnName);
        r
    else SingleOrDefault(matches)
  }

  /** With several matches and the fallback on, a member named exactly like the column is chosen when it is the only one. */
  lemma ExactNameFallback(matches: seq<MemberInfo>, m: MemberInfo, columnName: string)
    requires |matches| > 1 && m in matches && m.name == columnName
    requires forall n :: n in matches && n.name == columnName ==> n == m
    requires multiset(matches)[m] == 1
    ensures Disambiguate(matches, columnName, true) == Success(Some(m))
  {
    var named := Named(matches, columnName);
    assert m in named;
    NamedCount(matches, columnName, m);
    CountAllSame(named, m);
  }

  /** A sequence holding nothing but `x` holds it once per element. */
  lemma {:induction false} CountAllSame<T>(s: seq<T>, x: T)
    requires forall y :: y in s ==> y == x
    ensures multiset(s)[x] == |s|
  {
    if s != [] {
      assert s == [s[0]] + s[1..];
      assert s[0] in s && forall y :: y in s[1..] ==> y in s;
      CountAllSame(s[1..], x);
    }
  }

  /** The exact-name filter keeps no element more often than the input has it. */
  lemma {:induction false} NamedCount(ms: seq<MemberInfo>, name: string, m: MemberInfo)
    ensures multiset(Named(ms, name))[m] <= multiset(ms)[m]
  {
    if ms != [] {
      NamedCount(ms[..|ms| - 1], name, m);
      assert ms == ms[..|ms| - 1] + [ms[|ms| - 1]];
    }
  }

  /**
   * `GetProperty`: over all instance properties of the entity. A chosen member is a
   * matching property; no matching property gives none; the only error is several
   * equally good properties.
   */
  function GetProperty(entity: seq<MemberInfo>, column: ColumnDefinition, matcher: AutoMapMatcher): (r: Result<Option<MemberInfo>>)
    ensures r.Success? && r.value.Some? ==>
      r.value.value in entity && r.value.value.kind == Property && matcher.isMatch(column, r.value.value)
    ensures r.Failure? ==> r.error == MultipleMatches
    ensures (forall m :: m in entity && m.kind == Property ==> !matcher.isMatch(column, m)) ==> r == Success(None)
  {
    Disambiguate(Matches(entity, Property, column, matcher), column.columnName, matcher.useFallback)
  }

  /** `GetField`: as `GetProperty`, over all instance fields of the entity. */
  function GetField(entity: seq<MemberInfo>, column: ColumnDefinition, matcher: AutoMapMatcher): (r: Result<Option<MemberInfo>>)
    ensures r.Success? && r.value.Some? ==>
      r.value.value in entity && r.value.value.kind == Field && matcher.isMatch(column, r.value.value)
    ensures r.Failure? ==> r.error == MultipleMatches
    ensures (forall m :: m in entity && m.kind == Field ==> !matcher.isMatch(column, m)) ==> r == Success(None)
  {
    Disambiguate(Matches(entity, Field, column, matcher), column.columnName, matcher.useFallback)
  }

  /**
   * The member `GetMemberExpression` binds a column to. A chosen property wins over any
   * field, and must be writable; only when no property is chosen are the fields tried;
   * when neither is chosen the column is rejected.
   */
  function SelectMember(entity: seq<MemberInfo>, column: ColumnDefinition, matcher: AutoMapMatcher): (r: Result<MemberInfo>)
    ensures r.Success? ==> r.value in entity && matcher.isMatch(column, r.value) && !r.value.kind.OtherMember?
    ensures r.Success? && r.value.kind.Property? ==> r.value.canWrite && GetProperty(entity, column, matcher) == Success(Some(r.value))
    ensures r.Success? && r.value.kind.Field? ==> GetProperty(entity, column, matcher) == Success(None)
    ensures r == Failure(BadPropertySelector) <==>
      GetProperty(entity, column, matcher) == Success(None) && GetField(entity, column, matcher) == Success(None)
    ensures r == Failure(ReadOnlyProperty(column.columnName)) <==>
      GetProperty(entity, column, matcher).Success? && GetProperty(entity, column, matcher).value.Some?
      && !GetProperty(entity, column, matcher).value.value.canWrite
    ensures var property := GetProperty(entity, column, matcher);
      property.Success? && property.value.Some? && property.value.value.canWrite ==> r == Success(property.value.value)
    ensures var field := GetField(entity, column, matcher);
      GetProperty(entity, column, matcher) == Success(None) && field.Success? && field.value.Some? ==> r == Success(field.value.value)
    ensures GetProperty(entity, column, matcher).Failure? ==> r == Failure(MultipleMatches)
    ensures GetProperty(entity, column, matcher) == Success(None) && GetField(entity, column, matcher).Failure? ==>
      r == Failure(MultipleMatches)
  {
    var property :- GetProperty(entity, column, matcher);
    if property.Some? then
      if !property.value.canWrite then Failure(ReadOnlyProperty(column.columnName))
      else Success(property.value)
    else
      var field :- GetField(entity, column, matcher);
      if field.Some? then Success(field.value) else Failure(BadPropertySelector)
  }

  /** The only matching member of a kind, present once, is the whole match list. */
  lemma LoneMatch(members: seq<MemberInfo>, kind: MemberKind, column: ColumnDefinition, matcher: AutoMapMatcher, m: MemberInfo)
    requires m in members && m.kind == kind && matcher.isMatch(column, m) && multiset(members)[m] == 1
    requires forall n :: n in members && n.kind == kind && matcher.isMatch(column, n) ==> n == m
    ensures Matches(members, kind, column, matcher) == [m]
  {
    var r := Matches(members, kind, column, matcher);
    assert forall n :: multiset(r)[n] == multiset{m}[n];
    assert multiset(r) == multiset{m};
    assert |r| == 1;
    assert r[0] in r;
  }

  /** A writable property that is the only property matching the column is selected, whatever the fields. */
  lemma LonePropertySelected(entity: seq<MemberInfo>, column: ColumnDefinition, matcher: AutoMapMatcher, m: MemberInfo)
    requires m in entity && m.kind == Property && matcher.isMatch(column, m) && multiset(entity)[m] == 1 && m.canWrite
    requires forall n :: n in entity && n.kind == Property && matcher.isMatch(column, n) ==> n == m
    ensures SelectMember(entity, column, matcher) == Success(m)
  {
    LoneMatch(entity, Property, column, matcher, m);
  }

  /** With no matching property, the only field matching the column is selected. */
  lemma LoneFieldSelected(entity: seq<MemberInfo>, column: ColumnDefinition, matcher: AutoMapMatcher, m: MemberInfo)
    requires forall n :: n in entity && n.kind == Property ==> !matcher.isMatch(column, n)
    requires m in entity && m.kind == Field && matcher.isMatch(column, m) && multiset(entity)[m] == 1
    requires forall n :: n in entity && n.kind == Field && matcher.isMatch(column, n) ==> n == m
    ensures SelectMember(entity, column, matcher) == Success(m)
  {
    LoneMatch(entity, Field, column, matcher, m);
  }

  /** Fields do not matter when a writable property is chosen: the entity's fields can be anything. */
  lemma PropertyPreferred(properties: seq<MemberInfo>, fields1: seq<MemberInfo>, fields2: seq<MemberInfo>, column: ColumnDefinition, matcher: AutoMapMatcher)
    requires forall m :: m in properties ==> m.kind == Property
    requires forall m :: m in fields1 + fields2 ==> m.kind == Field
    requires GetProperty(properties, column, matcher).Success? && GetProperty(properties, column, matcher).value.Some?
    ensures SelectMember(properties + fields1, column, matcher) == SelectMember(properties + fields2, column, matcher)
  {
    PropertyMatchesIgnoreFields(properties, fields1, column, matcher);
    PropertyMatchesIgnoreFields(properties, fields2, column, matcher);
  }

  /** A member of another kind appended to the entity changes no match list. */
  lemma MatchesSkip(members: seq<MemberInfo>, x: MemberInfo, kind: MemberKind, column: ColumnDefinition, matcher: AutoMapMatcher)
    requires x.kind != kind
    ensures Matches(members + [x], kind, column, matcher) == Matches(members, kind, column, matcher)
  {
    assert (members + [x])[..|members|] == members;
  }

  /** Appending fields does not change the property matches. */
  lemma {:induction false} PropertyMatchesIgnoreFields(properties: seq<MemberInfo>, fields: seq<MemberInfo>, column: ColumnDefinition, matcher: AutoMapMatcher)
    requires forall m :: m in fields ==> m.kind == Field
    ensures Matches(properties + fields, Property, column, matcher) == Matches(properties, Property, column, matcher)
    decreases |fields|
  {
    if fields != [] {
      var front, last := fields[..|fields| - 1], fields[|fields| - 1];
      assert properties + fields == (properties + front) + [last];
      assert last in fields;
      MatchesSkip(properties + front, last, Property, column, matcher);
      PropertyMatchesIgnoreFields(properties, front, column, matcher);
    } else {
      assert properties + fields == properties;
    }
  }
}
