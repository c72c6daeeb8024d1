/**
 * The type mapper's configuration side and the two auto-mapping entry points. A mapper
 * owns a mapping table; custom mappings are keyed by column name, so mapping the same
 * name twice reuses the first mapping and the later getter or setter replaces the
 * earlier one. The auto-mapped writer maps the resolver's members in order, skipping
 * blank names and unsupported types; the auto-mapped reader maps each header column to
 * the member the matcher selects and fails on the first column it cannot map.
 */
module TypeMappers {
  import opened FlatFiles
  import opened MemberLookups
  import opened AutoMapRules
  import opened DelimitedWriters

  /** The schema columns of a table's mappings, in physical order. */
  function Columns(ms: seq<MemberMapping>): (r: seq<ColumnDefinition>)
    ensures |r| == |ms| && forall i :: 0 <= i < |ms| ==> r[i] == ms[i].ColumnDefinitionOf()
  {
    seq(|ms|, i requires 0 <= i < |ms| => ms[i].ColumnDefinitionOf())
  }

  function ColumnNames(cs: seq<ColumnDefinition>): (r: seq<string>)
    ensures |r| == |cs| && forall i :: 0 <= i < |cs| ==> r[i] == cs[i].columnName
  {
    seq(|cs|, i requires 0 <= i < |cs| => cs[i].columnName)
  }

  /** No two columns share a name. */
  predicate DistinctNames(cs: seq<ColumnDefinition>)
  {
    forall i, j :: 0 <= i < j < |cs| ==> cs[i].columnName != cs[j].columnName
  }

  /**
   * What a run of custom mappings amounts to: the columns in first-mapping order, and for
   * each column name the member whose getter or setter was attached last.
   */
  datatype Plan = Plan(columns: seq<ColumnDefinition>, bindings: map<string, MemberInfo>)

  function EmptyPlan(): Plan
  {
    Plan([], map[])
  }

  /** The effect of `CustomMapping(column).WithWriter/WithReader(member)`: a new name adds a column; every call rebinds. */
  function Bind(p: Plan, column: ColumnDefinition, member: MemberInfo): Plan
  {
    Plan(
      if column.columnName in ColumnNames(p.columns) then p.columns else p.columns + [column],
      p.bindings[column.columnName := member])
  }

  /** A plan's columns have distinct names, and exactly those names are bound. */
  ghost predicate PlanValid(p: Plan)
  {
    && DistinctNames(p.columns)
    && forall name :: name in p.bindings <==> name in ColumnNames(p.columns)
  }

  lemma BindValid(p: Plan, column: ColumnDefinition, member: MemberInfo)
    requires PlanValid(p)
    ensures PlanValid(Bind(p, column, member))
    ensures ColumnNames(Bind(p, column, member).columns) ==
      if column.columnName in ColumnNames(p.columns) then ColumnNames(p.columns) else ColumnNames(p.columns) + [column.columnName]
  {
    var q := Bind(p, column, member);
    if column.columnName !in ColumnNames(p.columns) {
      assert ColumnNames(q.columns) == ColumnNames(p.columns) + [column.columnName];
      forall i, j | 0 <= i < j < |q.columns|
        ensures q.columns[i].columnName != q.columns[j].columnName
      {
        if j == |p.columns| {
          assert ColumnNames(p.columns)[i] == q.columns[i].columnName;
        }
      }
    }
  }

  // ---------------------------------------------------------------------------
  // The auto-mapped writer's plan

  /** A member the writer maps: the resolver names it, the name is not blank, and the column table knows its type. */
  predicate Eligible(member: MemberInfo, resolver: AutoMapResolver)
  {
    var name := resolver.getColumnName(member);
    && name.Some? && !IsBlank(name.value) && !member.kind.OtherMember?
    && GetColumnDefinition(member.memberType, name.value).Some?
  }

  /** Every name of `p`'s columns is still a name of `q`'s when `q` only appends columns. */
  lemma NamesKept(p: Plan, q: Plan)
    requires |p.columns| <= |q.columns| && q.columns[..|p.columns|] == p.columns
    ensures forall n :: n in ColumnNames(p.columns) ==> n in ColumnNames(q.columns)
  {
    forall n | n in ColumnNames(p.columns)
      ensures n in ColumnNames(q.columns)
    {
      var i :| 0 <= i < |p.columns| && ColumnNames(p.columns)[i] == n;
      assert q.columns[i] == q.columns[..|p.columns|][i];
      assert ColumnNames(q.columns)[i] == n;
    }
  }

  /**
   * One iteration of the writer loop: a member that is not eligible leaves the plan alone;
   * an eligible one is bound under its name, which becomes a column if it was not one.
   * Either way the earlier columns stay in place and other names keep their members.
   */
  function WriterStep(p: Plan, member: MemberInfo, resolver: AutoMapResolver): (r: Plan)
    ensures !Eligible(member, resolver) ==> r == p
    ensures Eligible(member, resolver) ==>
      var name := resolver.getColumnName(member).value;
      && name in ColumnNames(r.columns) && name in r.bindings && r.bindings[name] == member
    ensures |p.columns| <= |r.columns| && r.columns[..|p.columns|] == p.columns
    ensures forall n :: n in p.bindings && Some(n) != resolver.getColumnName(member) ==>
      n in r.bindings && r.bindings[n] == p.bindings[n]
  {
    var name := resolver.getColumnName(member);
    if name.None? || IsBlank(name.value) || member.kind.OtherMember? then p
    else
      match GetColumnDefinition(member.memberType, name.value)
      case None => p
      case Some(column) =>
        assert (p.columns + [column])[..|p.columns|] == p.columns;
        assert ColumnNames(p.columns + [column])[|p.columns|] == column.columnName;
        Bind(p, column, member)
  }

  /** The writer loop over `members`, in order: every eligible member's name becomes a column. */
  function WriterPlan(members: seq<MemberInfo>, resolver: AutoMapResolver): (r: Plan)
    ensures forall m :: m in members && Eligible(m, resolver) ==> resolver.getColumnName(m).value in ColumnNames(r.columns)
  {
    if members == [] then EmptyPlan()
    else
      var front, last := members[..|members| - 1], members[|members| - 1];
      var p := WriterPlan(front, resolver);
      NamesKept(p, WriterStep(p, last, resolver));
      assert members == front + [last];
      WriterStep(p, last, resolver)
  }

  /** Column `c` is non-blank and is what the column table gives for the type of a member the resolver gave its name. */
  ghost predicate ColumnFrom(c: ColumnDefinition, members: seq<MemberInfo>, resolver: AutoMapResolver)
  {
    && !IsBlank(c.columnName)
    && exists m :: m in members && resolver.getColumnName(m) == Some(c.columnName) && GetColumnDefinition(m.memberType, c.columnName) == Some(c)
  }

  /** Member `m`, bound under `name`, is one of `members`, the resolver names it `name`, and its type is supported. */
  ghost predicate BindingFrom(name: string, m: MemberInfo, members: seq<MemberInfo>, resolver: AutoMapResolver)
  {
    m in members && resolver.getColumnName(m) == Some(name) && GetColumnDefinition(m.memberType, name).Some?
  }

  /** Every column and every binding of `p` comes from `members` in the sense above. */
  ghost predicate FromMembers(p: Plan, members: seq<MemberInfo>, resolver: AutoMapResolver)
  {
    && (forall c :: c in p.columns ==> ColumnFrom(c, members, resolver))
    && (forall name :: name in p.bindings ==> BindingFrom(name, p.bindings[name], members, resolver))
  }

  lemma FromMembersGrow(p: Plan, front: seq<MemberInfo>, members: seq<MemberInfo>, resolver: AutoMapResolver)
    requires FromMembers(p, front, resolver) && forall m :: m in front ==> m in members
    ensures FromMembers(p, members, resolver)
  {
    forall c | c in p.columns
      ensures ColumnFrom(c, members, resolver)
    {
      var m :| m in front && resolver.getColumnName(m) == Some(c.columnName) && GetColumnDefinition(m.memberType, c.columnName) == Some(c);
      assert m in members;
    }
  }

  lemma WriterStepFrom(p: Plan, member: MemberInfo, members: seq<MemberInfo>, resolver: AutoMapResolver)
    requires member in members && FromMembers(p, members, resolver)
    ensures FromMembers(WriterStep(p, member, resolver), members, resolver)
  {
    var name := resolver.getColumnName(member);
    if !(name.None? || IsBlank(name.value) || member.kind.OtherMember?) {
      var column := GetColumnDefinition(member.memberType, name.value);
      if column.Some? {
        assert ColumnFrom(column.value, members, resolver);
      }
    }
  }

  /** The auto-mapped writer's columns have distinct names, and exactly those names are bound. */
  lemma {:induction false} WriterPlanValid(members: seq<MemberInfo>, resolver: AutoMapResolver)
    ensures PlanValid(WriterPlan(members, resolver))
  {
    if members != [] {
      var front, last := members[..|members| - 1], members[|members| - 1];
      var p := WriterPlan(front, resolver);
      WriterPlanValid(front, resolver);
      var name := resolver.getColumnName(last);
      if !(name.None? || IsBlank(name.value) || last.kind.OtherMember?) {
        var column := GetColumnDefinition(last.memberType, name.value);
        if column.Some? {
          BindValid(p, column.value, last);
        }
      }
    }
  }

  /**
   * The auto-mapped writer's columns have non-blank names; each is the column
   * of the table's kind for the type of a member the resolver gave that name, and the
   * member bound to it is such a member.
   */
  lemma {:induction false} WriterPlanColumns(members: seq<MemberInfo>, resolver: AutoMapResolver)
    ensures FromMembers(WriterPlan(members, resolver), members, resolver)
  {
    if members != [] {
      var front := members[..|members| - 1];
      WriterPlanColumns(front, resolver);
      FromMembersGrow(WriterPlan(front, resolver), front, members, resolver);
      WriterStepFrom(WriterPlan(front, resolver), members[|members| - 1], members, resolver);
    }
  }

  /** The member bound under a name is the last eligible member with that name: a later getter replaces an earlier one. */
  lemma {:induction false} WriterPlanLastWins(members: seq<MemberInfo>, i: nat, resolver: AutoMapResolver)
    requires i < |members| && Eligible(members[i], resolver)
    requires forall k :: i < k < |members| && Eligible(members[k], resolver) ==>
      resolver.getColumnName(members[k]) != resolver.getColumnName(members[i])
    ensures var name := resolver.getColumnName(members[i]).value;
      name in WriterPlan(members, resolver).bindings && WriterPlan(members, resolver).bindings[name] == members[i]
  {
    var front := members[..|members| - 1];
    if i < |members| - 1 {
      assert front[i] == members[i];
      forall k | i < k < |front| && Eligible(front[k], resolver)
        ensures resolver.getColumnName(front[k]) != resolver.getColumnName(front[i])
      {
        assert front[k] == members[k];
      }
      WriterPlanLastWins(front, i, resolver);
    }
  }

  /** A member whose name is blank or whose type is unsupported adds nothing. */
  lemma WriterSkips(members: seq<MemberInfo>, m: MemberInfo, resolver: AutoMapResolver)
    requires || resolver.getColumnName(m).None?
             || IsBlank(resolver.getColumnName(m).value)
             || GetColumnDefinition(m.memberType, resolver.getColumnName(m).value).None?
    ensures WriterPlan(members + [m], resolver) == WriterPlan(members, resolver)
  {
    assert (members + [m])[..|members|] == members;
  }

  // ---------------------------------------------------------------------------
  // The auto-mapped reader's plan

  /** A header column the reader can map: a member is selected, it is assignable, its type is supported, and the name is not blank. */
  ghost predicate Mappable(column: ColumnDefinition, entity: seq<MemberInfo>, matcher: AutoMapMatcher)
  {
    var member := SelectMember(entity, column, matcher);
    && member.Success? && member.value.canWrite
    && GetColumnDefinition(member.value.memberType, column.columnName).Some?
    && !IsBlank(column.columnName)
  }

  /**
   * One iteration of the reader loop: select the member, build the assignment to it (which a
   * read-only field refuses), take the column of its type under the header's name, and map
   * it; each step can fail, in that order. It succeeds exactly for a mappable column, and
   * then binds the header's name to the selected member with the column of its type.
   */
  function ReaderStep(p: Plan, column: ColumnDefinition, entity: seq<MemberInfo>, matcher: AutoMapMatcher): (r: Result<Plan>)
    ensures r.Success? <==> Mappable(column, entity, matcher)
    ensures r.Success? ==>
      var member := SelectMember(entity, column, matcher).value;
      r.value == Bind(p, ColumnDefinition(column.columnName, ExpectedKind(member.memberType).value), member)
    ensures SelectMember(entity, column, matcher).Failure? ==> r == Failure(SelectMember(entity, column, matcher).error)
  {
    var member :- SelectMember(entity, column, matcher);
    if !member.canWrite then Failure(UnassignableMember) else
    var definition := GetColumnDefinition(member.memberType, column.columnName);
    if definition.None? then Failure(NoAutoMapPropertyType(column.columnName))
    else if IsBlank(definition.value.columnName) then Failure(BlankColumnName)
    else Success(Bind(p, definition.value, member))
  }

  /** A header column whose selected member is a read-only field cannot be mapped. */
  lemma ReaderRejectsReadOnlyField(p: Plan, column: ColumnDefinition, entity: seq<MemberInfo>, matcher: AutoMapMatcher)
    requires SelectMember(entity, column, matcher).Success? && !SelectMember(entity, column, matcher).value.canWrite
    ensures SelectMember(entity, column, matcher).value.kind.Field?
    ensures ReaderStep(p, column, entity, matcher) == Failure(UnassignableMember)
  {
  }

  /** The reader loop over the header's columns, in order; the first failing column decides the error, so it succeeds exactly when every column is mappable. */
  function ReaderPlan(columns: seq<ColumnDefinition>, entity: seq<MemberInfo>, matcher: AutoMapMatcher): (r: Result<Plan>)
    ensures r.Success? <==> forall i :: 0 <= i < |columns| ==> Mappable(columns[i], entity, matcher)
  {
    if columns == [] then Success(EmptyPlan())
    else
      var front, last := columns[..|columns| - 1], columns[|columns| - 1];
      assert forall i :: 0 <= i < |front| ==> front[i] == columns[i];
      assert columns == front + [last];
      var previous := ReaderPlan(front, entity, matcher);
      if previous.Failure? then
        assert !Mappable(columns[IndexUnmappable(front, entity, matcher)], entity, matcher);
        Failure(previous.error)
      else
        ReaderStep(previous.value, last, entity, matcher)
  }

  /** The index of a header column that is not mappable, when there is one. */
  ghost function IndexUnmappable(columns: seq<ColumnDefinition>, entity: seq<MemberInfo>, matcher: AutoMapMatcher): (i: nat)
    requires exists i :: 0 <= i < |columns| && !Mappable(columns[i], entity, matcher)
    ensures i < |columns| && !Mappable(columns[i], entity, matcher)
  {
    var i :| 0 <= i < |columns| && !Mappable(columns[i], entity, matcher);
    i
  }

  /** Once a prefix of the header fails, the whole header fails with the same error. */
  lemma {:induction false} ReaderFailureSticks(columns: seq<ColumnDefinition>, k: nat, entity: seq<MemberInfo>, matcher: AutoMapMatcher)
    requires k <= |columns| && ReaderPlan(columns[..k], entity, matcher).Failure?
    ensures ReaderPlan(columns, entity, matcher) == ReaderPlan(columns[..k], entity, matcher)
    decreases |columns| - k
  {
    if k < |columns| {
      var next := columns[..k + 1];
      assert next[..k] == columns[..k];
      ReaderFailureSticks(columns, k + 1, entity, matcher);
    } else {
      assert columns[..k] == columns;
    }
  }

  /** Splitting off the last of distinctly named columns: the rest are distinct and do not hold its name. */
  lemma DistinctSplit(columns: seq<ColumnDefinition>)
    requires DistinctNames(columns) && columns != []
    ensures DistinctNames(columns[..|columns| - 1])
    ensures columns[|columns| - 1].columnName !in ColumnNames(columns[..|columns| - 1])
    ensures ColumnNames(columns) == ColumnNames(columns[..|columns| - 1]) + [columns[|columns| - 1].columnName]
  {
    var front := columns[..|columns| - 1];
    forall i | 0 <= i < |front|
      ensures ColumnNames(front)[i] != columns[|columns| - 1].columnName
    {
      assert columns[i] == front[i];
    }
  }

  /** Column `i` of `p` is named `name`, bound to an assignable member of `entity`, and has the kind of that member's type. */
  ghost predicate ColumnBound(p: Plan, i: int, name: string, entity: seq<MemberInfo>)
  {
    && 0 <= i < |p.columns|
    && name in p.bindings
    && p.bindings[name] in entity
    && p.bindings[name].canWrite
    && Some(p.columns[i]) == GetColumnDefinition(p.bindings[name].memberType, name)
  }

  /** A binding survives a later step that keeps the earlier columns and the binding. */
  lemma ColumnBoundKept(p: Plan, q: Plan, i: int, name: string, entity: seq<MemberInfo>)
    requires ColumnBound(p, i, name, entity)
    requires |p.columns| <= |q.columns| && q.columns[..|p.columns|] == p.columns
    requires name in q.bindings && q.bindings[name] == p.bindings[name]
    ensures ColumnBound(q, i, name, entity)
  {
    assert q.columns[i] == q.columns[..|p.columns|][i];
  }

  /** A successful reader step for a name not yet mapped appends one column under that name and binds it. */
  lemma ReaderStepAppends(p: Plan, column: ColumnDefinition, entity: seq<MemberInfo>, matcher: AutoMapMatcher)
    requires PlanValid(p) && column.columnName !in ColumnNames(p.columns)
    requires ReaderStep(p, column, entity, matcher).Success?
    ensures var q := ReaderStep(p, column, entity, matcher).value;
      && PlanValid(q)
      && ColumnNames(q.columns) == ColumnNames(p.columns) + [column.columnName]
      && q.columns[..|p.columns|] == p.columns
      && ColumnBound(q, |p.columns|, column.columnName, entity)
      && forall name :: name in p.bindings ==> name in q.bindings && q.bindings[name] == p.bindings[name]
  {
    var member := SelectMember(entity, column, matcher).value;
    var definition := GetColumnDefinition(member.memberType, column.columnName).value;
    BindValid(p, definition, member);
    assert (p.columns + [definition])[..|p.columns|] == p.columns;
  }

  /**
   * A header with distinct names that maps completely gives the reader exactly the
   * header's column names in header order, each with the kind of the member it binds
   * and that member bound to it.
   */
  lemma {:induction false} ReaderKeepsHeader(columns: seq<ColumnDefinition>, entity: seq<MemberInfo>, matcher: AutoMapMatcher)
    requires DistinctNames(columns) && ReaderPlan(columns, entity, matcher).Success?
    ensures PlanValid(ReaderPlan(columns, entity, matcher).value)
    ensures ColumnNames(ReaderPlan(columns, entity, matcher).value.columns) == ColumnNames(columns)
  {
    if columns != [] {
      var n := |columns| - 1;
      DistinctSplit(columns);
      ReaderKeepsHeader(columns[..n], entity, matcher);
      ReaderStepAppends(ReaderPlan(columns[..n], entity, matcher).value, columns[n], entity, matcher);
    }
  }

  /** In the same case, every header column is bound to a member of its own kind. */
  lemma {:induction false} ReaderBindsHeader(columns: seq<ColumnDefinition>, entity: seq<MemberInfo>, matcher: AutoMapMatcher)
    requires DistinctNames(columns) && ReaderPlan(columns, entity, matcher).Success?
    ensures forall i :: 0 <= i < |columns| ==> ColumnBound(ReaderPlan(columns, entity, matcher).value, i, columns[i].columnName, entity)
  {
    if columns != [] {
      var n := |columns| - 1;
      var front, last := columns[..n], columns[n];
      DistinctSplit(columns);
      ReaderKeepsHeader(front, entity, matcher);
      ReaderBindsHeader(front, entity, matcher);
      var p := ReaderPlan(front, entity, matcher).value;
      ReaderStepAppends(p, last, entity, matcher);
      var q := ReaderPlan(columns, entity, matcher).value;
      forall i | 0 <= i < |columns|
        ensures ColumnBound(q, i, columns[i].columnName, entity)
      {
        if i < n {
          assert columns[i] == front[i];
          ColumnBoundKept(p, q, i, columns[i].columnName, entity);
        }
      }
    }
  }

  /** The writer plan of one more member is one more writer step. */
  lemma WriterPlanStep(members: seq<MemberInfo>, i: nat, resolver: AutoMapResolver)
    requires i < |members|
    ensures WriterPlan(members[..i + 1], resolver) == WriterStep(WriterPlan(members[..i], resolver), members[i], resolver)
  {
    assert members[..i + 1][..i] == members[..i];
  }

  /** The reader plan of one more header column is one more reader step, unless a failure came earlier. */
  lemma ReaderPlanStep(columns: seq<ColumnDefinition>, i: nat, entity: seq<MemberInfo>, matcher: AutoMapMatcher)
    requires i < |columns| && ReaderPlan(columns[..i], entity, matcher).Success?
    ensures ReaderPlan(columns[..i + 1], entity, matcher) == ReaderStep(ReaderPlan(columns[..i], entity, matcher).value, columns[i], entity, matcher)
  {
    assert columns[..i + 1][..i] == columns[..i];
  }

  // ---------------------------------------------------------------------------
  // The mapper

  /** A table holding only custom mappings, one per column of `columns`, in that order. */
  ghost predicate HoldsColumns(lookup: map<Key, MemberMapping>, mappings: seq<MemberMapping>, columns: seq<ColumnDefinition>)
  {
    && (forall k :: k in lookup ==> k.CustomKey?)
    && (forall name :: CustomKey(name) in lookup <==> name in ColumnNames(columns))
    && Columns(mappings) == columns
  }

  lemma HoldsAfterBindExisting(lookup: map<Key, MemberMapping>, mappings: seq<MemberMapping>, p: Plan, column: ColumnDefinition, member: MemberInfo)
    requires HoldsColumns(lookup, mappings, p.columns) && CustomKey(column.columnName) in lookup
    ensures HoldsColumns(lookup, mappings, Bind(p, column, member).columns)
  {
  }

  lemma HoldsAfterBindNew(lookup: map<Key, MemberMapping>, mappings: seq<MemberMapping>, p: Plan, column: ColumnDefinition, member: MemberInfo, m: MemberMapping)
    requires HoldsColumns(lookup, mappings, p.columns) && CustomKey(column.columnName) !in lookup
    requires m.ColumnMapping? && m.column == column
    ensures HoldsColumns(lookup[CustomKey(column.columnName) := m], mappings + [m], Bind(p, column, member).columns)
  {
    assert Columns(mappings + [m]) == Columns(mappings) + [column];
    assert ColumnNames(p.columns + [column]) == ColumnNames(p.columns) + [column.columnName];
  }

  class TypeMapper {
    const lookup: MemberLookup
    /** Per custom column name, the member whose value the attached setter assigns. */
    var readers: map<string, MemberInfo>
    /** Per custom column name, the member whose value the attached getter reads. */
    var writers: map<string, MemberInfo>

    ghost predicate Valid()
      reads this, lookup
    {
      && lookup.Valid()
      && (forall name :: name in readers ==> CustomKey(name) in lookup.lookup)
      && (forall name :: name in writers ==> CustomKey(name) in lookup.lookup)
    }

    /** A new mapper has no mappings; a factory given to it is registered for the entity type. */
    constructor (entityType: string, hasFactory: bool)
      ensures Valid() && fresh(lookup)
      ensures lookup.lookup == map[] && lookup.mappings == [] && readers == map[] && writers == map[]
      ensures lookup.factories == if hasFactory then {entityType} else {}
    {
      var table := new MemberLookup();
      if hasFactory {
        var _ := table.SetFactory(entityType);
      }
      lookup := table;
      readers, writers := map[], map[];
    }

    /**
     * `CustomMapping(column)`: a blank name is refused and changes nothing; otherwise the
     * mapping keyed by the name is returned, created at the end of the table when new.
     */
    method CustomMapping(column: ColumnDefinition) returns (r: Result<MemberMapping>)
      requires Valid()
      modifies lookup
      ensures Valid() && lookup.factories == old(lookup.factories)
      ensures IsBlank(column.columnName) ==>
        r == Failure(BlankColumnName) && lookup.lookup == old(lookup.lookup) && lookup.mappings == old(lookup.mappings)
      ensures !IsBlank(column.columnName) ==>
        && r.Success? && CustomKey(column.columnName) in lookup.lookup && r.value == lookup.lookup[CustomKey(column.columnName)]
        && (CustomKey(column.columnName) in old(lookup.lookup) ==>
              lookup.lookup == old(lookup.lookup) && lookup.mappings == old(lookup.mappings))
        && (CustomKey(column.columnName) !in old(lookup.lookup) ==>
              && r.value.ColumnMapping? && r.value.column == column
              && lookup.lookup == old(lookup.lookup)[CustomKey(column.columnName) := r.value]
              && lookup.mappings == old(lookup.mappings) + [r.value])
    {
      if IsBlank(column.columnName) {
        return Failure(BlankColumnName);
      }
      var m := lookup.GetOrAddCustomMapping(column.columnName, column);
      r := Success(m);
    }

    /** `WithReader` on the custom mapping named `name`: the setter now assigns `member`. */
    method WithReader(name: string, member: MemberInfo)
      requires Valid() && CustomKey(name) in lookup.lookup
      modifies this
      ensures Valid() && readers == old(readers)[name := member] && writers == old(writers)
    {
      readers := readers[name := member];
    }

    /** `WithWriter` on the custom mapping named `name`: the getter now reads `member`. */
    method WithWriter(name: string, member: MemberInfo)
      requires Valid() && CustomKey(name) in lookup.lookup
      modifies this
      ensures Valid() && writers == old(writers)[name := member] && readers == old(readers)
    {
      writers := writers[name := member];
    }

    /**
     * `CustomMapping(column).WithWriter(getter)` for `member`, as one step of a plan: the
     * column joins the table when its name is new, and the getter is rebound either way.
     */
    method BindWriter(ghost plan: Plan, column: ColumnDefinition, member: MemberInfo)
      requires Valid() && HoldsColumns(lookup.lookup, lookup.mappings, plan.columns) && writers == plan.bindings
      requires !IsBlank(column.columnName)
      modifies this, lookup
      ensures Valid() && lookup.factories == old(lookup.factories) && readers == old(readers)
      ensures HoldsColumns(lookup.lookup, lookup.mappings, Bind(plan, column, member).columns)
      ensures writers == Bind(plan, column, member).bindings
    {
      ghost var before, beforeMappings := lookup.lookup, lookup.mappings;
      var mapping := CustomMapping(column);
      if CustomKey(column.columnName) in before {
        HoldsAfterBindExisting(before, beforeMappings, plan, column, member);
      } else {
        HoldsAfterBindNew(before, beforeMappings, plan, column, member, mapping.value);
      }
      WithWriter(column.columnName, member);
    }

    /**
     * `CustomMapping(column).WithReader(setter)` for `member`: a blank column name is
     * refused and changes nothing; otherwise as `BindWriter`, for the setter.
     */
    method BindReader(ghost plan: Plan, column: ColumnDefinition, member: MemberInfo) returns (outcome: Outcome)
      requires Valid() && HoldsColumns(lookup.lookup, lookup.mappings, plan.columns) && readers == plan.bindings
      modifies this, lookup
      ensures Valid() && lookup.factories == old(lookup.factories) && writers == old(writers)
      ensures IsBlank(column.columnName) ==> outcome == Fail(BlankColumnName)
      ensures !IsBlank(column.columnName) ==>
        && outcome == Pass
        && HoldsColumns(lookup.lookup, lookup.mappings, Bind(plan, column, member).columns)
        && readers == Bind(plan, column, member).bindings
    {
      ghost var before, beforeMappings := lookup.lookup, lookup.mappings;
      var mapping := CustomMapping(column);
      if mapping.Failure? {
        return Fail(mapping.error);
      }
      if CustomKey(column.columnName) in before {
        HoldsAfterBindExisting(before, beforeMappings, plan, column, member);
      } else {
        HoldsAfterBindNew(before, beforeMappings, plan, column, member, mapping.value);
      }
      WithReader(column.columnName, member);
      outcome := Pass;
    }

    /** One iteration of the auto-mapped writer's loop, for `member`. */
    method MapMember(ghost plan: Plan, member: MemberInfo, resolver: AutoMapResolver)
      requires Valid() && HoldsColumns(lookup.lookup, lookup.mappings, plan.columns) && writers == plan.bindings
      modifies this, lookup
      ensures Valid() && lookup.factories == old(lookup.factories) && readers == old(readers)
      ensures HoldsColumns(lookup.lookup, lookup.mappings, WriterStep(plan, member, resolver).columns)
      ensures writers == WriterStep(plan, member, resolver).bindings
    {
      var columnName := resolver.getColumnName(member);
      if columnName.None? || IsBlank(columnName.value) || member.kind.OtherMember? {
        return;
      }
      var column := GetColumnDefinition(member.memberType, columnName.value);
      if column.None? {
        return;
      }
      BindWriter(plan, column.value, member);
    }

    /** One iteration of the auto-mapped reader's loop, for the header column `column`. */
    method MapHeaderColumn(ghost plan: Plan, column: ColumnDefinition, entity: seq<MemberInfo>, matcher: AutoMapMatcher)
      returns (outcome: Outcome)
      requires Valid() && HoldsColumns(lookup.lookup, lookup.mappings, plan.columns) && readers == plan.bindings
      modifies this, lookup
      ensures Valid() && lookup.factories == old(lookup.factories) && writers == old(writers)
      ensures ReaderStep(plan, column, entity, matcher).Failure? ==>
        outcome == Fail(ReaderStep(plan, column, entity, matcher).error)
      ensures ReaderStep(plan, column, entity, matcher).Success? ==>
        && outcome == Pass
        && HoldsColumns(lookup.lookup, lookup.mappings, ReaderStep(plan, column, entity, matcher).value.columns)
        && readers == ReaderStep(plan, column, entity, matcher).value.bindings
    {
      var member := SelectMember(entity, column, matcher);
      if member.Failure? {
        return Fail(member.error);
      }
      if !member.value.canWrite {
        return Fail(UnassignableMember);
      }
      var definition := GetColumnDefinition(member.value.memberType, column.columnName);
      if definition.None? {
        return Fail(NoAutoMapPropertyType(column.columnName));
      }
      outcome := BindReader(plan, definition.value, member.value);
    }

    /** `Ignored()`: one more ignored column at the end of the table. */
    method Ignored() returns (m: MemberMapping)
      requires Valid()
      modifies lookup
      ensures Valid() && m == IgnoredMapping(old(|lookup.lookup|))
      ensures lookup.mappings == old(lookup.mappings) + [m]
      ensures lookup.LogicalCount() == old(lookup.LogicalCount())
    {
      m := lookup.AddIgnored();
    }

    /** `UseFactory`: registers a factory for a type; a second one for the same type is refused. */
    method UseFactory(entityType: string) returns (outcome: Outcome)
      requires Valid()
      modifies lookup
      ensures Valid()
      ensures outcome == (if entityType in old(lookup.factories) then Fail(DuplicateKey) else Pass)
      ensures lookup.factories == old(lookup.factories) + {entityType}
      ensures lookup.lookup == old(lookup.lookup) && lookup.mappings == old(lookup.mappings)
    {
      outcome := lookup.SetFactory(entityType);
    }

    /**
     * `GetSchemaInternal`: one column per mapping, in physical-index order, an ignored
     * column where a mapping is ignored.
     */
    method GetSchema() returns (schema: DelimitedSchema)
      requires Valid()
      ensures schema.columns == Columns(lookup.mappings)
      ensures forall k :: k in lookup.lookup ==>
        lookup.lookup[k].physicalIndex < |schema.columns|
        && schema.columns[lookup.lookup[k].physicalIndex] == lookup.lookup[k].ColumnDefinitionOf()
    {
      var mappings := lookup.GetMappings();
      var columns: seq<ColumnDefinition> := [];
      for i := 0 to |mappings|
        invariant columns == Columns(mappings[..i])
      {
        columns := columns + [mappings[i].ColumnDefinitionOf()];
      }
      assert mappings[..|mappings|] == mappings;
      schema := DelimitedSchema(columns);
    }
  }

  /**
   * The options of the auto-mapped writer: given options are used as they are; a missing
   * options object means the first record is the schema, unlike a writer's own default.
   */
  function AutoWriterOptions(options: Option<DelimitedOptions>): (r: DelimitedOptions)
    ensures options.Some? ==> r == options.value
    ensures FirstRecordIsSchema(Some(r)) <==> options.None? || options.value.isFirstRecordSchema
    ensures options.None? ==> FirstRecordIsSchema(Some(r)) != FirstRecordIsSchema(None)
  {
    if options.None? then DelimitedOptions(true) else options.value
  }

  /**
   * `GetAutoMappedWriter`: maps the resolver's members of the entity in `GetMembers`
   * order, then opens a writer on the resulting schema. With no options the writer
   * writes the schema before the first record; a null text writer is refused.
   */
  method GetAutoMappedWriter(writer: Option<TextWriter>, options: Option<DelimitedOptions>, entityType: string, entity: seq<MemberInfo>, resolver: AutoMapResolver)
    returns (outcome: Outcome, mapper: TypeMapper, w: DelimitedWriter?)
    ensures fresh(mapper) && fresh(mapper.lookup) && mapper.Valid()
    ensures mapper.lookup.factories == {entityType}
    ensures Columns(mapper.lookup.mappings) == WriterPlan(GetMembers(entity, resolver), resolver).columns
    ensures mapper.writers == WriterPlan(GetMembers(entity, resolver), resolver).bindings
    ensures writer.None? ==> outcome == Fail(ArgumentNull("writer")) && w == null
    ensures writer.Some? ==>
      && outcome == Pass && w != null && fresh(w) && w.State() == Initial()
      && w.actualSchema == Some(DelimitedSchema(WriterPlan(GetMembers(entity, resolver), resolver).columns))
      && w.isFirstRecordSchema == FirstRecordIsSchema(Some(AutoWriterOptions(options)))
  {
    var optionsCopy := AutoWriterOptions(options);
    mapper := new TypeMapper(entityType, true);
    var members := GetMembers(entity, resolver);
    for i := 0 to |members|
      invariant fresh(mapper) && fresh(mapper.lookup) && mapper.Valid()
      invariant mapper.lookup.factories == {entityType}
      invariant HoldsColumns(mapper.lookup.lookup, mapper.lookup.mappings, WriterPlan(members[..i], resolver).columns)
      invariant mapper.writers == WriterPlan(members[..i], resolver).bindings
    {
      WriterPlanStep(members, i, resolver);
      mapper.MapMember(WriterPlan(members[..i], resolver), members[i], resolver);
    }
    assert members[..|members|] == members;
    var schema := mapper.GetSchema();
    outcome, w := NewWriterWithSchema(writer, Some(schema), Some(optionsCopy));
  }

  /**
   * `GetAutoMapReader`: with no header there is nothing to map; otherwise each header
   * column is mapped to the member the matcher selects, and the reader is given the
   * mapper's schema. The first column that cannot be mapped raises its error.
   */
  method GetAutoMapReader(schema: Option<DelimitedSchema>, entityType: string, entity: seq<MemberInfo>, matcher: AutoMapMatcher)
    returns (outcome: Outcome, mapper: TypeMapper, readerSchema: Option<DelimitedSchema>)
    ensures fresh(mapper) && fresh(mapper.lookup) && mapper.Valid() && mapper.lookup.factories == {}
    ensures schema.None? ==>
      outcome == Pass && readerSchema == None && mapper.lookup.mappings == [] && mapper.readers == map[]
    ensures schema.Some? && ReaderPlan(schema.value.columns, entity, matcher).Failure? ==>
      outcome == Fail(ReaderPlan(schema.value.columns, entity, matcher).error) && readerSchema == None
    ensures schema.Some? && ReaderPlan(schema.value.columns, entity, matcher).Success? ==>
      && outcome == Pass
      && mapper.readers == ReaderPlan(schema.value.columns, entity, matcher).value.bindings
      && readerSchema == Some(DelimitedSchema(ReaderPlan(schema.value.columns, entity, matcher).value.columns))
  {
    mapper := new TypeMapper(entityType, false);
    if schema.None? {
      return Pass, mapper, None;
    }
    var columns := schema.value.columns;
    for i := 0 to |columns|
      invariant fresh(mapper) && fresh(mapper.lookup) && mapper.Valid() && mapper.lookup.factories == {}
      invariant ReaderPlan(columns[..i], entity, matcher).Success?
      invariant HoldsColumns(mapper.lookup.lookup, mapper.lookup.mappings, ReaderPlan(columns[..i], entity, matcher).value.columns)
      invariant mapper.readers == ReaderPlan(columns[..i], entity, matcher).value.bindings
    {
      ReaderPlanStep(columns, i, entity, matcher);
      var mapped := mapper.MapHeaderColumn(ReaderPlan(columns[..i], entity, matcher).value, columns[i], entity, matcher);
      if mapped.Fail? {
        ReaderFailureSticks(columns, i + 1, entity, matcher);
        return mapped, mapper, None;
      }
    }
    assert columns[..|columns|] == columns;
    var readSchema := mapper.GetSchema();
    readerSchema := Some(readSchema);
    outcome := Pass;
  }
}
