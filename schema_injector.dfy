/**
 * The schema injector used by writers whose records come in several shapes: each
 * registered matcher pairs a predicate over a record's values with the schema to use
 * when the predicate holds. The first registered matcher that holds wins; a default,
 * when one is set, catches every record no registered matcher took.
 */
module SchemaInjectors {
  import opened FlatFiles

  /** A registered pair; the predicate stands for the caller's `Func<object?[], bool>`. */
  datatype SchemaMatcher = SchemaMatcher(schema: DelimitedSchema, condition: seq<Value> -> bool)

  /** Matcher `i` is the earliest whose predicate holds on `values`. */
  predicate FirstMatch(matchers: seq<SchemaMatcher>, values: seq<Value>, i: int)
  {
    && 0 <= i < |matchers|
    && matchers[i].condition(values)
    && forall j :: 0 <= j < i ==> !matchers[j].condition(values)
  }

  /** No registered predicate holds on `values`. */
  predicate NoneMatch(matchers: seq<SchemaMatcher>, values: seq<Value>)
  {
    forall j :: 0 <= j < |matchers| ==> !matchers[j].condition(values)
  }

  /**
   * The schema chosen for `values`: the earliest registered matcher that holds; else
   * the default when it holds; else the missing-matcher error.
   */
  function Select(matchers: seq<SchemaMatcher>, defaultMatcher: Option<SchemaMatcher>, values: seq<Value>): (r: Result<DelimitedSchema>)
    ensures forall i :: FirstMatch(matchers, values, i) ==> r == Success(matchers[i].schema)
    ensures NoneMatch(matchers, values) && defaultMatcher.Some? && defaultMatcher.value.condition(values) ==>
      r == Success(defaultMatcher.value.schema)
    ensures NoneMatch(matchers, values) && !(defaultMatcher.Some? && defaultMatcher.value.condition(values)) ==>
      r == Failure(MissingMatcher)
    decreases |matchers|
  {
    if matchers == [] then
      if defaultMatcher.Some? && defaultMatcher.value.condition(values) then Success(defaultMatcher.value.schema)
      else Failure(MissingMatcher)
    else if matchers[0].condition(values) then
      Success(matchers[0].schema)
    else
      var r := Select(matchers[1..], defaultMatcher, values);
      assert forall i :: FirstMatch(matchers, values, i) ==> i > 0 && FirstMatch(matchers[1..], values, i - 1);
      assert NoneMatch(matchers, values) ==> NoneMatch(matchers[1..], values);
      r
  }

  /** Some registered predicate holds on `values`. */
  predicate AnyMatch(matchers: seq<SchemaMatcher>, values: seq<Value>)
  {
    exists j :: 0 <= j < |matchers| && matchers[j].condition(values)
  }

  /** A holding predicate has an earliest one. */
  lemma {:induction false} FirstMatchExists(matchers: seq<SchemaMatcher>, values: seq<Value>)
    requires AnyMatch(matchers, values)
    ensures exists i :: FirstMatch(matchers, values, i)
    decreases |matchers|
  {
    if matchers[0].condition(values) {
      assert FirstMatch(matchers, values, 0);
    } else {
      var j :| 0 <= j < |matchers| && matchers[j].condition(values);
      assert matchers[1..][j - 1] == matchers[j];
      FirstMatchExists(matchers[1..], values);
      var i :| FirstMatch(matchers[1..], values, i);
      assert FirstMatch(matchers, values, i + 1);
    }
  }

  /**
   * Registered matchers take priority over the default whatever the default is and
   * whenever it was set: when some registered predicate holds, the default is never
   * consulted.
   */
  lemma RegisteredBeatsDefault(matchers: seq<SchemaMatcher>, d1: Option<SchemaMatcher>, d2: Option<SchemaMatcher>, values: seq<Value>)
    requires AnyMatch(matchers, values)
    ensures Select(matchers, d1, values) == Select(matchers, d2, values)
    ensures Select(matchers, d1, values).Success?
  {
    FirstMatchExists(matchers, values);
  }

  /** Registering another matcher never changes the choice for a record an earlier matcher takes. */
  lemma LaterRegistrationKeepsChoice(matchers: seq<SchemaMatcher>, m: SchemaMatcher, d: Option<SchemaMatcher>, values: seq<Value>)
    requires AnyMatch(matchers, values)
    ensures Select(matchers + [m], d, values) == Select(matchers, d, values)
  {
    FirstMatchExists(matchers, values);
    var i :| FirstMatch(matchers, values, i);
    assert FirstMatch(matchers + [m], values, i);
  }

  /** With no default, a record no registered predicate holds on is an error. */
  lemma NoMatchNoDefaultFails(matchers: seq<SchemaMatcher>, values: seq<Value>)
    requires !AnyMatch(matchers, values)
    ensures Select(matchers, None, values) == Failure(MissingMatcher)
  {
  }

  class DelimitedSchemaInjector {
    var matchers: seq<SchemaMatcher>
    var defaultMatcher: Option<SchemaMatcher>

    constructor ()
      ensures matchers == [] && defaultMatcher == None
    {
      matchers, defaultMatcher := [], None;
    }

    /**
     * Starts a registration for the predicate `condition`; the schema follows with `Use`. A null
     * predicate is refused. Nothing is registered yet either way.
     */
    method When(condition: Option<seq<Value> -> bool>) returns (r: Result<WhenBuilder>)
      ensures condition.None? ==> r == Failure(ArgumentNull("predicate"))
      ensures condition.Some? ==>
        r.Success? && fresh(r.value) && r.value.injector == this && r.value.condition == condition.value
    {
      if condition.None? {
        return Failure(ArgumentNull("predicate"));
      }
      var builder := new WhenBuilder(this, condition.value);
      r := Success(builder);
    }

    /**
     * Sets the schema used when no registered matcher holds; its predicate holds on
     * every record. A null schema clears the default. Registered matchers are untouched.
     */
    method WithDefault(schema: Option<DelimitedSchema>)
      modifies this
      ensures matchers == old(matchers)
      ensures schema.None? ==> defaultMatcher == None
      ensures schema.Some? ==>
        && defaultMatcher.Some? && defaultMatcher.value.schema == schema.value
        && forall values :: defaultMatcher.value.condition(values)
    {
      if schema.None? {
        defaultMatcher := None;
      } else {
        defaultMatcher := Some(SchemaMatcher(schema.value, _ => true));
      }
    }

    /** Appends one matcher and leaves the default alone. */
    method Add(schema: DelimitedSchema, condition: seq<Value> -> bool)
      modifies this
      ensures matchers == old(matchers) + [SchemaMatcher(schema, condition)]
      ensures defaultMatcher == old(defaultMatcher)
    {
      matchers := matchers + [SchemaMatcher(schema, condition)];
    }

    /** The schema for a record's values: the first-match search in registration order, then the default. */
    method GetSchema(values: seq<Value>) returns (r: Result<DelimitedSchema>)
      ensures r == Select(matchers, defaultMatcher, values)
    {
      var i := 0;
      while i < |matchers|
        invariant 0 <= i <= |matchers|
        invariant forall j :: 0 <= j < i ==> !matchers[j].condition(values)
      {
        if matchers[i].condition(values) {
          assert FirstMatch(matchers, values, i);
          return Success(matchers[i].schema);
        }
        i := i + 1;
      }
      assert NoneMatch(matchers, values);
      if defaultMatcher.Some? && defaultMatcher.value.condition(values) {
        return Success(defaultMatcher.value.schema);
      }
      r := Failure(MissingMatcher);
    }
  }

  /** What `When` returns: remembers the injector and the predicate until `Use` names the schema. */
  class WhenBuilder {
    const injector: DelimitedSchemaInjector
    const condition: seq<Value> -> bool

    constructor (injector: DelimitedSchemaInjector, condition: seq<Value> -> bool)
      ensures this.injector == injector && this.condition == condition
    {
      this.injector := injector;
      this.condition := condition;
    }

    /** Registers the pending predicate with `schema`; a null schema is refused and registers nothing. */
    method Use(schema: Option<DelimitedSchema>) returns (outcome: Outcome)
      modifies injector
      ensures schema.None? ==>
        outcome == Fail(ArgumentNull("schema"))
        && injector.matchers == old(injector.matchers) && injector.defaultMatcher == old(injector.defaultMatcher)
      ensures schema.Some? ==>
        && outcome == Pass
        && injector.matchers == old(injector.matchers) + [SchemaMatcher(schema.value, condition)]
        && injector.defaultMatcher == old(injector.defaultMatcher)
    {
      if schema.None? {
        return Fail(ArgumentNull("schema"));
      }
      injector.Add(schema.value, condition);
      outcome := Pass;
    }
  }
}
