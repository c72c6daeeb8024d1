/**
 * The delimited writer as a state machine. The text it produces is modelled as a
 * sequence of tokens: a header (the schema's column names), a record, a record
 * separator, or raw text. The record writer that formats values is not modelled;
 * whether formatting a record succeeds, and whether an error handler marks a failure
 * handled, are inputs of `Write`.
 */
module DelimitedWriters {
  import opened FlatFiles
  import opened SchemaInjectors

  datatype Token = Header(schema: DelimitedSchema) | Record(values: seq<Value>) | Separator | Raw(data: string)

  /** A non-null `TextWriter`; the characters written to it are the tokens of the writer's state. */
  datatype TextWriter = TextWriter

  /** The one option the writer itself consults. */
  datatype DelimitedOptions = DelimitedOptions(isFirstRecordSchema: bool)

  /** The options of a `new DelimitedOptions()`: the first record is not the schema. */
  function DefaultOptions(): DelimitedOptions
  {
    DelimitedOptions(false)
  }

  /** Whether a writer given `options` (null meaning the default options) treats its first record as the schema. */
  predicate FirstRecordIsSchema(options: Option<DelimitedOptions>)
  {
    (if options.Some? then options.value else DefaultOptions()).isFirstRecordSchema
  }

  /** What happens to one record: it is formatted, or formatting fails and a handler marks the failure handled or not. */
  datatype RecordAttempt = Formatted | Failed(handled: bool)

  /** What the writer is fixed with at construction. */
  datatype WriterConfig = WriterConfig(actualSchema: Option<DelimitedSchema>, isFirstRecordSchema: bool)

  /** The state the writer's operations change. */
  datatype WriterState = WriterState(isSchemaWritten: bool, physicalRecordNumber: nat, logicalRecordNumber: nat, output: seq<Token>)

  datatype StepResult = StepResult(outcome: Outcome, state: WriterState)

  function Initial(): WriterState
  {
    WriterState(false, 0, 0, [])
  }

  /** The number of header tokens in `out`. */
  function HeaderCount(out: seq<Token>): nat
  {
    if out == [] then 0 else HeaderCount(out[..|out| - 1]) + (if out[|out| - 1].Header? then 1 else 0)
  }

  /** The number of record tokens in `out`. */
  function RecordCount(out: seq<Token>): nat
  {
    if out == [] then 0 else RecordCount(out[..|out| - 1]) + (if out[|out| - 1].Record? then 1 else 0)
  }

  /** Appending one token adds its kind to the counts. */
  lemma CountsAppendOne(out: seq<Token>, t: Token)
    ensures HeaderCount(out + [t]) == HeaderCount(out) + (if t.Header? then 1 else 0)
    ensures RecordCount(out + [t]) == RecordCount(out) + (if t.Record? then 1 else 0)
  {
    assert (out + [t])[..|out|] == out;
  }

  /** A record token anywhere is counted. */
  lemma {:induction false} RecordAt(out: seq<Token>, i: nat)
    requires i < |out| && out[i].Record?
    ensures RecordCount(out) > 0
    decreases |out|
  {
    if i < |out| - 1 {
      RecordAt(out[..|out| - 1], i);
    }
  }

  /** No header comes after a record. */
  predicate HeaderBeforeRecords(out: seq<Token>)
  {
    forall i, j :: 0 <= i < j < |out| && out[i].Record? ==> !out[j].Header?
  }

  /**
   * The writer's invariant: at most one header, and none after a record; before the
   * schema step has run there is neither header nor record; the logical counter counts
   * the records, and the physical counter counts the records and the header.
   */
  predicate Consistent(s: WriterState)
  {
    && HeaderCount(s.output) <= 1
    && HeaderBeforeRecords(s.output)
    && (!s.isSchemaWritten ==> HeaderCount(s.output) == 0 && RecordCount(s.output) == 0)
    && s.logicalRecordNumber == RecordCount(s.output)
    && s.physicalRecordNumber == s.logicalRecordNumber + HeaderCount(s.output)
  }

  /**
   * Emitting the header: the schema and a record separator after what was written,
   * counted as one physical record and no logical one, with the schema step marked done.
   */
  function EmitHeader(s: WriterState, schema: DelimitedSchema): (t: WriterState)
    ensures t.isSchemaWritten
    ensures t.physicalRecordNumber == s.physicalRecordNumber + 1 && t.logicalRecordNumber == s.logicalRecordNumber
    ensures |t.output| == |s.output| + 2
    ensures t.output[..|s.output|] == s.output && t.output[|s.output|..] == [Header(schema), Separator]
    ensures HeaderCount(t.output) == HeaderCount(s.output) + 1 && RecordCount(t.output) == RecordCount(s.output)
  {
    CountsAppendOne(s.output, Header(schema));
    CountsAppendOne(s.output + [Header(schema)], Separator);
    WriterState(true, s.physicalRecordNumber + 1, s.logicalRecordNumber, s.output + [Header(schema)] + [Separator])
  }

  /**
   * `WriteSchema`: does nothing once the schema step has run; otherwise writes the header
   * when there is a schema, and marks the schema step done either way.
   */
  function WriteSchemaStep(c: WriterConfig, s: WriterState): (t: WriterState)
    ensures t.isSchemaWritten
    ensures s.isSchemaWritten ==> t == s
    ensures t.logicalRecordNumber == s.logicalRecordNumber
  {
    if s.isSchemaWritten then s
    else if c.actualSchema.Some? then EmitHeader(s, c.actualSchema.value)
    else s.(isSchemaWritten := true)
  }

  /** The first part of `Write`: like `WriteSchema`, but the header needs `IsFirstRecordSchema` as well. */
  function AutoSchemaStep(c: WriterConfig, s: WriterState): (t: WriterState)
    ensures t.isSchemaWritten
    ensures s.isSchemaWritten ==> t == s
  {
    if s.isSchemaWritten then s
    else if c.isFirstRecordSchema && c.actualSchema.Some? then EmitHeader(s, c.actualSchema.value)
    else s.(isSchemaWritten := true)
  }

  /**
   * `Write(values)`: null values are refused and change nothing. Otherwise the schema
   * step runs, then the record: a formatted record is emitted with a separator and
   * counted once physically and once logically; a failed one adds nothing more and is
   * passed over when handled and raised when not.
   */
  function WriteStep(c: WriterConfig, s: WriterState, values: Option<seq<Value>>, attempt: RecordAttempt): (r: StepResult)
    ensures values.None? ==> r == StepResult(Fail(ArgumentNull("values")), s)
    ensures values.Some? && attempt.Failed? ==> r.state == AutoSchemaStep(c, s)
    ensures values.Some? && attempt.Failed? ==> r.outcome == (if attempt.handled then Pass else Fail(RecordProcessing))
    ensures values.Some? && attempt.Formatted? ==>
      && r.outcome == Pass
      && r.state.physicalRecordNumber == AutoSchemaStep(c, s).physicalRecordNumber + 1
      && r.state.logicalRecordNumber == AutoSchemaStep(c, s).logicalRecordNumber + 1
      && r.state.output == AutoSchemaStep(c, s).output + [Record(values.value)] + [Separator]
  {
    if values.None? then StepResult(Fail(ArgumentNull("values")), s)
    else
      var t := AutoSchemaStep(c, s);
      match attempt
      case Formatted =>
        StepResult(Pass, WriterState(t.isSchemaWritten, t.physicalRecordNumber + 1, t.logicalRecordNumber + 1,
                                     t.output + [Record(values.value)] + [Separator]))
      case Failed(handled) =>
        StepResult(if handled then Pass else Fail(RecordProcessing), t)
  }

  /**
   * `WriteRaw(data, writeRecordSeparator)`: the text, then a separator when asked for,
   * after what was written; raw text is never counted, neither as a header nor as a
   * record, and leaves both counters and the schema flag alone.
   */
  function WriteRawStep(s: WriterState, data: string, writeRecordSeparator: bool): (t: WriterState)
    ensures t.physicalRecordNumber == s.physicalRecordNumber && t.logicalRecordNumber == s.logicalRecordNumber
    ensures t.isSchemaWritten == s.isSchemaWritten
    ensures |t.output| == |s.output| + (if writeRecordSeparator then 2 else 1)
    ensures t.output[..|s.output|] == s.output
    ensures t.output[|s.output|..] == if writeRecordSeparator then [Raw(data), Separator] else [Raw(data)]
    ensures HeaderCount(t.output) == HeaderCount(s.output) && RecordCount(t.output) == RecordCount(s.output)
  {
    CountsAppendOne(s.output, Raw(data));
    CountsAppendOne(s.output + [Raw(data)], Separator);
    assert s.output + [Raw(data)] + [] == s.output + [Raw(data)];
    s.(output := s.output + [Raw(data)] + (if writeRecordSeparator then [Separator] else []))
  }

  lemma InitialConsistent()
    ensures Consistent(Initial())
  {
  }

  /**
   * Appending one token keeps the invariant's shape: a token that is not a header keeps
   * "no header after a record"; a header does too when no record has been written.
   */
  lemma AppendOne(out: seq<Token>, t: Token)
    requires HeaderBeforeRecords(out)
    requires t.Header? ==> RecordCount(out) == 0
    ensures HeaderBeforeRecords(out + [t])
    ensures HeaderCount(out + [t]) == HeaderCount(out) + (if t.Header? then 1 else 0)
    ensures RecordCount(out + [t]) == RecordCount(out) + (if t.Record? then 1 else 0)
  {
    CountsAppendOne(out, t);
    var o := out + [t];
    forall i, j | 0 <= i < j < |o| && o[i].Record?
      ensures !o[j].Header?
    {
      if j == |out| && t.Header? {
        RecordAt(out, i);
      }
    }
  }

  lemma EmitHeaderConsistent(s: WriterState, schema: DelimitedSchema)
    requires Consistent(s) && !s.isSchemaWritten
    ensures Consistent(EmitHeader(s, schema))
  {
    AppendOne(s.output, Header(schema));
    AppendOne(s.output + [Header(schema)], Separator);
  }

  /** `WriteSchema` keeps the invariant. */
  lemma WriteSchemaConsistent(c: WriterConfig, s: WriterState)
    requires Consistent(s)
    ensures Consistent(WriteSchemaStep(c, s))
  {
    if !s.isSchemaWritten && c.actualSchema.Some? {
      EmitHeaderConsistent(s, c.actualSchema.value);
    }
  }

  /** `Write` keeps the invariant, whatever happens to the record. */
  lemma WriteConsistent(c: WriterConfig, s: WriterState, values: Option<seq<Value>>, attempt: RecordAttempt)
    requires Consistent(s)
    ensures Consistent(WriteStep(c, s, values, attempt).state)
  {
    if values.Some? {
      var t := AutoSchemaStep(c, s);
      if !s.isSchemaWritten && c.isFirstRecordSchema && c.actualSchema.Some? {
        EmitHeaderConsistent(s, c.actualSchema.value);
      }
      assert Consistent(t);
      if attempt.Formatted? {
        AppendOne(t.output, Record(values.value));
        AppendOne(t.output + [Record(values.value)], Separator);
      }
    }
  }

  /** `WriteRaw` keeps the invariant: raw text is never counted. */
  lemma WriteRawConsistent(s: WriterState, data: string, writeRecordSeparator: bool)
    requires Consistent(s)
    ensures Consistent(WriteRawStep(s, data, writeRecordSeparator))
  {
    AppendOne(s.output, Raw(data));
    if writeRecordSeparator {
      AppendOne(s.output + [Raw(data)], Separator);
    } else {
      assert s.output + [Raw(data)] + [] == s.output + [Raw(data)];
    }
  }

  /** `WriteSchema` is idempotent. */
  lemma WriteSchemaIdempotent(c: WriterConfig, s: WriterState)
    ensures WriteSchemaStep(c, WriteSchemaStep(c, s)) == WriteSchemaStep(c, s)
  {
  }

  /** After any accepted `Write`, `WriteSchema` does nothing. */
  lemma WriteSchemaAfterWrite(c: WriterConfig, s: WriterState, values: seq<Value>, attempt: RecordAttempt)
    ensures var t := WriteStep(c, s, Some(values), attempt).state;
      WriteSchemaStep(c, t) == t
  {
  }

  /**
   * On a fresh writer the first `Write` emits the header exactly when the first record
   * is the schema and a schema exists, and then the header comes first.
   */
  lemma FirstWriteHeader(c: WriterConfig, values: seq<Value>, attempt: RecordAttempt)
    ensures var t := WriteStep(c, Initial(), Some(values), attempt).state;
      && HeaderCount(t.output) == (if c.isFirstRecordSchema && c.actualSchema.Some? then 1 else 0)
      && (c.isFirstRecordSchema && c.actualSchema.Some? ==> t.output[0] == Header(c.actualSchema.value))
  {
    var a := AutoSchemaStep(c, Initial());
    if c.isFirstRecordSchema && c.actualSchema.Some? {
      CountsAppendOne([], Header(c.actualSchema.value));
      CountsAppendOne([Header(c.actualSchema.value)], Separator);
      assert a.output == [Header(c.actualSchema.value)] + [Separator];
    } else {
      assert a.output == [];
    }
    if attempt.Formatted? {
      CountsAppendOne(a.output, Record(values));
      CountsAppendOne(a.output + [Record(values)], Separator);
    }
  }

  /** A failed record that a handler marks handled leaves both counters where the schema step left them. */
  lemma HandledErrorKeepsCounters(c: WriterConfig, s: WriterState, values: seq<Value>)
    requires s.isSchemaWritten
    ensures var r := WriteStep(c, s, Some(values), Failed(true));
      r.outcome == Pass && r.state == s
  {
  }

  /** One call on the writer. */
  datatype Operation =
    | WriteSchemaOp
    | WriteOp(values: Option<seq<Value>>, attempt: RecordAttempt)
    | WriteRawOp(data: string, writeRecordSeparator: bool)

  function Apply(c: WriterConfig, s: WriterState, op: Operation): WriterState
  {
    match op
    case WriteSchemaOp => WriteSchemaStep(c, s)
    case WriteOp(values, attempt) => WriteStep(c, s, values, attempt).state
    case WriteRawOp(data, sep) => WriteRawStep(s, data, sep)
  }

  /** The state after a sequence of calls. An unhandled error ends the writer's use in the source; later calls are still allowed here. */
  function Run(c: WriterConfig, s: WriterState, ops: seq<Operation>): WriterState
    decreases |ops|
  {
    if ops == [] then s else Run(c, Apply(c, s, ops[0]), ops[1..])
  }

  /**
   * Whatever the calls, a writer has written at most one header, none after a record,
   * and its counters are the number of records and the number of records plus header.
   */
  lemma {:induction false} RunConsistent(c: WriterConfig, s: WriterState, ops: seq<Operation>)
    requires Consistent(s)
    ensures Consistent(Run(c, s, ops))
    decreases |ops|
  {
    if ops != [] {
      match ops[0] {
        case WriteSchemaOp => WriteSchemaConsistent(c, s);
        case WriteOp(values, attempt) => WriteConsistent(c, s, values, attempt);
        case WriteRawOp(data, sep) => WriteRawConsistent(s, data, sep);
      }
      RunConsistent(c, Apply(c, s, ops[0]), ops[1..]);
    }
  }

  class DelimitedWriter {
    const actualSchema: Option<DelimitedSchema>
    const isFirstRecordSchema: bool
    /** Whether the record writer picks each record's schema with an injector (the injector itself is the record writer's). */
    const usesInjector: bool
    var isSchemaWritten: bool
    var physicalRecordNumber: nat
    var logicalRecordNumber: nat
    /** What has been written to the text writer. */
    var output: seq<Token>

    function Config(): WriterConfig
    {
      WriterConfig(actualSchema, isFirstRecordSchema)
    }

    function State(): WriterState
      reads this
    {
      WriterState(isSchemaWritten, physicalRecordNumber, logicalRecordNumber, output)
    }

    ghost predicate Valid()
      reads this
    {
      Consistent(State())
    }

    constructor (schema: Option<DelimitedSchema>, isFirstRecordSchema: bool, usesInjector: bool)
      ensures State() == Initial()
      ensures actualSchema == schema && this.isFirstRecordSchema == isFirstRecordSchema
      ensures this.usesInjector == usesInjector
    {
      actualSchema := schema;
      this.isFirstRecordSchema := isFirstRecordSchema;
      this.usesInjector := usesInjector;
      isSchemaWritten := false;
      physicalRecordNumber, logicalRecordNumber := 0, 0;
      output := [];
    }

    /** A writer in the initial state satisfies the invariant; every new writer starts there. */
    lemma InitialIsValid()
      requires State() == Initial()
      ensures Valid()
    {
      InitialConsistent();
    }

    method WriteHeader(schema: DelimitedSchema)
      modifies this
      ensures State() == EmitHeader(old(State()), schema)
    {
      output := output + [Header(schema)];
      output := output + [Separator];
      physicalRecordNumber := physicalRecordNumber + 1;
      isSchemaWritten := true;
    }

    method WriteSchema()
      requires Valid()
      modifies this
      ensures Valid() && State() == WriteSchemaStep(Config(), old(State()))
    {
      WriteSchemaConsistent(Config(), State());
      if isSchemaWritten {
        return;
      }
      if actualSchema.Some? {
        WriteHeader(actualSchema.value);
      }
      isSchemaWritten := true;
    }

    method Write(values: Option<seq<Value>>, attempt: RecordAttempt) returns (outcome: Outcome)
      requires Valid()
      modifies this
      ensures Valid() && StepResult(outcome, State()) == WriteStep(Config(), old(State()), values, attempt)
    {
      WriteConsistent(Config(), State(), values, attempt);
      if values.None? {
        return Fail(ArgumentNull("values"));
      }
      AutoSchema();
      match attempt
      case Formatted =>
        output := output + [Record(values.value)] + [Separator];
        physicalRecordNumber, logicalRecordNumber := physicalRecordNumber + 1, logicalRecordNumber + 1;
        outcome := Pass;
      case Failed(handled) =>
        outcome := ProcessError(handled);
    }

    /** The schema step at the start of `Write`: the header goes first when the first record is the schema. */
    method AutoSchema()
      modifies this
      ensures State() == AutoSchemaStep(Config(), old(State()))
    {
      if !isSchemaWritten {
        if isFirstRecordSchema && actualSchema.Some? {
          WriteHeader(actualSchema.value);
        }
        isSchemaWritten := true;
      }
    }

    /** A record error is swallowed when the handler marks it handled and raised otherwise. */
    static method ProcessError(handled: bool) returns (outcome: Outcome)
      ensures outcome == if handled then Pass else Fail(RecordProcessing)
    {
      if handled {
        return Pass;
      }
      outcome := Fail(RecordProcessing);
    }

    method WriteRaw(data: string, writeRecordSeparator: bool)
      requires Valid()
      modifies this
      ensures Valid() && State() == WriteRawStep(old(State()), data, writeRecordSeparator)
    {
      WriteRawConsistent(State(), data, writeRecordSeparator);
      output := output + [Raw(data)];
      if writeRecordSeparator {
        output := output + [Separator];
      }
    }
  }

  /**
   * The private constructor behind the schema-less and the schema constructors: a null
   * writer is refused, and so is a null schema when a schema is required; a refused
   * construction yields no writer. A missing options object means the default options.
   */
  method Create(writer: Option<TextWriter>, schema: Option<DelimitedSchema>, options: Option<DelimitedOptions>, hasSchema: bool)
    returns (outcome: Outcome, w: DelimitedWriter?)
    ensures writer.None? ==> outcome == Fail(ArgumentNull("writer")) && w == null
    ensures writer.Some? && hasSchema && schema.None? ==> outcome == Fail(ArgumentNull("schema")) && w == null
    ensures writer.Some? && !(hasSchema && schema.None?) ==>
      && outcome == Pass && w != null && fresh(w) && w.State() == Initial()
      && w.actualSchema == schema && !w.usesInjector
      && w.isFirstRecordSchema == FirstRecordIsSchema(options)
  {
    if writer.None? {
      return Fail(ArgumentNull("writer")), null;
    }
    if hasSchema && schema.None? {
      return Fail(ArgumentNull("schema")), null;
    }
    w := new DelimitedWriter(schema, FirstRecordIsSchema(options), false);
    outcome := Pass;
  }

  /** `new DelimitedWriter(writer, options)`: no schema, so no header is ever written. */
  method NewWriter(writer: Option<TextWriter>, options: Option<DelimitedOptions>) returns (outcome: Outcome, w: DelimitedWriter?)
    ensures writer.None? ==> outcome == Fail(ArgumentNull("writer")) && w == null
    ensures writer.Some? ==>
      && outcome == Pass && w != null && fresh(w) && w.State() == Initial() && w.actualSchema.None?
      && w.isFirstRecordSchema == FirstRecordIsSchema(options)
  {
    outcome, w := Create(writer, None, options, false);
  }

  /** `new DelimitedWriter(writer, schema, options)`. */
  method NewWriterWithSchema(writer: Option<TextWriter>, schema: Option<DelimitedSchema>, options: Option<DelimitedOptions>)
    returns (outcome: Outcome, w: DelimitedWriter?)
    ensures writer.None? ==> outcome == Fail(ArgumentNull("writer")) && w == null
    ensures writer.Some? && schema.None? ==> outcome == Fail(ArgumentNull("schema")) && w == null
    ensures writer.Some? && schema.Some? ==>
      && outcome == Pass && w != null && fresh(w) && w.State() == Initial() && w.actualSchema == schema
      && w.isFirstRecordSchema == FirstRecordIsSchema(options)
  {
    outcome, w := Create(writer, schema, options, true);
  }

  /** `new DelimitedWriter(writer, injector, options)`: the writer is checked first, then the injector. */
  method NewWriterWithInjector(writer: Option<TextWriter>, injector: Option<DelimitedSchemaInjector>, options: Option<DelimitedOptions>)
    returns (outcome: Outcome, w: DelimitedWriter?)
    ensures writer.None? ==> outcome == Fail(ArgumentNull("writer")) && w == null
    ensures writer.Some? && injector.None? ==> outcome == Fail(ArgumentNull("injector")) && w == null
    ensures writer.Some? && injector.Some? ==>
      && outcome == Pass && w != null && fresh(w) && w.State() == Initial()
      && w.usesInjector && w.actualSchema.None?
  {
    if writer.None? {
      return Fail(ArgumentNull("writer")), null;
    }
    if injector.None? {
      return Fail(ArgumentNull("injector")), null;
    }
    w := new DelimitedWriter(None, FirstRecordIsSchema(options), true);
    outcome := Pass;
  }
}
