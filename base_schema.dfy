/** `BaseSchema` (src/schematix/core/bases/schema.py): what every schema
    class offers over its registry, and validation that collects the
    failing fields instead of stopping at the first. */
module BaseSchemas {
  import opened Wrappers
  import opened Values
  import opened Errors
  import opened Composites
  import opened SchemaMeta
  import OrderedMaps

  /** What the metaclass guarantees of the classes it creates. */
  predicate WellFormed(cls: SchemaClass) {
    OrderedMaps.DistinctKeys(cls.fields) && WellNamed(cls.fields) && cls.fieldnames == OrderedMaps.Keys(cls.fields)
  }

  /** Every class the metaclass accepts is well formed. */
  lemma CreatedWellFormed(name: string, bases: seq<Base>, ns: seq<(string, Attr)>)
    requires OrderedMaps.DistinctKeys(ns)
    requires Create(name, bases, ns).Success?
    ensures WellFormed(Create(name, bases, ns).value)
  {
    CreateSucceedsIff(name, bases, ns);
    CreateOrder(name, bases, ns);
  }

  /** `GetFields`: the registry, as a fresh dictionary. */
  function GetFields(cls: SchemaClass): (r: Registry)
    requires WellFormed(cls)
    ensures OrderedMaps.DistinctKeys(r) && OrderedMaps.Keys(r) == cls.fieldnames
  {
    cls.fields
  }

  /** `GetFieldNames`: the names of `GetFields`, in registry order. */
  function GetFieldNames(cls: SchemaClass): (r: seq<string>)
    requires WellFormed(cls)
    ensures r == OrderedMaps.Keys(GetFields(cls))
  {
    cls.fieldnames
  }

  /** `HasField`: membership in the registry, equivalently in `_fieldnames`. */
  function HasField(cls: SchemaClass, n: string): (b: bool)
    requires WellFormed(cls)
    ensures b <==> n in GetFieldNames(cls)
    ensures b <==> OrderedMaps.Get(GetFields(cls), n).Some?
  {
    n in OrderedMaps.Keys(cls.fields)
  }

  // -------------------------------------------------------------- validate

  /** One turn of `validate`'s loop: the entry recorded when the field's
      extraction raises, nothing when it succeeds. */
  function ErrorEntry(name: string, f: Field, data: Value): seq<(string, string)> {
    match Extract(f, data, None)
    case Failure(e) => [(name, Message(e))]
    case Success(_) => []
  }

  /** `validate(data)`: each field whose extraction raises, with the message,
      in registry order. */
  function ValidationErrors(fields: Registry, data: Value): (errs: seq<(string, string)>)
    decreases |fields|
  {
    if fields == [] then []
    else ErrorEntry(fields[0].0, fields[0].1, data) + ValidationErrors(fields[1..], data)
  }

  /** The errors are exactly the failing fields with their messages. */
  lemma {:induction false} ValidationEntries(fields: Registry, data: Value)
    ensures forall e :: e in ValidationErrors(fields, data) <==>
              exists i :: 0 <= i < |fields| && Extract(fields[i].1, data, None).Failure? &&
                          e == (fields[i].0, Message(Extract(fields[i].1, data, None).error))
    decreases |fields|
  {
    var outs := FieldOutcomes(fields, data);
    ValidationOver(fields, data);
    ErrorsOverEntries(fields, outs);
  }

  /** Every field's extraction outcome, in registry order. */
  function FieldOutcomes(fields: Registry, data: Value): (outs: seq<Result<Value, Error>>)
    ensures |outs| == |fields|
    ensures forall i :: 0 <= i < |fields| ==> outs[i] == Extract(fields[i].1, data, None)
  {
    seq(|fields|, i requires 0 <= i < |fields| => Extract(fields[i].1, data, None))
  }

  /** `ValidationErrors` over outcomes given in advance. */
  function ErrorsOver(fields: Registry, outs: seq<Result<Value, Error>>): seq<(string, string)>
    requires |outs| == |fields|
    decreases |fields|
  {
    if fields == [] then []
    else (if outs[0].Failure? then [(fields[0].0, Message(outs[0].error))] else []) + ErrorsOver(fields[1..], outs[1..])
  }

  lemma {:induction false} ValidationOver(fields: Registry, data: Value)
    ensures ValidationErrors(fields, data) == ErrorsOver(fields, FieldOutcomes(fields, data))
    decreases |fields|
  {
    if fields != [] {
      var outs := FieldOutcomes(fields, data);
      assert outs[1..] == FieldOutcomes(fields[1..], data);
      ValidationOver(fields[1..], data);
      assert outs[0] == Extract(fields[0].1, data, None);
    }
  }

  lemma {:induction false} ErrorsOverEntries(fields: Registry, outs: seq<Result<Value, Error>>)
    requires |outs| == |fields|
    ensures forall e :: e in ErrorsOver(fields, outs) <==>
              exists i :: 0 <= i < |fields| && outs[i].Failure? && e == (fields[i].0, Message(outs[i].error))
    decreases |fields|
  {
    if fields != [] {
      ErrorsOverEntries(fields[1..], outs[1..]);
      assert forall i :: 1 <= i < |fields| ==> fields[1..][i - 1] == fields[i] && outs[1..][i - 1] == outs[i];
    }
  }

  /** No errors exactly when every field extracts. */
  lemma ValidationEmptyIff(fields: Registry, data: Value)
    ensures ValidationErrors(fields, data) == [] <==> forall i :: 0 <= i < |fields| ==> Extract(fields[i].1, data, None).Success?
  {
    ValidationEntries(fields, data);
    if ValidationErrors(fields, data) != [] {
      assert ValidationErrors(fields, data)[0] in ValidationErrors(fields, data);
    }
  }

  /** The errors are keyed exactly by the failing fields. */
  lemma ValidationKeys(fields: Registry, data: Value, k: string)
    ensures k in OrderedMaps.Keys(ValidationErrors(fields, data)) <==>
              exists i :: 0 <= i < |fields| && fields[i].0 == k && Extract(fields[i].1, data, None).Failure?
  {
    var outs := FieldOutcomes(fields, data);
    ValidationOver(fields, data);
    ErrorsOverKeys(fields, outs, k);
  }

  lemma ErrorsOverKeys(fields: Registry, outs: seq<Result<Value, Error>>, k: string)
    requires |outs| == |fields|
    ensures k in OrderedMaps.Keys(ErrorsOver(fields, outs)) <==>
              exists i :: 0 <= i < |fields| && fields[i].0 == k && outs[i].Failure?
  {
    var errs := ErrorsOver(fields, outs);
    ErrorsOverEntries(fields, outs);
    if k in OrderedMaps.Keys(errs) {
      var j :| 0 <= j < |errs| && OrderedMaps.Keys(errs)[j] == k;
      assert errs[j] in errs;
    }
    if exists i :: 0 <= i < |fields| && fields[i].0 == k && outs[i].Failure? {
      var i :| 0 <= i < |fields| && fields[i].0 == k && outs[i].Failure?;
      var e := (fields[i].0, Message(outs[i].error));
      assert e in errs;
      var j :| 0 <= j < |errs| && errs[j] == e;
      assert OrderedMaps.Keys(errs)[j] == k;
    }
  }

  /** `validate` as written: the loop that catches each field's error. */
  method Validate(fields: Registry, data: Value) returns (errors: seq<(string, string)>)
    ensures errors == ValidationErrors(fields, data)
  {
    errors := [];
    var i := 0;
    assert fields[0..] == fields;
    while i < |fields|
      invariant 0 <= i <= |fields|
      invariant ValidationErrors(fields, data) == errors + ValidationErrors(fields[i..], data)
    {
      var entry := ErrorEntry(fields[i].0, fields[i].1, data);
      ValidationStep(fields, data, i, errors, entry);
      errors := errors + entry;
      i := i + 1;
    }
  }

  lemma ValidationStep(fields: Registry, data: Value, i: nat, errors: seq<(string, string)>, entry: seq<(string, string)>)
    requires i < |fields| && entry == ErrorEntry(fields[i].0, fields[i].1, data)
    ensures errors + ValidationErrors(fields[i..], data) == (errors + entry) + ValidationErrors(fields[i + 1..], data)
  {
    assert fields[i..][0] == fields[i] && fields[i..][1..] == fields[i + 1..];
    var rest := ValidationErrors(fields[i + 1..], data);
    assert ValidationErrors(fields[i..], data) == entry + rest;
    assert errors + (entry + rest) == (errors + entry) + rest;
  }
}
