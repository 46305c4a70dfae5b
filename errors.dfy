/** The exceptions the library raises, as structured values, and `str(e)` for each. */
module Errors {
  import opened Wrappers
  import opened Values
  import PyText

  /** The Python exception class, which decides what an `except` clause catches. */
  datatype ExcClass = ValueError | KeyError | AttributeError | TypeError | IndexError | OtherError

  datatype Error =
      /** Raised by user code: a transform, validator, type, mapper, evaluator or combiner. */
    | Raised(cls: ExcClass, msg: string)
      // bases/field.py
    | RequiredMissing(field: Option<string>)
    | NoTargetDefined(field: Option<string>)
    | CannotNavigate(parts: seq<string>)
    | CannotSetTarget(target: string, on: string, cause: Error)
      // stages of the value pipeline
    | CannotConvert(value: Value, typename: string)
    | NoMappingFound(value: Value)
    | NotInChoices(value: Value, choices: seq<Value>)
      // conditional fields
    | NoComputedValues(field: Option<string>)
    | NoDependencies(field: Option<string>)
    | NoConditions(field: Option<string>)
    | DependencyUnavailable(dep: string, field: Option<string>)
    | ConditionFailed(condition: string, field: Option<string>, cause: Error)
      // composite fields
    | EmptyCombined
    | CombinedFailed(messages: seq<string>)
    | EmptyAccumulated
    | AccumulationFailed(field: Option<string>, cause: Error)
    | NoAccumulatedValues
    | NestedPathNotFound(path: string)
    | CannotCreateNested(path: string, on: string)
    | NotInAnySource(field: Option<string>, sources: seq<Option<string>>)
    | NullTargetPath
    | NoSourceOnBinding(field: Option<string>)
    | NoTargetOnBinding(field: Option<string>)
    | InvalidSourceConfig(key: string, config: string)
      // dependency resolution
    | MissingDependency(dependent: string, dep: string)
    | CircularDependency(cycle: seq<string>)
      // schema registry and schemas
    | DuplicateFieldNames(schema: string, duplicates: seq<Option<string>>)
    | NameMismatch(schema: string, key: string, name: Option<string>)
    | InvalidField(schema: string, key: string, cause: Error)
    | SchemaFieldFailed(key: string, cause: Error)
    | BoundFieldFailed(key: string, cause: Error)
    | InvalidMapping(key: string, config: string)
    | EmptySubset(names: seq<string>)
    | ItemFailed(index: nat, cause: Error)
      // transforms
    | EmptyPipeline
    | EmptyParallel
    | Requirement(message: string, value: Value)

  /** The class of the exception; every error the library raises itself is a ValueError
      except the ones a user callable raised. */
  function Class(e: Error): ExcClass {
    if e.Raised? then e.cls else ValueError
  }

  function NameText(name: Option<string>): string {
    if name.Some? then name.value else "None"
  }

  function StrList(xs: seq<string>): Value {
    VList(seq(|xs|, i requires 0 <= i < |xs| => VStr(xs[i])))
  }

  function NameList(xs: seq<Option<string>>): Value {
    VList(seq(|xs|, i requires 0 <= i < |xs| => if xs[i].Some? then VStr(xs[i].value) else VNone))
  }

  function ClassText(typename: string): string {
    "<class '" + typename + "'>"
  }

  /** `str(e)`. */
  function Message(e: Error): string {
    match e
    case Raised(_, msg) => msg
    case RequiredMissing(f) => "(" + NameText(f) + ") required field is missing or None"
    case NoTargetDefined(f) => "Field '" + NameText(f) + "' has no target defined"
    case CannotNavigate(parts) => "Cannot navigate to nested target: " + PyText.Join(".", parts)
    case CannotSetTarget(t, on, cause) => "Cannot set target '" + t + "' on " + ClassText(on) + ": " + Message(cause)
    case CannotConvert(v, t) => "Cannot convert '" + PyStr(v) + "' to " + t
    case NoMappingFound(v) => "No mapping found for value '" + PyStr(v) + "'"
    case NotInChoices(v, cs) => "Value '" + PyStr(v) + "' not in allowed choices: " + Repr(VList(cs))
    case NoComputedValues(f) => "Conditional field '" + NameText(f) + "' requires computed (fields)"
    case NoDependencies(f) => "Conditional Field '" + NameText(f) + "' has no dependencies"
    case NoConditions(f) => "Conditional Field '" + NameText(f) + "' has no conditions"
    case DependencyUnavailable(d, f) => "Dependency '" + d + "' not available for field '" + NameText(f) + "'"
    case ConditionFailed(c, f, cause) => "Condition '" + c + "' failed for field '" + NameText(f) + "': " + Message(cause)
    case EmptyCombined => "CombinedField requires at least one field"
    case CombinedFailed(ms) => "CombinedField extraction failed: " + PyText.Join("; ", ms)
    case EmptyAccumulated => "AccumulatedField requires at least one field"
    case AccumulationFailed(f, cause) => "Required field '" + NameText(f) + "' failed in accumulation: " + Message(cause)
    case NoAccumulatedValues => "No values available for required accumulated field"
    case NestedPathNotFound(p) => "Required nested path '" + p + "' not found"
    case CannotCreateNested(p, on) => "Cannot create nested path '" + p + "' in " + ClassText(on)
    case NotInAnySource(f, srcs) => "Required field '" + NameText(f) + "' not found in any sources: " + Repr(NameList(srcs))
    case NullTargetPath => "Target path cannot be None"
    case NoSourceOnBinding(f) => "Source field '" + NameText(f) + "' has no source defined"
    case NoTargetOnBinding(f) => "Target field '" + NameText(f) + "' has no target defined "
    case InvalidSourceConfig(n, c) => "Invalid source config for '" + n + "': " + c
    case MissingDependency(f, d) => "Field '" + f + "' is missing dependency: '" + d + "'"
    case CircularDependency(c) => "Circular dependency detected: " + PyText.Join(" -> ", c)
    case DuplicateFieldNames(s, ds) => "(" + s + ") duplicate field names: " + Repr(NameList(ds))
    case NameMismatch(s, k, n) => "(" + s + ") field name mismatch: attribute '" + k + "' has field.name='" + NameText(n) + "'"
    case InvalidField(s, k, cause) => "(" + s + ") invlaid field '" + k + "': " + Message(cause)
    case SchemaFieldFailed(f, cause) => "Schema transformation failed on field '" + f + "': " + Message(cause)
    case BoundFieldFailed(f, cause) => "Error transforming field '" + f + "': " + Message(cause)
    case InvalidMapping(f, c) => "Invalid mapping for field '" + f + "': " + c
    case EmptySubset(ns) => "No valid fields found in subset: " + Repr(StrList(ns))
    case ItemFailed(i, cause) => "Failed to transform item " + NatToString(i) + ": " + Message(cause)
    case EmptyPipeline => "PipelineTransform requires at least one transform"
    case EmptyParallel => "ParallelTransform requires at least one transform"
    case Requirement(m, v) => m + ": " + PyStr(v)
  }

  /** A user callable of one argument: it returns a value or raises. */
  type Callable = Value -> Result<Value, Error>

  /** A user predicate: it returns a truth value or raises. */
  type Predicate = Value -> Result<bool, Error>
}
