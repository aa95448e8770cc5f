/**
 * Model of src/BenchMatcha/errors.py: the module-level registry of
 * exception classes, the registering decorator, and the standard messages
 * of the two custom exceptions.
 */
module Errors {
  import opened Wrappers

  /** Exception classes, by identity.  `Custom` stands for a class defined
      elsewhere and registered later, identified by its qualified name. */
  datatype ExceptionClass =
    | TypeError
    | ValueError
    | RuntimeError
    | JSONDecodeError
    | FileNotFoundError
    | SchemaError
    | ParsingError
    | Custom(qualifiedName: string)

  /** An exception instance: its class and its message. */
  datatype Exception = Exception(cls: ExceptionClass, message: string)

  /** The registry's contents before any decorator has run. */
  const BuiltinExceptions: set<ExceptionClass> :=
    {TypeError, ValueError, RuntimeError, JSONDecodeError, FileNotFoundError}

  /** The registry once the module has been loaded: both custom exceptions
      register themselves through the decorator. */
  const LoadedExceptions: set<ExceptionClass> :=
    BuiltinExceptions + {SchemaError, ParsingError}

  /** The registry after `_exception_register.add(cls)`. */
  function WithClass(registry: set<ExceptionClass>, cls: ExceptionClass): (r: set<ExceptionClass>)
    ensures cls in r && registry <= r
    ensures forall c <- r :: c == cls || c in registry
  {
    registry + {cls}
  }

  /** `_exception_register`, a set that the decorator grows in place. */
  class ExceptionRegistry {
    var classes: set<ExceptionClass>

    /** The set literal at module level. */
    constructor ()
      ensures classes == BuiltinExceptions
    {
      classes := BuiltinExceptions;
    }

    /** `register_custom_exception(cls)`: adds the class and hands it back
        unchanged, so it can serve as a class decorator. */
    method Register(cls: ExceptionClass) returns (r: ExceptionClass)
      modifies this
      ensures r == cls
      ensures classes == WithClass(old(classes), cls)
    {
      classes := classes + {cls};
      r := cls;
    }
  }

  /** Loading the module: the set literal, then the two decorated class
      definitions. */
  method LoadModule() returns (registry: ExceptionRegistry)
    ensures fresh(registry)
    ensures registry.classes == LoadedExceptions
  {
    registry := new ExceptionRegistry();
    var schema := registry.Register(SchemaError);
    var parsing := registry.Register(ParsingError);
  }

  /** Registering a class that is already registered changes nothing. */
  lemma RegisterIdempotent(registry: set<ExceptionClass>, cls: ExceptionClass)
    ensures WithClass(WithClass(registry, cls), cls) == WithClass(registry, cls)
    ensures cls in registry ==> WithClass(registry, cls) == registry
  {
  }

  /** Registering a fresh class and removing it again restores the registry. */
  lemma RegisterThenRemove(registry: set<ExceptionClass>, cls: ExceptionClass)
    requires cls !in registry
    ensures WithClass(registry, cls) - {cls} == registry
  {
  }

  // ---------------------------------------------------------------------
  // Standard messages

  const SchemaErrorPrefix: string := "Unsupported json schema version: "

  const ParsingErrorMessage: string :=
    "Failed to parse json data. "
    + "Please confirm benchmarks do not contain "
    + "print statements or write to stdout, "
    + "which can interfere with output."

  /** The version a SchemaError message reports, if it is one. */
  function ReportedVersion(message: string): Option<string>
  {
    if |SchemaErrorPrefix| <= |message| && message[..|SchemaErrorPrefix|] == SchemaErrorPrefix
    then Some(message[|SchemaErrorPrefix|..])
    else None
  }

  /** `SchemaError.response(version)`: a SchemaError whose message is the
      fixed prefix followed by the offending version (already formatted as
      text by the f-string). */
  function SchemaErrorResponse(version: string): (e: Exception)
    ensures e.cls == SchemaError
    ensures |e.message| == |SchemaErrorPrefix| + |version|
    ensures ReportedVersion(e.message) == Some(version)
  {
    var message := SchemaErrorPrefix + version;
    assert message[..|SchemaErrorPrefix|] == SchemaErrorPrefix;
    assert message[|SchemaErrorPrefix|..] == version;
    Exception(SchemaError, message)
  }

  /** `ParsingError.response()`: a ParsingError with one fixed message. */
  function ParsingErrorResponse(): (e: Exception)
    ensures e.cls == ParsingError && e.message == ParsingErrorMessage
    ensures ReportedVersion(e.message) == None
  {
    assert ParsingErrorMessage[..|SchemaErrorPrefix|][0] == 'F' != SchemaErrorPrefix[0];
    Exception(ParsingError, ParsingErrorMessage)
  }

  /** Distinct versions give distinct messages: the message identifies the
      version that was rejected. */
  lemma SchemaErrorResponseInjective(v: string, w: string)
    ensures SchemaErrorResponse(v).message == SchemaErrorResponse(w).message ==> v == w
  {
    var ev, ew := SchemaErrorResponse(v), SchemaErrorResponse(w);
  }

  /** No SchemaError message can be mistaken for the ParsingError one. */
  lemma ResponsesDistinct(version: string)
    ensures SchemaErrorResponse(version).message != ParsingErrorResponse().message
  {
    var e, p := SchemaErrorResponse(version), ParsingErrorResponse();
  }

  /** Both custom exceptions are registered once the module is loaded, next
      to the five built-in ones. */
  lemma LoadedRegistry()
    ensures BuiltinExceptions < LoadedExceptions
    ensures SchemaError in LoadedExceptions && ParsingError in LoadedExceptions
    ensures LoadedExceptions - BuiltinExceptions == {SchemaError, ParsingError}
  {
    assert SchemaError !in BuiltinExceptions;
  }
}
