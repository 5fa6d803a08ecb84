/** `LogMethod` and the argument redaction it logs with. */
module LogDecorator {
  import opened Wrappers
  import opened Failures

  /** A method argument as the decorator sees it: an object (its own
      enumerable fields) or a value that is not one. */
  datatype Arg =
    | Undefined
    | Null
    | Bool(b: bool)
    | Num(n: int)
    | Str(s: string)
    | Obj(fields: map<string, Arg>)

  const SENSITIVE_FIELDS: seq<string> := ["password", "passwordHash", "token", "refreshToken", "accessToken"]
  const REDACTED: string := "***REDACTED***"

  /** The fields of an object after redaction: the same keys, a sensitive
      key's value replaced, every other value (nested objects included) as
      it was. */
  function RedactedFields(fields: map<string, Arg>): (r: map<string, Arg>)
    ensures r.Keys == fields.Keys
    ensures forall k :: k in r && k in SENSITIVE_FIELDS ==> r[k] == Str(REDACTED)
    ensures forall k :: k in r && k !in SENSITIVE_FIELDS ==> r[k] == fields[k]
  {
    map k | k in fields :: if k in SENSITIVE_FIELDS then Str(REDACTED) else fields[k]
  }

  /** What `sanitizeArgs` makes of one argument: a redacted copy of an
      object, anything else (null included) unchanged. */
  function Sanitized(arg: Arg): (r: Arg)
    ensures !arg.Obj? ==> r == arg
    ensures arg.Obj? ==> r == Obj(RedactedFields(arg.fields))
  {
    match arg
    case Obj(fields) => Obj(RedactedFields(fields))
    case _ => arg
  }

  /** What `sanitizeArgs` returns: one sanitized argument per argument, in
      the same positions. */
  function SanitizedArgs(args: seq<Arg>): (r: seq<Arg>)
    ensures |r| == |args|
    ensures forall i :: 0 <= i < |args| ==> r[i] == Sanitized(args[i])
  {
    if args == [] then [] else [Sanitized(args[0])] + SanitizedArgs(args[1..])
  }

  /** The copy-then-overwrite of one argument: a shallow copy of the object,
      then one pass over the sensitive field names that overwrites those
      present. The caller's value is a datatype value and cannot be changed. */
  method SanitizeArg(arg: Arg) returns (r: Arg)
    ensures r == Sanitized(arg)
  {
    if !arg.Obj? {
      return arg;
    }
    var sanitized := arg.fields;
    for i := 0 to |SENSITIVE_FIELDS|
      invariant sanitized.Keys == arg.fields.Keys
      invariant forall k :: k in sanitized && k in SENSITIVE_FIELDS[..i] ==> sanitized[k] == Str(REDACTED)
      invariant forall k :: k in sanitized && k !in SENSITIVE_FIELDS[..i] ==> sanitized[k] == arg.fields[k]
    {
      var field := SENSITIVE_FIELDS[i];
      if field in sanitized {
        sanitized := sanitized[field := Str(REDACTED)];
      }
      assert SENSITIVE_FIELDS[..i + 1] == SENSITIVE_FIELDS[..i] + [field];
    }
    assert SENSITIVE_FIELDS[..|SENSITIVE_FIELDS|] == SENSITIVE_FIELDS;
    r := Obj(sanitized);
  }

  /** `sanitizeArgs`: the map over the arguments. */
  method SanitizeArgs(args: seq<Arg>) returns (out: seq<Arg>)
    ensures out == SanitizedArgs(args)
  {
    out := [];
    for i := 0 to |args|
      invariant |out| == i
      invariant forall j :: 0 <= j < i ==> out[j] == Sanitized(args[j])
    {
      var a := SanitizeArg(args[i]);
      out := out + [a];
    }
  }

  /** Sanitizing twice gives what sanitizing once gives. */
  lemma SanitizeIdempotent(args: seq<Arg>)
    ensures SanitizedArgs(SanitizedArgs(args)) == SanitizedArgs(args)
  {
    var once := SanitizedArgs(args);
    forall i | 0 <= i < |args| ensures Sanitized(once[i]) == once[i] {
      if args[i].Obj? {
        var f := RedactedFields(args[i].fields);
        assert RedactedFields(f) == f;
      }
    }
  }

  /** Sanitized arguments reveal nothing of the sensitive values: two
      arguments that agree everywhere but there sanitize to the same value. */
  lemma SanitizeHidesSecrets(a1: Arg, a2: Arg)
    requires a1.Obj? && a2.Obj? && a1.fields.Keys == a2.fields.Keys
    requires forall k :: k in a1.fields && k !in SENSITIVE_FIELDS ==> a1.fields[k] == a2.fields[k]
    ensures Sanitized(a1) == Sanitized(a2)
  {
    assert RedactedFields(a1.fields) == RedactedFields(a2.fields);
  }

  datatype LogEntry =
    | Entry(methodName: string, args: seq<Arg>)
    | Success(methodName: string)
    | Error(methodName: string, message: string)

  datatype Logged<T> = Logged(result: Result<T, Failure>, log: seq<LogEntry>)

  /** A method wrapped by `@LogMethod()`: the entry line with the sanitized
      arguments, then the success line or the error line with the error's
      message, and the original outcome handed back untouched. */
  function LogMethod<T>(name: string, original: seq<Arg> -> Result<T, Failure>, args: seq<Arg>): (r: Logged<T>)
    ensures r.result == original(args)
    ensures |r.log| == 2 && r.log[0] == Entry(name, SanitizedArgs(args))
    ensures r.result.Ok? ==> r.log[1] == Success(name)
    ensures r.result.Err? ==> r.log[1] == Error(name, Message(r.result.error))
  {
    var outcome := original(args);
    var last := if outcome.Ok? then Success(name) else Error(name, Message(outcome.error));
    Logged(outcome, [Entry(name, SanitizedArgs(args)), last])
  }

  /** Whatever the arguments hold under a sensitive key never reaches the
      entry line: the logged argument has the redaction marker there. */
  lemma LoggedArgsHideSecrets<T>(name: string, original: seq<Arg> -> Result<T, Failure>, args: seq<Arg>, i: nat, k: string)
    requires i < |args| && args[i].Obj? && k in args[i].fields && k in SENSITIVE_FIELDS
    ensures LogMethod(name, original, args).log[0].args[i] == Obj(RedactedFields(args[i].fields))
    ensures LogMethod(name, original, args).log[0].args[i].fields[k] == Str(REDACTED)
  {
  }
}
