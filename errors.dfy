/** The .NET exception types that the camera pipeline throws or maps to HTTP responses. */
module Errors {
  import opened Wrappers

  /** The exception classes the code distinguishes. `ArgumentNull` and
      `ArgumentOutOfRange` derive from `Argument` in .NET. `Other` is any
      further class: its type name, and the nearest of these classes it
      derives from, if any (`RegexMatchTimeoutException` derives from
      `TimeoutException`, `CultureNotFoundException` from
      `ArgumentException`). */
  datatype ExceptionKind =
    | ArgumentNull
    | ArgumentOutOfRange
    | Argument
    | FileNotFound
    | UnauthorizedAccess
    | Timeout
    | InvalidOperation
    | Other(typeName: string, parent: Option<ExceptionKind>)

  /** An exception object: its class and its `Message`. */
  datatype Exception = Exception(kind: ExceptionKind, message: string)

  /** The nearest named class that `k` is or derives from: what a C# type
      pattern over the named classes sees. An unrelated class stays itself. */
  function Family(k: ExceptionKind): (f: ExceptionKind)
    ensures f.Other? ==> f.parent.None?
    ensures k.Other? && k.parent.None? ==> f == k
    ensures !k.Other? ==> f == k
  {
    match k
    case Other(_, Some(p)) => Family(p)
    case _ => k
  }

  /** True for `ArgumentException` and every class derived from it. */
  predicate IsArgumentException(k: ExceptionKind) {
    var f := Family(k);
    f.ArgumentNull? || f.ArgumentOutOfRange? || f.Argument?
  }

  /** The fully qualified .NET type name of an exception class. */
  function TypeName(k: ExceptionKind): string {
    match k
    case ArgumentNull => "System.ArgumentNullException"
    case ArgumentOutOfRange => "System.ArgumentOutOfRangeException"
    case Argument => "System.ArgumentException"
    case FileNotFound => "System.IO.FileNotFoundException"
    case UnauthorizedAccess => "System.UnauthorizedAccessException"
    case Timeout => "System.TimeoutException"
    case InvalidOperation => "System.InvalidOperationException"
    case Other(name, _) => name
  }

  /** `Exception.ToString()` without the stack trace: the type name, then
      ": " and the message when there is one. */
  function Describe(e: Exception): string {
    if e.message == [] then TypeName(e.kind) else TypeName(e.kind) + ": " + e.message
  }
}
