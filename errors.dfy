/** Go error values as the core builds them: `errors.New`, `errors.Wrap` from
    github.com/pkg/errors, and the `*os.PathError` values the filesystem calls return. */
module Errors {

  /** The reasons an `os.PathError` carries here; only `NotExist` is recognised by
      `os.IsNotExist`. */
  datatype Reason = NotExist | NotDirectory | IsDirectory

  datatype Error =
    | New(msg: string)                             // errors.New(msg)
    | Wrap(cause: Error, msg: string)              // errors.Wrap(cause, msg)
    | PathError(op: string, path: string, reason: Reason)

  datatype Result<T> = Ok(value: T) | Err(error: Error)

  datatype Option<T> = None | Some(value: T)

  function ReasonText(r: Reason): string
  {
    match r
    case NotExist => "no such file or directory"
    case NotDirectory => "not a directory"
    case IsDirectory => "is a directory"
  }

  /** What `err.Error()` returns: a wrapped error prints its message, a colon and its cause. */
  function Text(e: Error): (t: string)
    ensures e.New? ==> t == e.msg
    ensures e.Wrap? ==>
      && |t| == |e.msg| + 2 + |Text(e.cause)| && t[..|e.msg|] == e.msg
      && t[|e.msg|..|e.msg| + 2] == ": " && t[|e.msg| + 2..] == Text(e.cause)
    ensures e.PathError? ==> |e.op| + 3 + |e.path| <= |t| && t[..|e.op|] == e.op && t[|e.op| + 1..|e.op| + 1 + |e.path|] == e.path
  {
    match e
    case New(m) => m
    case Wrap(c, m) => m + ": " + Text(c)
    case PathError(op, p, r) => op + " " + p + ": " + ReasonText(r)
  }

  /** `os.IsNotExist(err)`. */
  predicate IsNotExist(e: Error): (b: bool)
    ensures b <==> e.PathError? && ReasonText(e.reason) == "no such file or directory"
  {
    e.PathError? && e.reason == NotExist
  }
}
