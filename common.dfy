/** Value types shared by the board, the creation dialog, the dashboard and the
    assignment listener. */
module Common {

  /** A value that may be null or undefined on the JavaScript side. */
  datatype Option<+T> = None | Some(value: T) {

    /** The value, or `default` when there is none (JavaScript `x ?? default`). */
    function GetOr(default: T): T {
      match this
      case Some(v) => v
      case None => default
    }
  }

  /** A transient notice shown by the toast library. Only its kind and text
      are modelled, and the listener's assignment notice carries the task's title. */
  datatype Toast =
    | Success(text: string)
    | Error(text: string)
    | TaskAssigned(title: string)

  /** `sub` is `s` with some elements left out, the rest in their order. */
  ghost predicate IsSubsequence<T>(sub: seq<T>, s: seq<T>)
    decreases |s|
  {
    if sub == [] then true
    else if s == [] then false
    else (sub[0] == s[0] && IsSubsequence(sub[1..], s[1..])) || IsSubsequence(sub, s[1..])
  }
}
