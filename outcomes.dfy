/** The three-way outcome of a check and the messages it carries
    (src/types/general.ts). */
module Outcomes {

  /** A positional argument of a message template. */
  datatype Arg =
    | ArgStr(s: string)
    | ArgNum(n: real)
    | ArgBool(b: bool)
    | ArgStrs(list: seq<string>)   // a list the source joins with ", "
    | ArgNums(nums: seq<real>)     // a list the source joins with ", "

  /** A message: the dotted path of its template in the active catalog and
      the values substituted for `{0}`, `{1}`, ...  A `Heading` is the group
      header the array and object checks frame as "-- template --". */
  datatype Msg =
    | Msg(key: string, args: seq<Arg>)
    | Heading(key: string, args: seq<Arg>)

  /** Success, a recoverable Error, or a Fail that stops the pipeline. */
  datatype Outcome<M> = Success | Error(errors: seq<M>) | Fail(errors: seq<M>)
}
