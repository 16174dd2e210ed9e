/**
 * Keyword arguments and query parameters as the scripts build them: a dictionary from names to
 * plain values.
 */
module Params {
  datatype ParamValue = Text(text: string) | Number(number: int) | Flag(flag: bool) | Names(names: seq<string>)

  type ParamMap = map<string, ParamValue>
}
