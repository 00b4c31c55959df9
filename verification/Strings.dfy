/** Text shared by the parsers. */
module Strings {
  function Prefix<T>(s: seq<T>, n: nat): (r: seq<T>) { if |s| <= n then s else s[..n] }

  function JoinFields(fields: seq<string>): (s: string) {
    if fields == [] then "" else if |fields| == 1 then fields[0] else fields[0] + "," + JoinFields(fields[1..])
  }
}
