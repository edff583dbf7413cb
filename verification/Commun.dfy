/** What every module shares. */
module Commun {

  datatype Option<+T> = None | Some(value: T)

  /** SQL's GREATEST(a, b). */
  function Max(a: real, b: real): real { if a < b then b else a }

  function Min(a: real, b: real): real { if a < b then a else b }

  predicate Blanc(c: char) { c in {' ', '\t', '\n', '\r'} }

  /** String.trim, over the ASCII blanks. */
  function Rogner(s: string): string {
    if s == "" then s
    else if Blanc(s[0]) then Rogner(s[1..])
    else if Blanc(s[|s| - 1]) then Rogner(s[..|s| - 1])
    else s
  }
}
