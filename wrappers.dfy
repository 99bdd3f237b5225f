/** Shared option type for lookups and partial results, integer helpers, and blanks. */
module Wrappers {

  datatype Option<+T> = None | Some(value: T)

  function Max(a: int, b: int): int { if a < b then b else a }

  function Min(a: int, b: int): int { if a < b then a else b }

  /** The whitespace characters `str.strip` and `str.split` treat as blanks, restricted to ASCII. */
  predicate IsSpace(c: char)
  {
    c == ' ' || c == '\t' || c == '\n' || c == '\r' || ('\U{000B}' <= c <= '\U{000C}')
    || ('\U{001C}' <= c <= '\U{001F}')
  }
}
