/**
 * Shared value wrappers: an optional value, and a result that is either a
 * value or the Python exception the source raises on that path.
 */
module Common {

  datatype Option<+T> = None | Some(value: T)

  /** The exception classes the modelled code raises or catches. */
  datatype PyError =
    | ValueError          // bad literal, unsupported extension, empty concatenation, `list.index` miss
    | ValidationError     // the project's own validation exception
    | KeyError            // missing dictionary key or DataFrame column
    | IndexError          // a worksheet slice with a bound of 0
    | AttributeError      // attribute access on None
    | EOFError            // `input()` after the end of standard input
    | RequestException    // any failure of an HTTP call

  datatype Result<+T> = Ok(value: T) | Err(error: PyError)

  /** Python truthiness of an optional string: None and "" are false. */
  predicate Truthy(s: Option<string>)
  {
    s.Some? && s.value != ""
  }

  /** Something is in a non-empty sequence when it is in all but the last element, or is the last. */
  lemma InInitOrLast<T>(s: seq<T>, x: T)
    requires s != []
    ensures x in s <==> x in s[..|s| - 1] || x == s[|s| - 1]
  {
    assert s == s[..|s| - 1] + [s[|s| - 1]];
  }
}
