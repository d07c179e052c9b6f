/**
 * The load effect of a store provider: read the store's local-storage key once
 * at start-up and, when it holds non-empty text, replace the (empty) initial
 * collection with the parsed text. Local storage and JSON are outside the model:
 * the stored text is a parameter and `JSON.parse` an abstract function whose
 * `None` stands for the exception it throws on malformed text.
 */
module Persistence {
  import opened Wrappers

  /** The source does not catch `JSON.parse`'s exception, so a corrupt blob aborts the load. */
  datatype LoadError = ParseThrows

  function Hydrate<T>(stored: Option<string>, parse: string -> Option<seq<T>>): (r: Result<seq<T>, LoadError>)
    ensures (stored.None? || stored == Some("")) ==> r == Ok([])
    ensures r.Err? <==> stored.Some? && stored.value != "" && parse(stored.value).None?
    ensures stored.Some? && stored.value != "" && parse(stored.value).Some? ==> r == Ok(parse(stored.value).value)
  {
    match stored
    case None => Ok([])
    case Some(text) =>
      if text == "" then Ok([])
      else match parse(text)
        case Some(items) => Ok(items)
        case None => Err(ParseThrows)
  }

  /**
   * What the save effect wrote is loaded back unchanged, given that parsing
   * inverts serialising (and `JSON.stringify` of an array is never empty).
   */
  lemma SaveThenHydrate<T>(items: seq<T>, serialize: seq<T> -> string, parse: string -> Option<seq<T>>)
    requires serialize(items) != "" && parse(serialize(items)) == Some(items)
    ensures Hydrate(Some(serialize(items)), parse) == Ok(items)
  {
  }
}
