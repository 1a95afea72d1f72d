/** Outcomes of operations that the JavaScript runtime can make throw. */
module Results {

  datatype Option<T> = None | Some(value: T)

  /** The exceptions the modelled built-ins raise: `btoa` on a character above U+00FF
      (`InvalidCharacterError`), `encodeURIComponent` on a lone surrogate (`URIError`). */
  datatype Failure = InvalidCharacterError | UriError

  datatype Result<T> = Ok(value: T) | Throw(failure: Failure)
}
