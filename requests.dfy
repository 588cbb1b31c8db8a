/** `TrailerRequest` (core/model/TrailerRequest.kt). */
module Requests {
  import opened Wrappers
  import opened Text

  /** An immutable request; the optional fields are `null` when absent. */
  datatype TrailerRequest = TrailerRequest(
    movieTitle: string,
    year: Option<string>,
    director: Option<string>,
    genre: Option<string>)

  /** The `init` check: the title is not blank. */
  predicate Valid(r: TrailerRequest) {
    !IsBlank(r.movieTitle)
  }

  /**
   * The data-class constructor with its defaults. A blank title is rejected with
   * the `require` message; otherwise every field is stored exactly as given.
   */
  function NewTrailerRequest(
    movieTitle: string,
    year: Option<string> := None,
    director: Option<string> := None,
    genre: Option<string> := None): (r: Result<TrailerRequest, string>)
    ensures r.Ok? <==> !IsBlank(movieTitle)
    ensures r.Ok? ==> r.value == TrailerRequest(movieTitle, year, director, genre) && Valid(r.value)
    ensures r.Rejected? ==> r.error == "Movie Title cannot be blank"
  {
    if IsBlank(movieTitle) then Rejected("Movie Title cannot be blank")
    else Ok(TrailerRequest(movieTitle, year, director, genre))
  }

  /** The two construction cases the tests exercise, and the defaults. */
  lemma RequestScenarios()
    ensures NewTrailerRequest("Inception", Some("2010"), Some("Christopher Nolan"))
         == Ok(TrailerRequest("Inception", Some("2010"), Some("Christopher Nolan"), None))
    ensures NewTrailerRequest("") == Rejected("Movie Title cannot be blank")
    ensures NewTrailerRequest("  Dune ") == Ok(TrailerRequest("  Dune ", None, None, None))
  {
    NotBlankAt("Inception", 0);
    NotBlankAt("  Dune ", 2);
  }
}
