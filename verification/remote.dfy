/**
  The provider as the service sees it once the transport and the JSON
  library are abstracted away: each request's outcome is given.
*/
module Remote {
  import opened Outcomes
  import opened Endpoints

  /** A parsed code-to-name listing: its (code, name) entries in the order the parsed object yields them. */
  type Entries = seq<(string, string)>

  /** One listing request (province, city or county list): its entries, or the exception fetching or parsing raised. */
  datatype Listing = Listed(entries: Entries) | Unavailable(cause: Error)

  /** The `temp` field of a weather reply: its value truncated to an integer, or the exception converting it raised. */
  datatype Reading = Degrees(value: int) | Malformed(cause: Error)

  /** One weather request: the exception fetching or parsing raised, or the parsed reply with its optional `weatherinfo` object. */
  datatype Reply = Failed(cause: Error) | Received(weatherinfo: Option<Reading>)

  /**
    The answer to every listing request, and to every weather request on
    each attempt (attempts are numbered from 0 within one lookup).
  */
  datatype Network = Network(listing: Request -> Listing, weather: (Request, nat) -> Reply)
}
