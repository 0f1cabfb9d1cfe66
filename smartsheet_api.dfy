/**
 * The construction checks of SmartsheetAPI (src/apis/smartsheet-api.ts). Its request
 * loop, query building and error shaping are the same as the direct client's and are
 * modelled once, in module HttpClient.
 */
module SmartsheetApi {
  import opened JsValues

  datatype Client = Client(baseUrl: string, accessToken: string)

  const MissingKeyMessage: string := "SMARTSHEET_API_KEY environment variable is not set"
  const MissingEndpointMessage: string := "SMARTSHEET_ENDPOINT environment variable is not set"

  /**
   * The constructor: an absent token or base URL counts as empty; an empty token is
   * refused first, then an empty base URL.
   */
  function NewClient(accessToken: Option<string>, baseUrl: Option<string>): (r: Result<Client, string>)
    ensures r.Success? <==> accessToken.Some? && accessToken.value != "" && baseUrl.Some? && baseUrl.value != ""
    ensures r.Success? ==> r.value == Client(baseUrl.value, accessToken.value)
    ensures (accessToken.None? || accessToken.value == "") ==> r == Failure(MissingKeyMessage)
    ensures accessToken.Some? && accessToken.value != "" && (baseUrl.None? || baseUrl.value == "") ==>
              r == Failure(MissingEndpointMessage)
  {
    var token := if accessToken.Some? then accessToken.value else "";
    var base := if baseUrl.Some? then baseUrl.value else "";
    if token == "" then Failure(MissingKeyMessage)
    else if base == "" then Failure(MissingEndpointMessage)
    else Success(Client(base, token))
  }
}
