/**
 * The decisions of SmartsheetDirectAPI (src/smartsheet-direct-api.ts) outside its
 * request loop: which access token the client keeps, the query deleteRows sends and
 * the body copySheet sends. The request loop itself is module HttpClient.
 */
module DirectApi {
  import opened JsValues
  import opened HttpClient

  datatype DirectClient = DirectClient(baseUrl: string, accessToken: string)

  const DefaultBaseUrl: string := "https://api.smartsheet.com/2.0"
  const MissingKeyMessage: string := "SMARTSHEET_API_KEY environment variable is not set"

  /**
   * The constructor: the explicit token, else the SMARTSHEET_API_KEY environment value
   * (passed in as `envApiKey`), and an error when neither is a non-empty string. An
   * omitted base URL takes the default; an explicit one, even empty, is kept.
   */
  function NewDirectClient(accessToken: Option<string>, baseUrl: Option<string>, envApiKey: Option<string>)
    : (r: Result<DirectClient, string>)
    ensures r.Failure? <==> (accessToken.None? || accessToken.value == "") && (envApiKey.None? || envApiKey.value == "")
    ensures r.Failure? ==> r.error == MissingKeyMessage
    ensures r.Success? ==> r.value.accessToken != ""
    ensures r.Success? && accessToken.Some? && accessToken.value != "" ==> r.value.accessToken == accessToken.value
    ensures r.Success? && !(accessToken.Some? && accessToken.value != "") ==> r.value.accessToken == envApiKey.value
    ensures r.Success? ==> r.value.baseUrl == if baseUrl.None? then DefaultBaseUrl else baseUrl.value
  {
    var token :=
      if accessToken.Some? && accessToken.value != "" then accessToken.value
      else if envApiKey.Some? && envApiKey.value != "" then envApiKey.value
      else "";
    if token == "" then Failure(MissingKeyMessage)
    else Success(DirectClient(if baseUrl.None? then DefaultBaseUrl else baseUrl.value, token))
  }

  /** The query parameters of deleteRows: the ids joined by commas and the flag as text, true by default. */
  function DeleteRowsQuery(rowIds: seq<string>, ignoreRowsNotFound: Option<bool>): seq<(string, Option<Json>)>
  {
    [("ids", Some(JStr(Join(rowIds, ",")))),
     ("ignoreRowsNotFound", Some(JStr(if ignoreRowsNotFound == Some(false) then "false" else "true")))]
  }

  /**
   * What the service receives for deleteRows: both parameters, in order, and the ids
   * text splits back into the ids whenever there is at least one and none has a comma.
   */
  lemma DeleteRowsSent(rowIds: seq<string>, ignoreRowsNotFound: Option<bool>)
    requires |rowIds| >= 1 && forall i :: 0 <= i < |rowIds| ==> ',' !in rowIds[i]
    ensures QueryPairs(DeleteRowsQuery(rowIds, ignoreRowsNotFound)) ==
              [("ids", Join(rowIds, ",")), ("ignoreRowsNotFound", if ignoreRowsNotFound == Some(false) then "false" else "true")]
    ensures Split(QueryPairs(DeleteRowsQuery(rowIds, ignoreRowsNotFound))[0].1, ',') == rowIds
  {
    var q := DeleteRowsQuery(rowIds, ignoreRowsNotFound);
    QueryPairsAllDefined(q);
    SplitJoin(rowIds, ',');
  }

  /** Where copySheet puts the copy. */
  datatype Destination = ToFolder(folderId: string) | ToWorkspace(workspaceId: string) | ToHome

  /** A folder id wins over a workspace id; with neither the copy goes home. */
  function CopyDestination(folderId: Option<string>, workspaceId: Option<string>): (d: Destination)
    ensures d.ToFolder? <==> folderId.Some? && folderId.value != ""
    ensures d.ToFolder? ==> d.folderId == folderId.value
    ensures d.ToWorkspace? <==> !(folderId.Some? && folderId.value != "") && workspaceId.Some? && workspaceId.value != ""
    ensures d.ToWorkspace? ==> d.workspaceId == workspaceId.value
  {
    if folderId.Some? && folderId.value != "" then ToFolder(folderId.value)
    else if workspaceId.Some? && workspaceId.value != "" then ToWorkspace(workspaceId.value)
    else ToHome
  }
}
