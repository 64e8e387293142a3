/** What the two handlers hand back to Go's net/http: a status code, the
    headers the handler sets itself, and the body. */
module Http {

  datatype Option<+T> = None | Some(value: T)

  const StatusOK: nat := 200
  const StatusBadRequest: nat := 400
  const StatusMethodNotAllowed: nat := 405
  const StatusInternalServerError: nat := 500

  datatype Body =
    /** Plain text written to the response. */
    | Text(text: string)
    /** The CSV export: a byte-order mark, then the header record and one
        record per row, each a list of fields for Go's encoding/csv. */
    | Csv(bom: string, header: seq<string>, rows: seq<seq<string>>)

  datatype Response = Response(status: nat, headers: map<string, string>, body: Body)

  /** Go's http.Error(w, message, status), without the headers and the
      trailing newline the library adds. */
  function Error(status: nat, message: string): Response {
    Response(status, map[], Text(message))
  }
}
