/** The JSON responses of the blob handlers. */
module Http {
  import opened Wrappers

  datatype Body =
    | ErrorBody(error: string)        // `{ error }`
    | UrlBody(url: Option<string>)    // `{ url }`, `url` possibly `null`
    | NewUploadBody(uploaded: string) // `{ url, isNewUpload: true }`

  datatype Response = Response(status: nat, body: Body)

  const MethodNotAllowed := "Method not allowed"

  function NotAllowed(): Response {
    Response(405, ErrorBody(MethodNotAllowed))
  }
}
