/** What a handler writes back: a status code and one of the bodies the handlers produce. */
module Http {
  import opened Models

  const StatusOK: nat := 200
  const StatusCreated: nat := 201
  const StatusNoContent: nat := 204
  const StatusBadRequest: nat := 400
  const StatusUnauthorized: nat := 401
  const StatusNotFound: nat := 404
  const StatusInternalServerError: nat := 500

  datatype Payload =
    | NoBody
      /** http.Error's plain-text message */
    | Text(message: string)
      /** a JSON object with one string member, such as {"token": ...} */
    | Field(key: string, value: string)
    | OneContact(contact: Contact)
      /** the listing object {contacts, total, page, pageSize} */
    | ContactPage(contacts: seq<Contact>, total: nat, page: int, pageSize: int)

  datatype Response = Response(status: nat, payload: Payload)

  /** http.Error(w, message, status). */
  function Error(status: nat, message: string): Response
  {
    Response(status, Text(message))
  }
}
