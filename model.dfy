/**
 * Value types shared by the layers: the persisted record (domain.Category),
 * the request and response shapes of the web layer, and the JSON envelope
 * every HTTP body is wrapped in (web.WebResponse).
 */
module Model {
  import opened Wrappers

  /** One row of the `category` table. */
  datatype Category = Category(id: int, name: string)

  /** The zero value of a Go `domain.Category{}`. */
  const ZeroCategory := Category(0, "")

  datatype CategoryCreateRequest = CategoryCreateRequest(name: string)

  datatype CategoryUpdateRequest = CategoryUpdateRequest(id: int, name: string)

  datatype CategoryResponse = CategoryResponse(id: int, name: string)

  /**
   * What the `data` field of an envelope can hold. Only the gate's
   * rejection envelope (no data) is built here; the controller's success
   * envelopes that carry a payload are not part of this model.
   */
  datatype Payload = Single(category: CategoryResponse) | List(categories: seq<CategoryResponse>)

  /** The envelope `{code, status, data?}`; `data == None` is an envelope without data. */
  datatype WebResponse = WebResponse(code: int, status: string, data: Option<Payload>)
}
