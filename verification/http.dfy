/**
 * What a route handler receives from the data store and what it answers:
 * the `{ data, error }` pair of a query and the JSON body with its status.
 */
module Http {
  import opened Wrappers

  /**
   * The result of awaiting a query: its `data` (possibly `null`), its
   * `error`, or an exception thrown while awaiting it.
   */
  datatype Outcome<T> = Rows(data: Option<seq<T>>) | QueryError(message: string) | Thrown

  /**
   * A handler's answer: `{ data, count }` with status 200, or `{ error }`
   * with a non-200 status.
   */
  datatype Response<T> = Json(data: Option<seq<T>>, count: nat) | ErrorJson(status: nat, message: string)

  const InternalServerError: string := "Internal server error"

  /** `{ data, count: data?.length || 0 }`. */
  function Envelope<T>(data: Option<seq<T>>): (r: Response<T>)
    ensures r.Json? && r.data == data
    ensures data.None? ==> r.count == 0
    ensures data.Some? ==> r.count == |data.value|
  {
    Json(data, if data.Some? then |data.value| else 0)
  }
}
