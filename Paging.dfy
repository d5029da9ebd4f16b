/** The `Pagination<T>` record the list endpoints return and the components keep. */
module Paging {
  datatype Pagination<T> = Pagination(items: seq<T>, total: int, page: int, limit: int, totalPages: int)
}
