/** The paging request: a page size and a 1-based page number, both C# `int`. */
module PagingDetails {

  /** A C# `int`: a 32-bit two's-complement integer. */
  newtype Int32 = x: int | -0x8000_0000 <= x < 0x8000_0000

  /** A request for page `pageNumber` (counted from 1) of `pageSize` items.
      Any pair of values is a PagingDetail: rejecting bad ones is left to the
      repository. */
  datatype PagingDetail = PagingDetail(pageSize: Int32, pageNumber: Int32)

  /** The constructor: stores both arguments as given, accepting every value
      (zero and negatives included). */
  function NewPagingDetail(pageSize: Int32, pageNumber: Int32): (p: PagingDetail)
    ensures p.pageSize == pageSize && p.pageNumber == pageNumber
  {
    PagingDetail(pageSize, pageNumber)
  }

  /** The PageSize setter: the page number is left as it was. */
  function SetPageSize(p: PagingDetail, pageSize: Int32): (r: PagingDetail)
    ensures r.pageSize == pageSize && r.pageNumber == p.pageNumber
  {
    p.(pageSize := pageSize)
  }

  /** The PageNumber setter: the page size is left as it was. */
  function SetPageNumber(p: PagingDetail, pageNumber: Int32): (r: PagingDetail)
    ensures r.pageNumber == pageNumber && r.pageSize == p.pageSize
  {
    p.(pageNumber := pageNumber)
  }
}
