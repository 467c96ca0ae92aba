/** Small result-carrying datatypes shared by every module of the model. */
module Basics {

  /** A value that may be absent (a JavaScript `undefined`/`null` field). */
  datatype Option<+T> = None | Some(value: T) {
    function GetOr(default: T): T {
      match this
      case Some(v) => v
      case None => default
    }
  }

  /** The outcome of an operation that either produces a value or reports why it could not. */
  datatype Result<+T, +E> = Ok(value: T) | Err(error: E)

  /** The answer of one call into the persistence layer: the data it returned, or
      the fact that it threw (connection lost, query rejected, ...). */
  datatype Fetch<+T> = Fetched(value: T) | Unavailable

  /** A document identifier (`_id`); only compared for equality. */
  type Id = nat

  /** An identifier not yet used by any document in `ids`, as the driver's
      ObjectId generator guarantees for a newly inserted document. */
  function FreshId(ids: seq<Id>): (r: Id)
    ensures forall k :: 0 <= k < |ids| ==> ids[k] < r
    ensures r !in ids
    decreases |ids|
  {
    if |ids| == 0 then 0
    else
      var rest := FreshId(ids[..|ids| - 1]);
      if rest > ids[|ids| - 1] then rest else ids[|ids| - 1] + 1
  }
}
