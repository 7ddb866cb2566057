/** Service and request identifiers (src/lib.rs SrvId and ReqId): newtypes over a counter,
    starting at the default value 0 and advanced by `next`. */
module Ids {

  /** Identifies a registered service. */
  datatype SrvId = SrvId(index: nat) {

    /** Strict order of allocation. */
    predicate Before(other: SrvId) {
      index < other.index
    }

    /** The identifier handed out after this one: the least identifier strictly after it. */
    function Next(): (r: SrvId)
      ensures Before(r)
      ensures forall x: SrvId :: Before(x) ==> x == r || r.Before(x)
    {
      SrvId(index + 1)
    }
  }

  /** Identifies one in-flight request; drawn from its own counter. */
  datatype ReqId = ReqId(index: nat) {

    predicate Before(other: ReqId) {
      index < other.index
    }

    function Next(): (r: ReqId)
      ensures Before(r)
      ensures forall x: ReqId :: Before(x) ==> x == r || r.Before(x)
    {
      ReqId(index + 1)
    }
  }
}
