/**
 * The crate-root records that the coherence code consumes: a data record
 * with its outgoing weighted relationships, and a temporal window. Only the
 * fields the coherence code reads are kept.
 */
module Framework {

  datatype Option<T> = None | Some(value: T)

  /** A weighted relationship to another record, by that record's id */
  datatype Relationship = Relationship(targetId: string, weight: real)

  /** A timestamped record (timestamps in whole seconds) */
  datatype DataRecord = DataRecord(id: string, timestamp: int, relationships: seq<Relationship>)

  /** A time range with a sequence number; `end` is exclusive */
  datatype TemporalWindow = TemporalWindow(start: int, end: int, windowId: nat)
  {
    /** Membership of a timestamp: the half-open range [start, end) */
    predicate Contains(t: int)
    {
      start <= t < end
    }
  }
}
