/** One background job: a worker that drives its generator, publishers and late subscribers
    sharing a bounded replay buffer, cancellers, and the durable outcome written when the job
    ends (api/jobs.py, api/durable.py). */
module Jobs {

  import opened Digests

  datatype Progress = Progress(bytesDone: int, text: string)

  /** What a subscriber's queue holds; `None` is the end marker. */
  type Item = Option<Progress>

  datatype JobState = Pending | Running | Complete | Failed | Cancelled

  datatype ErrorInfo = ErrorInfo(message: string, kind: string, remediation: string)

  predicate Terminal(s: JobState)
  {
    s == Complete || s == Failed || s == Cancelled
  }

  // --------------------------------------------------------------- replay buffer

  /** The newest `max` records. */
  function Newest(records: seq<Progress>, max: nat): seq<Progress>
  {
    if |records| > max then records[|records| - max..] else records
  }

  function Missing(count: nat, max: nat): nat
  {
    if count > max then count - max else 0
  }

  function PutAll(queues: map<nat, seq<Item>>, to: set<nat>, item: Item): map<nat, seq<Item>>
  {
    map n | n in queues :: if n in to then queues[n] + [item] else queues[n]
  }
}
