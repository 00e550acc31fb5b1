/** Vocabulary of the scaling-algorithm interface. */
module ScalingTypes {
  import opened Arithmetic

  datatype Kind = InvokeWorker | UpdateWorkerSetSize | DeferredScalingDecision | OtherKind(name: string)

  /** ScalingAction; the algorithms leave the group key empty and the activities fill it in. */
  datatype Action = Action(kind: Kind, count: Option<int>, key: string)

  const INVOKE := Action(InvokeWorker, None, "")
  const DEFER := Action(DeferredScalingDecision, None, "")

  function Resize(count: int): Action { Action(UpdateWorkerSetSize, Some(count), "") }

  /** The queue types that carry metrics, in the order the algorithms visit them. */
  datatype QueueType = WorkflowQueue | ActivityQueue | NexusQueue

  const QUEUE_TYPES: seq<QueueType> := [WorkflowQueue, ActivityQueue, NexusQueue]

  /** A float64 sample: IEEE infinities and NaN are one case. */
  datatype Rate = Finite(value: real) | NotFinite

  datatype QueueMetrics = QueueMetrics(backlog: int, arrivalRate: Rate, processingRate: Rate)

  /** ScalingMetricsSnapshot: a nil queue pointer is None. */
  datatype Snapshot = Snapshot(workflow: Option<QueueMetrics>, activity: Option<QueueMetrics>,
                               nexus: Option<QueueMetrics>)
  {
    function Of(q: QueueType): Option<QueueMetrics> {
      match q
      case WorkflowQueue => workflow
      case ActivityQueue => activity
      case NexusQueue => nexus
    }
  }
}
