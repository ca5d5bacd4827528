/** Vocabulary shared by the ROS wrappers: node statuses and the way a piece of user code ends. */
module Common {

  datatype Option<+T> = None | Some(value: T)

  /** Status of a behavior tree node. */
  datatype NodeStatus = Idle | Running | Success | Failure | Skipped {
    /** The status test the wrappers apply to the verdict of a user callback. */
    predicate Completed() {
      Success? || Failure?
    }
  }

  /**
    How a step of a wrapper ends: normally, with a C++ exception that reaches the caller, or by
    touching a null pointer or an invalid future, after which nothing is known.
   */
  datatype Signal = Fine | Threw | Faulted

  const NANOSECONDS_PER_MILLISECOND: int := 1_000_000

  function Min(a: int, b: int): int {
    if a < b then a else b
  }
}
