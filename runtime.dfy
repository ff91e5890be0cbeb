/**
 * Stand-ins for the .NET runtime pieces the navigation core relies on: the exceptions it
 * raises or lets through, the state of a Task, a TaskCompletionSource, and a storage cell
 * for a by-`ref` argument.
 */
module Runtime {
  import opened Wrappers

  /** The name of a .NET type (a view type or a view-model type). */
  type TypeName = string

  /** The exceptions the core raises or lets through. */
  datatype Exception =
    | KeyNotFound                      // Dictionary indexer on a key that is not there
    | DuplicateKey                     // Dictionary.Add on a key that is already there (ArgumentException)
    | InvalidOperation(message: string)
    | NotImplemented
    | ArgumentNull(paramName: string)
    | NullReference
    | Raised(code: nat)                // thrown by code outside the core (an activator, an awaited task)

  /**
   * What a Task has come to when it is awaited: not finished (the await never resumes),
   * finished with a result, or faulted with an exception.
   */
  datatype TaskState<T> = Pending | RanToCompletion(result: T) | Faulted(exception: Exception)

  /** A storage location passed by `ref`. */
  class Ref<T> {
    var value: T

    constructor (v: T)
      ensures value == v
    {
      value := v;
    }
  }

  /** The producer side of one Task: it can be completed once, and stays as it was completed. */
  class TaskCompletionSource<T> {
    var task: TaskState<T>

    constructor ()
      ensures task == Pending
    {
      task := Pending;
    }

    /** Completes the task with `v` unless it is already finished; says whether it did. */
    method TrySetResult(v: T) returns (accepted: bool)
      modifies this
      ensures accepted <==> old(task).Pending?
      ensures task == if old(task).Pending? then RanToCompletion(v) else old(task)
    {
      accepted := task.Pending?;
      if accepted {
        task := RanToCompletion(v);
      }
    }
  }
}
