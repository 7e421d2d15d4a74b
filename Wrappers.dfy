// Shared result types for the model: the C++ code reports failures by
// throwing standard exceptions (or by exiting the program), the model returns
// them as values.
module Wrappers {

  /** The kind of failure a C++ routine raises. */
  datatype Exception =
    | InvalidArgument   // std::invalid_argument
    | OutOfRange        // std::out_of_range (a logic_error subclass)
    | LogicError        // std::logic_error
    | RuntimeError      // std::runtime_error
    | ProgramExit       // Chi::Exit, exit(EXIT_FAILURE) or std::terminate: the program stops

  datatype Result<T> = Success(value: T) | Failure(error: Exception)
  {
    predicate IsFailure() { Failure? }

    function PropagateFailure<U>(): Result<U>
      requires Failure?
    {
      Failure(error)
    }

    function Extract(): T
      requires Success?
    {
      value
    }
  }

  datatype Option<T> = None | Some(value: T)
}
