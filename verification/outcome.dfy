/** Failure-carrying results shared by the visualisation model. */
module Outcome {

  datatype Option<T> = None | Some(value: T)

  /** The ways the modelled operations fail. Each one stands for an exception the
      original code lets propagate to its caller. */
  datatype Error =
    | ShapeMismatch     // torch refuses to copy a slice of one length into a slice of another
    | IndexOutOfRange   // a tensor row index past the end of the tensor
    | EmptyLog          // the KL log holds no record, so there is no last record
    | AmbiguousTie      // two equal KL keys make the sort compare two tensors

  datatype Result<T> = Ok(value: T) | Err(error: Error)
}
