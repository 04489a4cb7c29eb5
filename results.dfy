/** Option and Result values for the operations that in the original throw. */
module Results {

  datatype Option<+T> = None | Some(value: T)

  datatype Result<+R, +E> = Success(value: R) | Failure(error: E) {

    /** The error carried by a failure, if any. */
    function ErrorOrNone(): (r: Option<E>)
      ensures r.Some? <==> Failure?
      ensures Failure? ==> r == Some(error)
    {
      match this
      case Success(_) => None
      case Failure(e) => Some(e)
    }
  }
}
