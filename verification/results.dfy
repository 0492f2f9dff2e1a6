/** Option and Result values shared by the layer catalog and the grid sampler.
    A Python call that raises is modelled as a `Failure` carrying what went wrong. */
module Results {

  datatype Option<+T> = None | Some(value: T)

  datatype Result<+T, +E> = Success(value: T) | Failure(error: E)
}
