/** The one optional type of the model: the source's `std::optional` and its null pointers. */
module Options {
  datatype Option<+T> = None | Some(value: T)
}
