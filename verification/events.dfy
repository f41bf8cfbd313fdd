/** The payload of a change notification, raised after every successful
    write through a matrix indexer. */
module ChangeEvents {

  /** Position written (as the writing indexer saw it), the value it held
      before and the value written. */
  datatype ChangeEvent = ChangeEvent(i: int, j: int, oldValue: int, newValue: int)
}
