/** How operations end: normally, or with the exception they throw. */
module Errors {
  datatype Error =
    | RelocError | RangeError | SequenceError | SectionError | RuntimeError | AccessError | ImplausibleState
    | ArgsError | HeaderError
    | OutOfRange   // std::out_of_range from the buffer map
    | OutOfMemory  // std::length_error or std::bad_alloc from a vector
    | Undefined    // the C++ reads or writes outside an object, or shifts by 64 or more

  datatype Status = Ok | Err(error: Error)
}
