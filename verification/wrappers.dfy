/** Small shared vocabulary: an optional value and the byte strings that
    stand for the launcher's `std::string` values. */
module Wrappers {

  /** A value that may be missing: a clipboard with no text, a dialog closed
      without a pick, a slot with nothing ready. */
  datatype Option<+T> = None | Some(value: T)

  /** One element of a C++ `std::string`: a char whose code fits in eight bits. */
  type Byte = c: char | c as int < 256 witness '\0'

  /** A `std::string`, read as the sequence of its bytes. */
  type Bytes = seq<Byte>
}
