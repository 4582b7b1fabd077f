/** The contents of files. */
module Octets {
  type Bytes = seq<bv8>
}
