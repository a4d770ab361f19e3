/** A value that may be absent, after `java.util.Optional`. */
module Optionals {

  datatype Optional<+T> = Empty | Of(value: T)
}
