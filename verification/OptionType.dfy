/** The Some/None value used wherever the Go code uses a nil-able pointer or an "ok" flag. */
module OptionType {
  datatype Option<+T> = None | Some(value: T)
}
