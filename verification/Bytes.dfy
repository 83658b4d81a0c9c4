module Bytes {
  type byte = x: int | 0 <= x < 256

  type Bytes = seq<byte>
}

module Options {
  datatype Option<+T> = None | Some(value: T) {
    function GetOr(default: T): T {
      if Some? then value else default
    }
  }
}
