/** Input streams. */
module Streams {
  import opened Wrappers

  /** A byte stream that can take back the last byte read. */
  class InputStream {
    const data: string
    var pos: nat

    constructor (data: string)
      ensures this.data == data && pos == 0
    {
      this.data, pos := data, 0;
    }

    ghost predicate Valid()
      reads this
    {
      pos <= |data|
    }

    ghost function Remaining(): string
      requires Valid()
      reads this
    {
      data[pos..]
    }

    method Get() returns (c: Option<char>)
      requires Valid()
      modifies this
      ensures Valid()
      ensures c == if old(Remaining()) == "" then None else Some(old(Remaining())[0])
      ensures Remaining() == if old(Remaining()) == "" then "" else old(Remaining())[1..]
      ensures c.Some? ==> pos == old(pos) + 1
    {
      if pos == |data| {
        return None;
      }
      c := Some(data[pos]);
      pos := pos + 1;
    }

    method Unget()
      requires Valid() && pos > 0
      modifies this
      ensures Valid() && Remaining() == [data[old(pos) - 1]] + old(Remaining())
    {
      pos := pos - 1;
    }
  }
}
