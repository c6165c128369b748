/** A reliable byte stream as one end sees it: bytes still to read and bytes written so far. */
module Streams {
  import opened Common

  class Stream {
    var input: seq<byte>
    var output: seq<byte>

    constructor (input: seq<byte>)
      ensures this.input == input && output == []
    {
      this.input, output := input, [];
    }

    /** `read_exact`; `None` while, or because, the peer has not sent enough. */
    method ReadExact(n: nat) returns (r: Option<seq<byte>>)
      modifies this`input
      ensures n <= |old(input)| ==> r == Some(old(input)[..n]) && input == old(input)[n..]
      ensures n > |old(input)| ==> r.None? && input == old(input)
    {
      if n <= |input| {
        r := Some(input[..n]);
        input := input[n..];
      } else {
        r := None;
      }
    }

    /** `write_all`. */
    method WriteAll(bytes: seq<byte>)
      modifies this`output
      ensures output == old(output) + bytes
    {
      output := output + bytes;
    }
  }
}
