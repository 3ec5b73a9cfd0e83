/** The write end of a remote process's standard input (an io.WriteCloser in
    client.go), modelled as the bytes written to it so far. */
module Pipes {

  newtype byte = b: int | 0 <= b < 0x100

  /** Control byte asking the remote command to stop (client.go:15). */
  const CTRL_C_CODE: byte := 0x03

  /** End-of-input marker sent after the command's input (client.go:16). */
  const EOF_CODE: byte := 0x04

  /** `n` copies of byte `b`. */
  function Repeat(b: byte, n: nat): (r: seq<byte>)
    ensures |r| == n
    ensures forall i :: 0 <= i < n ==> r[i] == b
  {
    if n == 0 then [] else Repeat(b, n - 1) + [b]
  }

  class Pipe {
    /** Everything written to this pipe, in order. */
    var written: seq<byte>

    constructor ()
      ensures written == []
    {
      written := [];
    }

    method Write(data: seq<byte>)
      modifies this
      ensures written == old(written) + data
    {
      written := written + data;
    }
  }

  /** The initial input delivery of client.go:135-138: the caller's input
      bytes, then one end-of-input marker. */
  method DeliverStdin(pipe: Pipe, cmdStdin: seq<byte>)
    modifies pipe
    ensures pipe.written == old(pipe.written) + cmdStdin + [EOF_CODE]
  {
    pipe.Write(cmdStdin);
    pipe.Write([EOF_CODE]);
  }
}
