/** Transport-independent Redis commands, replies and failures. */
module Resp {
  import opened Common

  /** A command name and its arguments in wire form. */
  datatype Command = Command(name: string, args: seq<Bytes>)

  /** A RESP2 reply.  Simple strings are UTF-8 text, held as its bytes. */
  datatype RespValue =
    | Simple(text: Bytes)
    | Bulk(data: Bytes)
    | Int(n: int)
    | Nil
    | Array(values: seq<RespValue>)

  datatype ExecError = Transport(message: string) | Timeout | Redis(message: string) | ResponseTooLarge

  /** Why no connection could be had from a pool. */
  datatype AcquireError = UnknownPool(pool: string) | PoolOverloaded | BreakerOpen(retryAfter: nat) | PoolFault(message: string)

  type ExecResult = Result<RespValue, ExecError>
}
