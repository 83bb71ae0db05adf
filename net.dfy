/** What one `netconn_recv` on the backend connection yields, as far as the
    controller tells results apart. A recv script is read one entry per
    call; a script that has run out stands for a peer that closed the
    connection, so every further call fails. */
module Net {

  datatype Recv =
    | WouldBlock            // ERR_WOULDBLOCK: nothing there yet
    | RecvFailed            // any other error of netconn_recv
    | DataFailed            // recv succeeded, netbuf_data on the buffer failed
    | Chunk(data: string)   // one buffer of received bytes

  /** The result of the recv call with index `i`. */
  function RecvAt(rs: seq<Recv>, i: nat): Recv
  {
    if i < |rs| then rs[i] else RecvFailed
  }
}
