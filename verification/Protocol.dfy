/** The enumerations of protocols/protocol.proto and the buffer view shared by both codecs. */
module Protocol {
  import opened Bytes

  datatype ConnType = Short | Single | Pool

  datatype RpcStatus = RpcOk | InvalidPath

  /** `ParseProtocolStatus`, plus the two ways in which a C++ call does not return at all:
      `Threw` is an exception out of `std::stoi`, `Wild` an access outside the buffer storage. */
  datatype Status = Success | Error | NoEnoughData | TryAnotherProtocol | PartSuccess | Threw | Wild

  /** `BufferView`: absolute indices into the storage of the connection's read buffer.  The view
      of a default-constructed `BufferView` is empty. */
  datatype View = View(begin: int, end: int) {
    predicate In(s: Bytes) { 0 <= begin <= end <= |s| }

    /** `BufferView::str` */
    function Str(s: Bytes): Bytes
      requires In(s)
    {
      s[begin..end]
    }
  }

  const NO_VIEW := View(0, 0)
}
