/** What a poll followed by a receive yields, on either side. */
module Events {
  import opened Checksum
  import opened Pdu

  datatype Event = Timeout | Arrive(datagram: seq<byte>)

  /** Datagrams a socket buffer of 1407 bytes can hold, with room for the header. */
  predicate Sized(e: Event) {
    e.Arrive? ==> HEADER_LEN <= |e.datagram| <= MAX_PDU
  }

  ghost predicate AllSized(events: seq<Event>) {
    forall i :: 0 <= i < |events| ==> Sized(events[i])
  }
}
