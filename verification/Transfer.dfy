/** One file transfer: the chunks the file was cut into, and the packets that carry them. */
module Transfer {
  import opened Checksum
  import opened Pdu
  import opened Segmentation

  datatype Job = Job(chunks: seq<seq<byte>>, bufSize: nat) {

    /** Packets 1..Count() carry the file; packet Eof() ends it. */
    function Count(): nat { |chunks| }

    function Eof(): nat { |chunks| + 1 }

    predicate EndsShort() { Short(chunks, bufSize) }

    function Chunk(s: nat): seq<byte>
      requires 1 <= s <= Count()
    {
      chunks[s - 1]
    }

    /** Buffer sizes 1..1400, and few enough packets that sequence numbers do not wrap. */
    ghost predicate Wf() {
      && Segmented(chunks, bufSize)
      && bufSize <= MAX_PDU - HEADER_LEN
      && Eof() + 1 < U32_LIMIT
    }
  }

  predicate IsDataFlag(flag: byte) {
    flag == DATA || flag == SREJ_RETRAN || flag == DATA_TIMEOUT
  }

  /** A packet the server legitimately sends: data packet s carries chunk s under one of the
      three data flags, and the end of file comes last. */
  ghost predicate Genuine(job: Job, d: seq<byte>) {
    && HEADER_LEN <= |d| <= MAX_PDU
    && Verifies(d)
    && var s := SeqOf(d);
       || (1 <= s <= job.Count() && IsDataFlag(FlagOf(d)) && d[HEADER_LEN..] == job.Chunk(s))
       || (s == job.Eof() && FlagOf(d) == END_OF_FILE)
       || (s == 0 && FlagOf(d) == FNAME_OK)
  }

  /** A data packet's payload is full unless it is the last one and the file ends short. */
  lemma ChunkLength(job: Job, s: nat)
    requires job.Wf() && 1 <= s <= job.Count()
    ensures 1 <= |job.Chunk(s)| <= job.bufSize
    ensures |job.Chunk(s)| < job.bufSize <==> s == job.Count() && job.EndsShort()
  {
    assert |job.chunks[s - 1]| <= job.bufSize;
    if s < job.Count() { assert |job.chunks[s - 1]| == job.bufSize; }
  }
}
