/** The 32-bit immediate data of an RDMA write: 4-bit segment count, 18-bit comm id, 10-bit sequence number. */
module Wire {
  import opened Arithmetic

  const SEQ_SPAN: nat := 1024
  const COMM_SPAN: nat := 262144
  const SEG_SPAN: nat := 16

  /** GET_RDMA_WRITE_IMM_DATA: the fields do not overlap, so or-ing the shifted fields adds them. */
  function Imm(comm: nat, seqNum: nat, segs: nat): nat
  {
    seqNum + comm * SEQ_SPAN + segs * (SEQ_SPAN * COMM_SPAN)
  }

  function ImmSeq(imm: nat): nat { imm % SEQ_SPAN }

  function ImmComm(imm: nat): nat { imm / SEQ_SPAN % COMM_SPAN }

  function ImmSegs(imm: nat): nat { imm / (SEQ_SPAN * COMM_SPAN) % SEG_SPAN }

  /** Packing and unpacking is a round trip for every field value that fits, and the result fits in 32 bits. */
  lemma {:induction false} ImmRoundTrip(comm: nat, seqNum: nat, segs: nat)
    requires comm < COMM_SPAN && seqNum < SEQ_SPAN && segs < SEG_SPAN
    ensures var imm := Imm(comm, seqNum, segs);
            && imm < 0x1_0000_0000
            && ImmSeq(imm) == seqNum && ImmComm(imm) == comm && ImmSegs(imm) == segs
  {
    var imm := Imm(comm, seqNum, segs);
    DivModUnique(imm, comm + segs * COMM_SPAN, seqNum, SEQ_SPAN);
    DivModUnique(comm + segs * COMM_SPAN, segs, comm, COMM_SPAN);
    DivModUnique(imm, segs, seqNum + comm * SEQ_SPAN, SEQ_SPAN * COMM_SPAN);
    ModSmall(segs, SEG_SPAN);
  }

  /**
   A segment count that does not fit is not what the receiver reads back: the packing is faithful on
   the segment field if and only if the count is below 16.
   */
  lemma {:induction false} ImmSegsIff(comm: nat, seqNum: nat, segs: nat)
    requires comm < COMM_SPAN && seqNum < SEQ_SPAN
    ensures ImmSegs(Imm(comm, seqNum, segs)) == segs <==> segs < SEG_SPAN
  {
    if segs < SEG_SPAN {
      ImmRoundTrip(comm, seqNum, segs);
    }
  }
}
