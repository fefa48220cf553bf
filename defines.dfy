/** Compile-time constants of the transport (sctrltp_defines.h and
  * us_sctp_defs.h), for the default parameter set. */
module Defines {

  const MTU: nat := 1500
  const MIN_PACKET_SIZE: nat := 4
  const ETH_HEADER_SIZE: nat := 14
  const ARQ_HEADER_SIZE: nat := 8
  const TYPLEN_SIZE: nat := 4
  const MAX_WINSIZ: nat := 128
  const MAX_NRFRAMES: nat := 256
  const WIRESPEED: nat := 125
  const PDU_SIZE: nat := MTU - ETH_HEADER_SIZE - ARQ_HEADER_SIZE
  const WORD_SIZE: nat := 8
  const MAX_PDUWORDS: nat := 180

  const PTYPE_LOOPBACK: nat := 0x8001
  const PTYPE_CFG_TYPE: nat := 0x8002
  const PTYPE_DO_ARQRESET: nat := 0x5000
  const HW_HOSTARQ_MAGICWORD: nat := 0xABAB_ABAB

  /** Both retransmission-timeout bounds are the same expression. */
  const MIN_RTO: int := ((MAX_WINSIZ * PDU_SIZE) / WIRESPEED) / 2
  const MAX_RTO: int := MIN_RTO
  const DELAY_ACK: nat := 500
  const TO_RES: nat := 100
  const MAX_TRANS: nat := 10000

  /** Cache line size over pointer size on a 64-bit host. */
  const L1D_CLS: nat := 64
  const PTR_SIZE: nat := 8
  const PARALLEL_FRAMES: nat := L1D_CLS / PTR_SIZE
  const NUM_QUEUES: nat := 1

  const SC_INVAL: int := -1
  const SC_ABORT: int := -4
  const SC_NOMEM: int := -5
  const SC_FULL: int := -6
  const SC_EMPTY: int := -7
  const SC_CORRUPT: int := -10

  const SCTP_TXWIN: nat := 0
  const SCTP_RXWIN: nat := 1
}
