/** Opcodes and error codes of the attribute protocol, and the size of the receive buffer. */
module AttCodes {

  const ATT_OP_ERROR: nat := 0x01
  const ATT_OP_MTU_REQ: nat := 0x02
  const ATT_OP_MTU_RESP: nat := 0x03
  const ATT_OP_FIND_INFO_REQ: nat := 0x04
  const ATT_OP_FIND_INFO_RESP: nat := 0x05
  const ATT_OP_FIND_BY_TYPE_REQ: nat := 0x06
  const ATT_OP_FIND_BY_TYPE_RESP: nat := 0x07
  const ATT_OP_READ_BY_TYPE_REQ: nat := 0x08
  const ATT_OP_READ_BY_TYPE_RESP: nat := 0x09
  const ATT_OP_READ_REQ: nat := 0x0A
  const ATT_OP_READ_RESP: nat := 0x0B
  const ATT_OP_READ_BLOB_REQ: nat := 0x0C
  const ATT_OP_READ_BLOB_RESP: nat := 0x0D
  const ATT_OP_READ_MULTI_REQ: nat := 0x0E
  const ATT_OP_READ_MULTI_RESP: nat := 0x0F
  const ATT_OP_READ_BY_GROUP_REQ: nat := 0x10
  const ATT_OP_READ_BY_GROUP_RESP: nat := 0x11
  const ATT_OP_WRITE_REQ: nat := 0x12
  const ATT_OP_WRITE_RESP: nat := 0x13
  const ATT_OP_PREP_WRITE_REQ: nat := 0x16
  const ATT_OP_PREP_WRITE_RESP: nat := 0x17
  const ATT_OP_EXEC_WRITE_REQ: nat := 0x18
  const ATT_OP_EXEC_WRITE_RESP: nat := 0x19
  const ATT_OP_HANDLE_IND: nat := 0x1D
  const ATT_OP_HANDLE_CNF: nat := 0x1E

  /** received_data reads at most this many bytes of a PDU. */
  const RX_BUFFER: nat := 512

  const ATT_ECODE_ATTR_NOT_FOUND: nat := 0x0A
  const ATT_ECODE_IO: nat := 0x80
  const ATT_ECODE_TIMEOUT: nat := 0x81
  const ATT_ECODE_ABORTED: nat := 0x82
}
