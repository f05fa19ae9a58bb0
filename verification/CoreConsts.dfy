/** The protocol constants of src/core_consts.rs and src/crypto.rs, and the limit of src/outgoing_downloader.rs. */
module CoreConsts {
  import opened Common

  const MSG_FILE_LIST: u16 := 1
  const MSG_FILE_LIST_PIECE: u16 := 2
  const MSG_FILE_LIST_FINAL: u16 := 3
  const MSG_FILE_CHUNK: u16 := 4
  const MSG_FILE_FINISHED: u16 := 5
  const MSG_FILE_INVALID_FILE: u16 := 6
  const MSG_CANNOT_SELECT_DIRECTORY: u16 := 7
  const MSG_FILE_SELECTION_CONTINUE: u16 := 8
  const MSG_REVERSE: u16 := 9
  const MSG_REVERSE_NO_LIST: u16 := 10

  const MSG_TYPE_SIZE := 2
  const PAYLOAD_SIZE_LEN := 4
  const CRC_SIZE := 4
  const MAX_DATA_SIZE := 100_000
  const CRYPTO_EXTENSION_SIZE := 16
  const PAYLOAD_OFFSET := MSG_TYPE_SIZE + PAYLOAD_SIZE_LEN
  const TOTAL_BUFFER_SIZE := MSG_TYPE_SIZE + PAYLOAD_SIZE_LEN + MAX_DATA_SIZE + CRC_SIZE
  const TOTAL_CRYPTO_BUFFER_SIZE := TOTAL_BUFFER_SIZE + CRYPTO_EXTENSION_SIZE

  const MAX_EVERYTHING_FILE_SIZE: nat := 100_000_000

  const NONCE_INIT: nat := 0
  const NONCE_MAX: nat := 79_228_162_514_264_337_593_543_950_335

  /** CRC_MESSAGES. FINISHED frames carry file bytes but no checksum. */
  predicate IsCrcPayload(msg: u16) {
    msg == MSG_FILE_LIST_PIECE || msg == MSG_FILE_LIST_FINAL
    || msg == MSG_FILE_CHUNK || msg == MSG_FILE_SELECTION_CONTINUE
  }
}
