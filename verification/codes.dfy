/** Request, response and error codes of SPDM (wolfspdm/spdm_types.h), and the eight-byte vendor command codes. */
module Codes {
  import opened Bytes

  const GET_CERTIFICATE: byte := 0x82
  const CHALLENGE: byte := 0x83
  const GET_VERSION: byte := 0x84
  const CHUNK_SEND: byte := 0x85
  const CHUNK_GET: byte := 0x86
  const GET_MEASUREMENTS: byte := 0xE0
  const GET_CAPABILITIES: byte := 0xE1
  const NEGOTIATE_ALGORITHMS: byte := 0xE3
  const KEY_EXCHANGE: byte := 0xE4
  const FINISH: byte := 0xE5
  const PSK_EXCHANGE: byte := 0xE6
  const PSK_FINISH: byte := 0xE7
  const KEY_UPDATE: byte := 0xE9
  const END_SESSION: byte := 0xEC
  const VENDOR_DEFINED_REQUEST: byte := 0xFE

  const CERTIFICATE: byte := 0x02
  const CHALLENGE_AUTH: byte := 0x03
  const VERSION_RSP: byte := 0x04
  const CHUNK_SEND_ACK: byte := 0x05
  const CHUNK_RESPONSE: byte := 0x06
  const MEASUREMENTS: byte := 0x60
  const CAPABILITIES_RSP: byte := 0x61
  const ALGORITHMS_RSP: byte := 0x63
  const KEY_EXCHANGE_RSP: byte := 0x64
  const FINISH_RSP: byte := 0x65
  const PSK_EXCHANGE_RSP: byte := 0x66
  const PSK_FINISH_RSP: byte := 0x67
  const KEY_UPDATE_ACK: byte := 0x69
  const END_SESSION_ACK: byte := 0x6C
  const VENDOR_DEFINED_RSP: byte := 0x7E
  const SPDM_ERROR: byte := 0x7F

  const ERROR_UNEXPECTED_REQUEST: byte := 0x04
  const ERROR_UNSUPPORTED_REQUEST: byte := 0x07
  const ERROR_LARGE_RESPONSE: byte := 0x0F
  const ERROR_MAJOR_VERSION_MISMATCH: byte := 0x41

  // ----- Vendor commands (wolfspdm/spdm_tcg.h) -----

  function Tpm2CmdCode(): bytes { Ascii("TPM2_CMD") }
  function GetPubkCode(): bytes { Ascii("GET_PUBK") }
  function GivePubCode(): bytes { Ascii("GIVE_PUB") }
  function GetStsCode(): bytes { Ascii("GET_STS_") }
  function SpdmOnlyCode(): bytes { Ascii("SPDMONLY") }
  function PskSetCode(): bytes { Ascii("PSK_SET_") }
  function PskClrCode(): bytes { Ascii("PSK_CLR_") }

  /** The codes that the responder tells apart: the one it accepts under handshake keys, and the two for the PSK store. */
  lemma CodesDiffer()
    ensures GivePubCode() != Tpm2CmdCode() && GivePubCode() != GetPubkCode() && GivePubCode() != SpdmOnlyCode()
    ensures PskSetCode() != PskClrCode()
  {
    assert GivePubCode()[0] != Tpm2CmdCode()[0] && GivePubCode()[1] != GetPubkCode()[1] && GivePubCode()[0] != SpdmOnlyCode()[0];
    assert PskSetCode()[4] != PskClrCode()[4];
  }
}
