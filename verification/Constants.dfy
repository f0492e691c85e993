/** The constants of the PCBK backup format. */
module Constants {
  import opened Common

  const MAGIC: string := "PCBK"
  const FORMAT_VERSION: byte := 1
  const HEADER_VERSION: int := 1
  const RECORD_VERSION: int := 1
  const FLAGS: byte := 0

  const HEADER_AUTH_INFO: string := "PCBK/1/header-auth"
  const KEY_WRAP_INFO: string := "PCBK/1/key-wrap"
  const HKDF_ALGORITHM: string := "HKDF-SHA-256"
  const KDF_ALGORITHM: string := "argon2id"
  const KDF_VERSION: int := 19
  const KEY_WRAP_ALGORITHM: string := "AES-GCM-256"
  const RECORD_CIPHER_ALGORITHM: string := "AES-GCM-256"

  const SALT_BYTES: nat := 16
  const BACKUP_ID_BYTES: nat := 16
  const ROOT_KEY_BYTES: nat := 32
  const WRAP_IV_BYTES: nat := 12
  const RECORD_NONCE_PREFIX_BYTES: nat := 4
  const RECORD_NONCE_BYTES: nat := 12
  const HEADER_AUTH_TAG_BYTES: nat := 32
  const AES_GCM_TAG_BITS: nat := 128
  const HEADER_LENGTH_BYTES: nat := 4

  const TWO32: int := 0x1_0000_0000
  const TWO64: int := 0x1_0000_0000_0000_0000

  predicate ValidMode(mode: string) { mode == "identity-only" || mode == "full" }
}
