/** Keys of relations and their seals, shared by the key files and the storage manager. */
module Keys {
  import opened Bytes

  type KeyData = seq<byte>

  datatype Cipher = Aes128 | Aes256 | Aes128Xts | Aes256Xts

  datatype InternalKey = InternalKey(key: KeyData, baseIv: Block16, cipher: Cipher)
}

/** Authenticated encryption of key material, idealised: opening needs the same key and the same additional data. */
module Seals {
  import opened Bytes
  import opened Keys

  datatype Seal<A> = Seal(under: KeyData, aad: A, secret: KeyData)

  function Open<A(==)>(seal: Seal<A>, key: KeyData, aad: A): Option<KeyData> {
    if seal.under == key && seal.aad == aad then Some(seal.secret) else None
  }
}
