/** Digest values. SHA-256 (FIPS 180-4) and MD5 (RFC 1321) are not modelled:
    the operations that hash take the digest function as a parameter, and
    all the model knows of a `hexdigest()` is its length. */
module Digests {
  import opened Bytes

  /** A SHA-256 `hexdigest()`: 64 characters. */
  type Sha256Hex = s: string | |s| == 64 witness seq(64, i => '0')

  /** An MD5 `hexdigest()`: 32 characters. */
  type Md5Hex = s: string | |s| == 32 witness seq(32, i => '0')

  type Sha256 = seq<byte> -> Sha256Hex
  type Md5 = seq<byte> -> Md5Hex
}
