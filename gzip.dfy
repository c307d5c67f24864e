/** Decompression of a gzip member (section 2.3 of RFC 1952), which the
    core calls through `crypto.DecompressStringGzip`. The codec itself is
    not part of this model: callers receive it as a partial function from
    bytes to the decoded text or an error message. */
module Gzip {
  import opened Wrappers

  type Decompressor = seq<bv8> -> Result<string, string>
}
