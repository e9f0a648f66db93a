/** The upload size gate of the "Upload & Summarize" tab: a file whose
    size in megabytes (bytes divided by 1024 * 1024) exceeds 5 is refused
    before any text is extracted. */
module SizeGate {

  /** The limit in megabytes. */
  const MaxFileSizeMb: nat := 5

  /** Bytes per megabyte as the app counts them. */
  const BytesPerMb: nat := 1024 * 1024

  /** The largest accepted size in bytes. */
  const MaxFileSizeBytes: nat := MaxFileSizeMb * BytesPerMb

  /** The size in megabytes, as the quotient `size / (1024 * 1024)`. The
      app divides in floating point. Python's `int / int` is the exact
      quotient correctly rounded. Rounding is monotone and leaves 5
      unchanged, so a quotient of at most 5 rounds to at most 5. A size
      above 5 * 2^20 bytes gives a quotient of at least 5 + 2^-20, which
      is itself a double, so it rounds to at least that, above 5. Hence
      comparing the rounded quotient with 5 decides the same as comparing
      the exact one, for every size. */
  function SizeInMb(size: nat): (r: real)
  {
    size as real / BytesPerMb as real
  }

  /** The gate: a file passes unless its size in megabytes is greater than
      the limit. It passes exactly when it has at most 5 MiB of bytes. */
  predicate Accepted(size: nat)
    ensures Accepted(size) <==> size <= MaxFileSizeBytes
  {
    !(SizeInMb(size) > MaxFileSizeMb as real)
  }

  /** The boundary: exactly 5 MiB passes and one byte more is refused. */
  lemma AcceptedBoundary()
    ensures Accepted(5 * 1024 * 1024)
    ensures !Accepted(5 * 1024 * 1024 + 1)
  {
  }
}
