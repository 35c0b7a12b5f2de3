/**
 * `synchronizer/src/lib.rs`: extracting the payload bytes from an EIP-4844 blob in the
 * "simple" encoding. A blob is a run of 32-byte field elements; the first carries a 0x00
 * byte and the data length as a big-endian `u64`, every later one a 0x00 byte and 31 data bytes.
 */
module SimpleBlob {
  import opened Bytes

  /** `FIELD_ELEMENT_BYTES_USIZE`. */
  const FIELD_ELEMENT_BYTES: nat := 32
  /** Data bytes carried by one field element: all but its leading 0x00. */
  const BYTES_PER_ELEMENT: nat := 31
  /** `usize::MAX + 1` on the 64-bit targets the synchronizer runs on. */
  const USIZE_MODULUS: nat := 0x1_0000_0000_0000_0000

  /** Rust checks `usize` arithmetic for overflow in debug builds and wraps in release builds. */
  datatype BuildProfile = Debug | Release

  datatype BlobOutcome =
    | Decoded(data: seq<byte>)
    | CannotAccommodate(blobLen: nat, dataLen: nat)
    | BlobTooShort(blobLen: nat)
    | IndexPanic
    | OverflowPanic

  /** `.chunks(32).flat_map(|chunk| chunk[1..])`: every chunk but its first byte; the last chunk may be short. */
  function ChunkPayloads(s: seq<byte>): (r: seq<byte>)
    ensures |r| >= (|s| / FIELD_ELEMENT_BYTES) * BYTES_PER_ELEMENT
    decreases |s|
  {
    if |s| == 0 then []
    else if |s| <= FIELD_ELEMENT_BYTES then s[1..]
    else s[1..FIELD_ELEMENT_BYTES] + ChunkPayloads(s[FIELD_ELEMENT_BYTES..])
  }

  /** Data byte i sits in chunk i / 31, just after that chunk's leading byte. */
  lemma {:induction false} ChunkPayloadsIndex(s: seq<byte>, i: nat)
    requires i < (|s| / FIELD_ELEMENT_BYTES) * BYTES_PER_ELEMENT
    ensures ChunkPayloads(s)[i] == s[32 * (i / 31) + 1 + i % 31]
    decreases |s|
  {
    if i >= 31 {
      assert |s| > 32;
      var t := s[32..];
      assert |t| / 32 == |s| / 32 - 1;
      ChunkPayloadsIndex(t, i - 31);
      assert (i - 31) / 31 == i / 31 - 1 && (i - 31) % 31 == i % 31;
    }
  }

  /** `.skip(1)`: the chunks after the header field element. */
  function AfterHeader(blob: seq<byte>): seq<byte>
  {
    if |blob| < FIELD_ELEMENT_BYTES then [] else blob[FIELD_ELEMENT_BYTES..]
  }

  /** `.take(n)`. */
  function Take(s: seq<byte>, n: nat): (r: seq<byte>)
    ensures |r| == if n <= |s| then n else |s|
  {
    if n <= |s| then s[..n] else s
  }

  /**
   * `bytes_from_simple_blob` as written: the length field is read before any size check
   * (an index panic below 9 bytes) and `len / 32 - 1` underflows below 32 bytes.
   */
  function BytesFromSimpleBlobAsWritten(blob: seq<byte>, profile: BuildProfile): BlobOutcome
  {
    if |blob| < 9 then IndexPanic
    else
      var dataLen := FromBE(blob[1..9]);
      var elementsMinusOne: int := |blob| / FIELD_ELEMENT_BYTES - 1;
      var product := (elementsMinusOne % USIZE_MODULUS) * BYTES_PER_ELEMENT;
      if profile == Debug && (elementsMinusOne < 0 || product >= USIZE_MODULUS) then OverflowPanic
      else
        var maxDataLen := product % USIZE_MODULUS;
        if dataLen > maxDataLen then CannotAccommodate(|blob|, dataLen)
        else Decoded(Take(ChunkPayloads(AfterHeader(blob)), dataLen))
  }

  /** The largest data length a blob of `len` bytes can carry. */
  function MaxDataLen(len: nat): int
  {
    (len / FIELD_ELEMENT_BYTES - 1) * BYTES_PER_ELEMENT
  }

  /**
   * `bytes_from_simple_blob` with a blob shorter than one field element rejected up front.
   * Whatever it accepts has exactly the announced length, taken byte by byte from the data
   * field elements.
   */
  function BytesFromSimpleBlob(blob: seq<byte>): (r: BlobOutcome)
    ensures r.Decoded? || r.CannotAccommodate? || r.BlobTooShort?
    ensures r.BlobTooShort? <==> |blob| < FIELD_ELEMENT_BYTES
    ensures |blob| >= FIELD_ELEMENT_BYTES ==> (r.Decoded? <==> FromBE(blob[1..9]) <= MaxDataLen(|blob|))
    ensures r.Decoded? ==> |r.data| == FromBE(blob[1..9])
    ensures r.Decoded? ==> forall i :: 0 <= i < |r.data| ==> r.data[i] == blob[32 * (1 + i / 31) + 1 + i % 31]
  {
    if |blob| < FIELD_ELEMENT_BYTES then BlobTooShort(|blob|)
    else
      var dataLen := FromBE(blob[1..9]);
      if dataLen > MaxDataLen(|blob|) then CannotAccommodate(|blob|, dataLen)
      else
        var rest := blob[FIELD_ELEMENT_BYTES..];
        var data := ChunkPayloads(rest)[..dataLen];
        assert |rest| / 32 == |blob| / 32 - 1;
        assert forall i :: 0 <= i < dataLen ==> data[i] == blob[32 * (1 + i / 31) + 1 + i % 31] by {
          forall i | 0 <= i < dataLen
            ensures data[i] == blob[32 * (1 + i / 31) + 1 + i % 31]
          {
            ChunkPayloadsIndex(rest, i);
          }
        }
        Decoded(data)
  }

  /** On every blob of at least one field element, the code as written behaves as the corrected one. */
  lemma AsWrittenAgrees(blob: seq<byte>, profile: BuildProfile)
    requires FIELD_ELEMENT_BYTES <= |blob| < USIZE_MODULUS
    ensures BytesFromSimpleBlobAsWritten(blob, profile) == BytesFromSimpleBlob(blob)
  {
    var m := |blob| / FIELD_ELEMENT_BYTES - 1;
    assert 0 <= m < USIZE_MODULUS;
    assert m % USIZE_MODULUS == m;
    assert m * BYTES_PER_ELEMENT < USIZE_MODULUS;
  }

  /** In a debug build a header-only blob of 9 to 31 bytes panics on the subtraction. */
  lemma DebugShortBlobPanics(blob: seq<byte>)
    requires 9 <= |blob| < FIELD_ELEMENT_BYTES
    ensures BytesFromSimpleBlobAsWritten(blob, Debug) == OverflowPanic
  {
  }

  /**
   * In a release build the subtraction wraps, the bound becomes 2^64 - 31, and a 9-byte blob
   * announcing one data byte is accepted with none.
   */
  lemma ReleaseShortBlobAccepted()
    ensures FromBE([0, 0, 0, 0, 0, 0, 0, 1]) == 1
    ensures BytesFromSimpleBlobAsWritten([0, 0, 0, 0, 0, 0, 0, 0, 1], Release) == Decoded([])
    ensures BytesFromSimpleBlob([0, 0, 0, 0, 0, 0, 0, 0, 1]) == BlobTooShort(9)
  {
    var blob: seq<byte> := [0, 0, 0, 0, 0, 0, 0, 0, 1];
    assert blob[1..9] == [0, 0, 0, 0, 0, 0, 0, 1];
    var w: seq<byte> := [0, 0, 0, 0, 0, 0, 0, 1];
    assert w[..7] == [0, 0, 0, 0, 0, 0, 0];
    assert FromBE(w[..7]) == 0 by {
      ZerosBE(7);
      assert w[..7] == Zeros(7);
    }
  }

  /** n zero bytes. */
  function Zeros(n: nat): (r: seq<byte>)
    ensures |r| == n && forall i :: 0 <= i < n ==> r[i] == 0
  {
    if n == 0 then [] else Zeros(n - 1) + [0]
  }

  lemma {:induction false} ZerosBE(n: nat)
    ensures FromBE(Zeros(n)) == 0
  {
    if n > 0 {
      ZerosBE(n - 1);
      assert Zeros(n)[..n - 1] == Zeros(n - 1);
    }
  }

  // ---------------------------------------------------------------- the encoder the layout describes

  /** Data field elements: a 0x00 byte then the next 31 bytes; `d` is already padded to a multiple of 31. */
  function DataElements(d: seq<byte>): (r: seq<byte>)
    requires |d| % BYTES_PER_ELEMENT == 0
    ensures |r| == (|d| / BYTES_PER_ELEMENT) * FIELD_ELEMENT_BYTES
    decreases |d|
  {
    if d == [] then [] else [0] + d[..31] + DataElements(d[31..])
  }

  /**
   * A blob of `elements` field elements carrying `data`: the header element
   * 0x00 ++ the big-endian length ++ zeros, then the data, zero padded.
   */
  function EncodeSimpleBlob(data: seq<byte>, elements: nat): (r: seq<byte>)
    requires 1 <= elements && |data| <= (elements - 1) * BYTES_PER_ELEMENT
    requires |data| < USIZE_MODULUS
    ensures |r| == elements * FIELD_ELEMENT_BYTES
  {
    [0] + ToBE(|data|, 8) + Zeros(23) + DataElements(data + Zeros((elements - 1) * BYTES_PER_ELEMENT - |data|))
  }

  lemma {:induction false} ChunkPayloadsOfDataElements(d: seq<byte>)
    requires |d| % BYTES_PER_ELEMENT == 0
    ensures ChunkPayloads(DataElements(d)) == d
    decreases |d|
  {
    if d != [] {
      var e := DataElements(d);
      ChunkPayloadsOfDataElements(d[31..]);
      assert e[1..32] == d[..31];
      assert e[32..] == DataElements(d[31..]);
      if |e| <= 32 {
        assert d[31..] == [];
        assert e[1..] == e[1..32];
      }
      assert d == d[..31] + d[31..];
    }
  }

  /** Decoding what the encoding wrote gives the data back, in every blob size that fits it. */
  lemma DecodeEncode(data: seq<byte>, elements: nat)
    requires 1 <= elements && |data| <= (elements - 1) * BYTES_PER_ELEMENT
    requires |data| < USIZE_MODULUS
    ensures BytesFromSimpleBlob(EncodeSimpleBlob(data, elements)) == Decoded(data)
  {
    var blob := EncodeSimpleBlob(data, elements);
    var padded := data + Zeros((elements - 1) * BYTES_PER_ELEMENT - |data|);
    assert blob[1..9] == ToBE(|data|, 8);
    assert Pow256(8) == USIZE_MODULUS;
    FromToBE(|data|, 8);
    assert |blob| / 32 == elements;
    assert blob[32..] == DataElements(padded);
    ChunkPayloadsOfDataElements(padded);
    assert padded[..|data|] == data;
  }
}
