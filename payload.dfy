/**
 * `common/src/payload.rs`: the byte format of the data-object payloads.
 *
 * The encoding is given as functions on byte sequences; the Rust writers, which
 * append to a `Vec<u8>`, and readers, which advance a `&[u8]` cursor, are methods
 * on `ByteWriter` and `SliceReader` proved to agree with those functions.
 */
module Payload {
  import opened Results
  import opened Bytes
  import opened Goldilocks
  import Common

  /** Every way decoding can fail. A Rust panic (slice index out of range) is `IndexPanic`. */
  datatype DecodeError =
    | UnexpectedEof
    | NotCanonical(word: nat)
    | InvalidMagic(magic: nat)
    | InvalidPayloadType(payloadType: byte)
    | UnsupportedProofType(tag: byte)
    | CompressedProofRejected
    | IndexPanic

  const PAYLOAD_MAGIC: nat := 0xad00
  const PAYLOAD_TYPE_CREATE: byte := 1
  const PAYLOAD_TYPE_UPDATE: byte := 2

  /** A custom predicate is named by its batch (a name and an id) and its position in the batch. */
  datatype CustomPredicateRef = CustomPredicateRef(batchName: string, batchId: Raw, index: nat)

  datatype PayloadCreate = PayloadCreate(id: Raw, predicateRef: CustomPredicateRef, vdsRoot: Raw)

  /** A shrunk proof; the plonky2 compressed proof is an opaque value, represented by bytes. */
  datatype PayloadProof = Plonky2(compressed: seq<byte>) | Groth16(proofBytes: seq<byte>)

  datatype PayloadUpdate = PayloadUpdate(id: Raw, proof: PayloadProof, newState: Raw, op: Raw)

  datatype Payload = Create(create: PayloadCreate) | Update(update: PayloadUpdate)

  /**
   * plonky2's `write_compressed_proof` / `read_compressed_proof`, which this model does
   * not describe: `read` gives the proof and the buffer position after it.
   */
  datatype CompressedProofCodec = CompressedProofCodec(
    write: seq<byte> -> seq<byte>,
    read: seq<byte> -> Option<(seq<byte>, nat)>)

  /** The codec reads back, from `s + rest`, exactly the proof it wrote as `s`. */
  ghost predicate ReadsBack(codec: CompressedProofCodec, p: seq<byte>, rest: seq<byte>)
  {
    codec.read(codec.write(p) + rest) == Some((p, |codec.write(p)|))
  }

  // ---------------------------------------------------------------- encoding

  /** `write_elems`: eight little-endian bytes of each canonical element, in order. */
  function EncodeElems(es: seq<Elem>): (r: seq<byte>)
    ensures |r| == 8 * |es|
  {
    if es == [] then [] else ToLE(es[0], 8) + EncodeElems(es[1..])
  }

  /** `write_custom_predicate_ref`: the 32-byte batch id, then the index cast to `u8`. */
  function EncodePredicateRef(r: CustomPredicateRef): seq<byte>
  {
    EncodeElems(r.batchId) + [(r.index % 256) as byte]
  }

  /** `PayloadCreate::write_bytes`. */
  function EncodeCreate(c: PayloadCreate): seq<byte>
  {
    EncodeElems(c.id) + EncodePredicateRef(c.predicateRef) + EncodeElems(c.vdsRoot)
  }

  /** `PayloadProof::write_bytes`: the proof-type tag, then the proof. */
  function EncodeProof(p: PayloadProof, codec: CompressedProofCodec): seq<byte>
  {
    match p
    case Plonky2(c) => [Common.ToByte(Common.Plonky2)] + codec.write(c)
    case Groth16(b) => [Common.ToByte(Common.Groth16)] + ToLE(|b|, 8) + b
  }

  /** `PayloadUpdate::write_bytes`. */
  function EncodeUpdate(u: PayloadUpdate, codec: CompressedProofCodec): seq<byte>
  {
    EncodeElems(u.id) + EncodeProof(u.proof, codec) + EncodeElems(u.newState) + EncodeElems(u.op)
  }

  /** `Payload::to_bytes`: the magic as a little-endian `u16`, the type byte, then the body. */
  function EncodePayload(p: Payload, codec: CompressedProofCodec): seq<byte>
  {
    match p
    case Create(c) => ToLE(PAYLOAD_MAGIC, 2) + [PAYLOAD_TYPE_CREATE] + EncodeCreate(c)
    case Update(u) => ToLE(PAYLOAD_MAGIC, 2) + [PAYLOAD_TYPE_UPDATE] + EncodeUpdate(u, codec)
  }

  // ---------------------------------------------------------------- decoding

  /**
   * `read_elems`: n words of eight little-endian bytes, each below the field order.
   * On success gives the elements and the bytes after them.
   */
  function DecodeElems(s: seq<byte>, n: nat): (r: Result<(seq<Elem>, seq<byte>), DecodeError>)
    ensures r.Ok? ==> |s| >= 8 * n && |r.value.0| == n && r.value.1 == s[8 * n..]
    ensures |s| < 8 * n ==> r.Err?
  {
    if n == 0 then Ok(([], s))
    else if |s| < 8 then Err(UnexpectedEof)
    else
      var w := FromLE(s[..8]);
      if w >= P then Err(NotCanonical(w))
      else
        match DecodeElems(s[8..], n - 1)
        case Err(e) => Err(e)
        case Ok((es, rest)) => Ok(([w as Elem] + es, rest))
  }

  /** Reads the four elements of a `Hash` / `RawValue`. */
  function DecodeRaw(s: seq<byte>): (r: Result<(Raw, seq<byte>), DecodeError>)
    ensures r.Ok? ==> |s| >= 32 && r.value.1 == s[32..]
  {
    match DecodeElems(s, 4)
    case Err(e) => Err(e)
    case Ok((es, rest)) => Ok((es, rest))
  }

  /** `read_custom_predicate_ref`: the batch comes back opaque, named "unknown". */
  function DecodePredicateRef(s: seq<byte>): (r: Result<(CustomPredicateRef, seq<byte>), DecodeError>)
    ensures r.Ok? ==> |s| >= 33 && r.value.1 == s[33..]
    ensures r.Ok? ==> r.value.0.batchName == "unknown" && r.value.0.index < 256
  {
    match DecodeRaw(s)
    case Err(e) => Err(e)
    case Ok((id, rest)) =>
      if |rest| < 1 then Err(UnexpectedEof)
      else Ok((CustomPredicateRef("unknown", id, rest[0]), rest[1..]))
  }

  /** `PayloadCreate::from_bytes`; bytes after the 97 it reads are ignored. */
  function DecodeCreate(s: seq<byte>): (r: Result<PayloadCreate, DecodeError>)
    ensures r.Ok? ==> |s| >= 97
  {
    match DecodeRaw(s)
    case Err(e) => Err(e)
    case Ok((id, s1)) =>
      match DecodePredicateRef(s1)
      case Err(e) => Err(e)
      case Ok((pr, s2)) =>
        match DecodeRaw(s2)
        case Err(e) => Err(e)
        case Ok((vds, _)) => Ok(PayloadCreate(id, pr, vds))
  }

  /**
   * `PayloadProof::from_bytes`: gives the proof and the number of bytes it took,
   * the tag included. Indexing past the end panics, as in the source.
   */
  function DecodeProof(s: seq<byte>, codec: CompressedProofCodec): (r: Result<(PayloadProof, nat), DecodeError>)
    ensures r.Ok? && r.value.0.Groth16? ==> r.value.1 == 9 + |r.value.0.proofBytes| <= |s|
  {
    if |s| == 0 then Err(IndexPanic)
    else
      match Common.FromByte(s[0])
      case Err(_) => Err(UnsupportedProofType(s[0]))
      case Ok(Plonky2) =>
        (match codec.read(s[1..])
         case None => Err(CompressedProofRejected)
         case Some((c, len)) => Ok((Plonky2(c), len + 1)))
      case Ok(Groth16) =>
        var b := s[1..];
        if |b| < 8 then Err(IndexPanic)
        else
          var len := FromLE(b[..8]);
          if 8 + len > |b| then Err(IndexPanic)
          else Ok((Groth16(b[8..8 + len]), 8 + len + 1))
  }

  /** `PayloadUpdate::from_bytes`: the proof length it is told says where the state starts. */
  function DecodeUpdate(s: seq<byte>, codec: CompressedProofCodec): (r: Result<PayloadUpdate, DecodeError>)
  {
    match DecodeRaw(s)
    case Err(e) => Err(e)
    case Ok((id, s1)) =>
      match DecodeProof(s1, codec)
      case Err(e) => Err(e)
      case Ok((proof, len)) =>
        if len > |s1| then Err(IndexPanic)
        else
          match DecodeRaw(s1[len..])
          case Err(e) => Err(e)
          case Ok((st, s2)) =>
            match DecodeRaw(s2)
            case Err(e) => Err(e)
            case Ok((op, _)) => Ok(PayloadUpdate(id, proof, st, op))
  }

  /** `Payload::from_bytes`. */
  function DecodePayload(s: seq<byte>, codec: CompressedProofCodec): (r: Result<Payload, DecodeError>)
    ensures |s| >= 2 && FromLE(s[..2]) != PAYLOAD_MAGIC ==> r == Err(InvalidMagic(FromLE(s[..2])))
    ensures (|s| >= 3 && FromLE(s[..2]) == PAYLOAD_MAGIC && s[2] != PAYLOAD_TYPE_CREATE && s[2] != PAYLOAD_TYPE_UPDATE)
              ==> r == Err(InvalidPayloadType(s[2]))
    ensures r.Ok? ==> |s| >= 3 && s[0] == 0x00 && s[1] == 0xad
    ensures r.Ok? && r.value.Create? ==> s[2] == PAYLOAD_TYPE_CREATE
    ensures r.Ok? && r.value.Update? ==> s[2] == PAYLOAD_TYPE_UPDATE
  {
    if |s| < 2 then Err(UnexpectedEof)
    else
      var magic := FromLE(s[..2]);
      if magic != PAYLOAD_MAGIC then Err(InvalidMagic(magic))
      else if |s| < 3 then Err(UnexpectedEof)
      else
        MagicBytes(s[..2]);
        var t := s[2];
        if t == PAYLOAD_TYPE_CREATE then
          match DecodeCreate(s[3..])
          case Err(e) => Err(e)
          case Ok(c) => Ok(Create(c))
        else if t == PAYLOAD_TYPE_UPDATE then
          match DecodeUpdate(s[3..], codec)
          case Err(e) => Err(e)
          case Ok(u) => Ok(Update(u))
        else Err(InvalidPayloadType(t))
  }

  /** The magic 0xad00 read little-endian is exactly the bytes 0x00, 0xad. */
  lemma MagicBytes(m: seq<byte>)
    requires |m| == 2
    ensures FromLE(m) == PAYLOAD_MAGIC <==> m == [0x00, 0xad]
  {
    assert FromLE(m) == m[0] as int + 256 * (m[1] as int) by {
      assert m[1..][1..] == [];
    }
  }

  // ---------------------------------------------------------------- round trips

  /** `read_elems(write_elems(e))` gives e back and consumes exactly 8 bytes per element. */
  lemma {:induction false} ElemsRoundTrip(es: seq<Elem>, rest: seq<byte>)
    ensures DecodeElems(EncodeElems(es) + rest, |es|) == Ok((es, rest))
  {
    if es != [] {
      var s := EncodeElems(es) + rest;
      assert s[..8] == ToLE(es[0], 8);
      assert s[8..] == EncodeElems(es[1..]) + rest;
      FromToLE(es[0], 8);
      ElemsRoundTrip(es[1..], rest);
      assert [es[0]] + es[1..] == es;
    }
  }

  lemma RawRoundTrip(x: Raw, rest: seq<byte>)
    ensures DecodeRaw(EncodeElems(x) + rest) == Ok((x, rest))
  {
    ElemsRoundTrip(x, rest);
  }

  /** The predicate reference is 33 bytes; its id survives, its index only modulo 256. */
  lemma PredicateRefRoundTrip(r: CustomPredicateRef, rest: seq<byte>)
    ensures |EncodePredicateRef(r)| == 33
    ensures DecodePredicateRef(EncodePredicateRef(r) + rest)
              == Ok((CustomPredicateRef("unknown", r.batchId, r.index % 256), rest))
  {
    var s := EncodePredicateRef(r) + rest;
    assert s == EncodeElems(r.batchId) + ([(r.index % 256) as byte] + rest);
    RawRoundTrip(r.batchId, [(r.index % 256) as byte] + rest);
  }

  /** An index of 256 or more does not survive the `as u8` cast. */
  lemma PredicateIndexTruncated(r: CustomPredicateRef)
    requires r.index >= 256
    ensures DecodePredicateRef(EncodePredicateRef(r)).Ok?
    ensures DecodePredicateRef(EncodePredicateRef(r)).value.0.index != r.index
  {
    PredicateRefRoundTrip(r, []);
    assert EncodePredicateRef(r) + [] == EncodePredicateRef(r);
  }

  /** A `PayloadCreate` is exactly 97 bytes and reads back, with the batch made opaque. */
  lemma CreateRoundTrip(c: PayloadCreate, rest: seq<byte>)
    ensures |EncodeCreate(c)| == 97
    ensures DecodeCreate(EncodeCreate(c) + rest)
              == Ok(PayloadCreate(c.id, CustomPredicateRef("unknown", c.predicateRef.batchId, c.predicateRef.index % 256), c.vdsRoot))
  {
    var a := EncodeElems(c.id);
    var b := EncodePredicateRef(c.predicateRef);
    var d := EncodeElems(c.vdsRoot);
    PredicateRefRoundTrip(c.predicateRef, d + rest);
    assert EncodeCreate(c) + rest == a + (b + (d + rest));
    RawRoundTrip(c.id, b + (d + rest));
    RawRoundTrip(c.vdsRoot, rest);
  }

  /** The bound on a Rust `Vec<u8>` length that the 8-byte length field can carry. */
  const MAX_PROOF_LEN: nat := 0x1_0000_0000_0000_0000

  /** A Groth16 proof reads back with a consumed length of 1 + 8 + len. */
  lemma Groth16RoundTrip(b: seq<byte>, rest: seq<byte>, codec: CompressedProofCodec)
    requires |b| < MAX_PROOF_LEN
    ensures DecodeProof(EncodeProof(Groth16(b), codec) + rest, codec) == Ok((Groth16(b), 9 + |b|))
  {
    var s := EncodeProof(Groth16(b), codec) + rest;
    var t := s[1..];
    assert s[0] == 1 && Common.FromByte(s[0]) == Ok(Common.Groth16);
    assert t == ToLE(|b|, 8) + b + rest;
    assert Pow256(8) == MAX_PROOF_LEN;
    FromToLE(|b|, 8);
    assert t[..8] == ToLE(|b|, 8);
    assert t[8..8 + |b|] == b;
  }

  /** A plonky2 proof reads back whenever the compressed-proof codec itself does. */
  lemma Plonky2RoundTrip(c: seq<byte>, rest: seq<byte>, codec: CompressedProofCodec)
    requires ReadsBack(codec, c, rest)
    ensures DecodeProof(EncodeProof(Plonky2(c), codec) + rest, codec) == Ok((Plonky2(c), 1 + |codec.write(c)|))
  {
    var s := EncodeProof(Plonky2(c), codec) + rest;
    assert s[1..] == codec.write(c) + rest;
  }

  /** A proof the model can read back. */
  ghost predicate ProofReadsBack(p: PayloadProof, rest: seq<byte>, codec: CompressedProofCodec)
  {
    match p
    case Groth16(b) => |b| < MAX_PROOF_LEN
    case Plonky2(c) => ReadsBack(codec, c, rest)
  }

  lemma ProofRoundTrip(p: PayloadProof, rest: seq<byte>, codec: CompressedProofCodec)
    requires ProofReadsBack(p, rest, codec)
    ensures DecodeProof(EncodeProof(p, codec) + rest, codec) == Ok((p, |EncodeProof(p, codec)|))
  {
    match p
    case Groth16(b) => Groth16RoundTrip(b, rest, codec);
    case Plonky2(c) => Plonky2RoundTrip(c, rest, codec);
  }

  /** A `PayloadUpdate` reads back; decoding advances past the proof by the length it reports. */
  lemma UpdateRoundTrip(u: PayloadUpdate, codec: CompressedProofCodec, rest: seq<byte>)
    requires ProofReadsBack(u.proof, EncodeElems(u.newState) + EncodeElems(u.op) + rest, codec)
    ensures DecodeUpdate(EncodeUpdate(u, codec) + rest, codec) == Ok(u)
  {
    var a := EncodeElems(u.id);
    var pr := EncodeProof(u.proof, codec);
    var st := EncodeElems(u.newState);
    var op := EncodeElems(u.op);
    assert EncodeUpdate(u, codec) + rest == a + (pr + (st + op + rest));
    RawRoundTrip(u.id, pr + (st + op + rest));
    assert st + op + rest == EncodeElems(u.newState) + EncodeElems(u.op) + rest;
    ProofRoundTrip(u.proof, st + op + rest, codec);
    assert (pr + (st + op + rest))[|pr|..] == st + (op + rest);
    RawRoundTrip(u.newState, op + rest);
    RawRoundTrip(u.op, rest);
  }

  /** A payload whose proof and predicate reference survive the format reads back unchanged. */
  ghost predicate Representable(p: Payload, codec: CompressedProofCodec)
  {
    match p
    case Create(c) => c.predicateRef.batchName == "unknown" && c.predicateRef.index < 256
    case Update(u) => ProofReadsBack(u.proof, EncodeElems(u.newState) + EncodeElems(u.op), codec)
  }

  /** The magic and the type tag are the first three bytes of every payload. */
  lemma PayloadHeader(p: Payload, codec: CompressedProofCodec)
    ensures EncodePayload(p, codec)[..3] == [0x00, 0xad, if p.Create? then 1 else 2]
    ensures FromLE(EncodePayload(p, codec)[..2]) == PAYLOAD_MAGIC
  {
    var s := EncodePayload(p, codec);
    assert ToLE(PAYLOAD_MAGIC, 2) == [0x00, 0xad];
    assert s[..2] == [0x00, 0xad];
    MagicBytes(s[..2]);
  }

  lemma CreatePayloadRoundTrip(c: PayloadCreate, codec: CompressedProofCodec)
    requires c.predicateRef.batchName == "unknown" && c.predicateRef.index < 256
    ensures DecodePayload(EncodePayload(Create(c), codec), codec) == Ok(Create(c))
  {
    var s := EncodePayload(Create(c), codec);
    PayloadHeader(Create(c), codec);
    assert s[3..] == EncodeCreate(c) + [];
    CreateRoundTrip(c, []);
  }

  lemma UpdatePayloadRoundTrip(u: PayloadUpdate, codec: CompressedProofCodec)
    requires ProofReadsBack(u.proof, EncodeElems(u.newState) + EncodeElems(u.op), codec)
    ensures DecodePayload(EncodePayload(Update(u), codec), codec) == Ok(Update(u))
  {
    var s := EncodePayload(Update(u), codec);
    PayloadHeader(Update(u), codec);
    assert s[3..] == EncodeUpdate(u, codec) + [];
    assert EncodeElems(u.newState) + EncodeElems(u.op) + [] == EncodeElems(u.newState) + EncodeElems(u.op);
    UpdateRoundTrip(u, codec, []);
  }

  /** `Payload::from_bytes(to_bytes(p)) == p`, and the encoding starts 0x00 0xad, type. */
  lemma PayloadRoundTrip(p: Payload, codec: CompressedProofCodec)
    requires Representable(p, codec)
    ensures DecodePayload(EncodePayload(p, codec), codec) == Ok(p)
    ensures EncodePayload(p, codec)[..3] == [0x00, 0xad, if p.Create? then 1 else 2]
  {
    PayloadHeader(p, codec);
    match p
    case Create(c) => CreatePayloadRoundTrip(c, codec);
    case Update(u) => UpdatePayloadRoundTrip(u, codec);
  }

  // ---------------------------------------------------------------- the Rust writers and readers

  /** A `Vec<u8>` that the writers append to. */
  class ByteWriter {
    var buffer: seq<byte>

    constructor ()
      ensures buffer == []
    {
      buffer := [];
    }

    /** `write_all` on a `Vec<u8>`, which never fails. */
    method WriteAll(b: seq<byte>)
      modifies this
      ensures buffer == old(buffer) + b
    {
      buffer := buffer + b;
    }

    /** `write_elems`. */
    method WriteElems(es: seq<Elem>)
      modifies this
      ensures buffer == old(buffer) + EncodeElems(es)
    {
      var i := 0;
      while i < |es|
        invariant 0 <= i <= |es|
        invariant buffer + EncodeElems(es[i..]) == old(buffer) + EncodeElems(es)
      {
        assert EncodeElems(es[i..]) == ToLE(es[i], 8) + EncodeElems(es[i + 1..]);
        WriteAll(ToLE(es[i], 8));
        i := i + 1;
      }
      assert es[|es|..] == [];
    }

    /** `write_custom_predicate_ref`. */
    method WritePredicateRef(r: CustomPredicateRef)
      modifies this
      ensures buffer == old(buffer) + EncodePredicateRef(r)
    {
      WriteElems(r.batchId);
      WriteAll([(r.index % 256) as byte]);
    }

    /** `PayloadCreate::write_bytes`. */
    method WriteCreate(c: PayloadCreate)
      modifies this
      ensures buffer == old(buffer) + EncodeCreate(c)
    {
      WriteElems(c.id);
      WritePredicateRef(c.predicateRef);
      WriteElems(c.vdsRoot);
    }

    /** `PayloadProof::write_bytes`. */
    method WriteProof(p: PayloadProof, codec: CompressedProofCodec)
      modifies this
      ensures buffer == old(buffer) + EncodeProof(p, codec)
    {
      match p
      case Plonky2(c) =>
        WriteAll([Common.ToByte(Common.Plonky2)]);
        WriteAll(codec.write(c));
      case Groth16(b) =>
        WriteAll([Common.ToByte(Common.Groth16)]);
        WriteAll(ToLE(|b|, 8));
        WriteAll(b);
    }

    /** `PayloadUpdate::write_bytes`. */
    method WriteUpdate(u: PayloadUpdate, codec: CompressedProofCodec)
      modifies this
      ensures buffer == old(buffer) + EncodeUpdate(u, codec)
    {
      WriteElems(u.id);
      WriteProof(u.proof, codec);
      WriteElems(u.newState);
      WriteElems(u.op);
    }
  }

  /** `Payload::to_bytes`. */
  method ToBytes(p: Payload, codec: CompressedProofCodec) returns (bytes: seq<byte>)
    ensures bytes == EncodePayload(p, codec)
  {
    var w := new ByteWriter();
    w.WriteAll(ToLE(PAYLOAD_MAGIC, 2));
    match p {
      case Create(c) =>
        w.WriteAll([PAYLOAD_TYPE_CREATE]);
        w.WriteCreate(c);
      case Update(u) =>
        w.WriteAll([PAYLOAD_TYPE_UPDATE]);
        w.WriteUpdate(u, codec);
    }
    bytes := w.buffer;
  }

  /** A `&[u8]` read through `std::io::Read`: the bytes and how many were consumed. */
  class SliceReader {
    const data: seq<byte>
    var pos: nat

    ghost predicate Valid()
      reads this
    {
      pos <= |data|
    }

    /** What is left to read. */
    function Remaining(): seq<byte>
      reads this
      requires Valid()
    {
      data[pos..]
    }

    constructor (bytes: seq<byte>)
      ensures Valid() && data == bytes && pos == 0
    {
      data := bytes;
      pos := 0;
    }

    /** `read_exact`: fails on a short slice, which it then leaves empty. */
    method ReadExact(n: nat) returns (r: Result<seq<byte>, DecodeError>)
      requires Valid()
      modifies this
      ensures Valid()
      ensures n <= |old(Remaining())| ==> r == Ok(old(Remaining())[..n]) && Remaining() == old(Remaining())[n..]
      ensures n > |old(Remaining())| ==> r == Err(UnexpectedEof) && Remaining() == []
    {
      if n > |data| - pos {
        pos := |data|;
        return Err(UnexpectedEof);
      }
      assert data[pos..][..n] == data[pos..pos + n];
      assert data[pos..][n..] == data[pos + n..];
      r := Ok(data[pos..pos + n]);
      pos := pos + n;
    }

    /** `read_elems`. On an error the reader is dropped by every caller. */
    method ReadElems(n: nat) returns (r: Result<seq<Elem>, DecodeError>)
      requires Valid()
      modifies this
      ensures Valid()
      ensures DecodeElems(old(Remaining()), n).Err? ==> r == Err(DecodeElems(old(Remaining()), n).error)
      ensures DecodeElems(old(Remaining()), n).Ok? ==>
                r == Ok(DecodeElems(old(Remaining()), n).value.0) && Remaining() == DecodeElems(old(Remaining()), n).value.1
    {
      var elems: seq<Elem> := [];
      var i := 0;
      PrependNil(DecodeElems(Remaining(), n));
      while i < n
        invariant Valid()
        invariant 0 <= i <= n && |elems| == i
        invariant DecodeElems(old(Remaining()), n) == Prepend(elems, DecodeElems(Remaining(), n - i))
      {
        var word := ReadExact(8);
        if word.Err? {
          return Err(word.error);
        }
        var w := FromLE(word.value);
        if w >= P {
          return Err(NotCanonical(w));
        }
        PrependAppend(elems, w as Elem, DecodeElems(Remaining(), n - i - 1));
        elems := elems + [w as Elem];
        i := i + 1;
      }
      assert elems + [] == elems;
      return Ok(elems);
    }
  }

  /** Puts already decoded elements in front of the rest of a decoding. */
  function Prepend(xs: seq<Elem>, r: Result<(seq<Elem>, seq<byte>), DecodeError>): Result<(seq<Elem>, seq<byte>), DecodeError>
  {
    match r
    case Err(e) => Err(e)
    case Ok((es, rest)) => Ok((xs + es, rest))
  }

  lemma PrependNil(r: Result<(seq<Elem>, seq<byte>), DecodeError>)
    ensures Prepend([], r) == r
  {
    match r
    case Err(e) =>
    case Ok((es, rest)) => assert [] + es == es;
  }

  lemma PrependAppend(xs: seq<Elem>, x: Elem, r: Result<(seq<Elem>, seq<byte>), DecodeError>)
    ensures Prepend(xs, match r case Err(e) => Err(e) case Ok((es, rest)) => Ok(([x] + es, rest)))
            == Prepend(xs + [x], r)
  {
    match r
    case Err(e) =>
    case Ok((es, rest)) => assert xs + ([x] + es) == (xs + [x]) + es;
  }

  /** `read_custom_predicate_ref`. */
  method ReadPredicateRef(rd: SliceReader) returns (r: Result<CustomPredicateRef, DecodeError>)
    requires rd.Valid()
    modifies rd
    ensures rd.Valid()
    ensures DecodePredicateRef(old(rd.Remaining())).Err? ==> r == Err(DecodePredicateRef(old(rd.Remaining())).error)
    ensures DecodePredicateRef(old(rd.Remaining())).Ok? ==>
              r == Ok(DecodePredicateRef(old(rd.Remaining())).value.0) && rd.Remaining() == DecodePredicateRef(old(rd.Remaining())).value.1
  {
    var id := rd.ReadElems(4);
    if id.Err? {
      return Err(id.error);
    }
    var b := rd.ReadExact(1);
    if b.Err? {
      return Err(b.error);
    }
    return Ok(CustomPredicateRef("unknown", id.value, b.value[0]));
  }

  /** `PayloadCreate::from_bytes`. */
  method CreateFromBytes(bytes: seq<byte>) returns (r: Result<PayloadCreate, DecodeError>)
    ensures r == DecodeCreate(bytes)
  {
    var rd := new SliceReader(bytes);
    var id := rd.ReadElems(4);
    if id.Err? {
      return Err(id.error);
    }
    var pr := ReadPredicateRef(rd);
    if pr.Err? {
      return Err(pr.error);
    }
    var vds := rd.ReadElems(4);
    if vds.Err? {
      return Err(vds.error);
    }
    return Ok(PayloadCreate(id.value, pr.value, vds.value));
  }

  /** `PayloadUpdate::from_bytes`: the cursor is moved by hand past the proof. */
  method UpdateFromBytes(bytes: seq<byte>, codec: CompressedProofCodec) returns (r: Result<PayloadUpdate, DecodeError>)
    ensures r == DecodeUpdate(bytes, codec)
  {
    var rd := new SliceReader(bytes);
    var id := rd.ReadElems(4);
    if id.Err? {
      return Err(id.error);
    }
    var proof := DecodeProof(rd.Remaining(), codec);
    if proof.Err? {
      return Err(proof.error);
    }
    var (pr, len) := proof.value;
    if len > |rd.Remaining()| {
      return Err(IndexPanic);
    }
    rd.pos := rd.pos + len;
    assert rd.Remaining() == DecodeRaw(bytes).value.1[len..];
    var st := rd.ReadElems(4);
    if st.Err? {
      return Err(st.error);
    }
    var op := rd.ReadElems(4);
    if op.Err? {
      return Err(op.error);
    }
    return Ok(PayloadUpdate(id.value, pr, st.value, op.value));
  }

  /** `Payload::from_bytes`. */
  method FromBytes(bytes: seq<byte>, codec: CompressedProofCodec) returns (r: Result<Payload, DecodeError>)
    ensures r == DecodePayload(bytes, codec)
  {
    var rd := new SliceReader(bytes);
    var magic := rd.ReadExact(2);
    if magic.Err? {
      return Err(magic.error);
    }
    if FromLE(magic.value) != PAYLOAD_MAGIC {
      return Err(InvalidMagic(FromLE(magic.value)));
    }
    var t := rd.ReadExact(1);
    if t.Err? {
      return Err(t.error);
    }
    assert rd.Remaining() == bytes[3..];
    if t.value[0] == PAYLOAD_TYPE_CREATE {
      var c := CreateFromBytes(rd.Remaining());
      if c.Err? {
        return Err(c.error);
      }
      return Ok(Create(c.value));
    } else if t.value[0] == PAYLOAD_TYPE_UPDATE {
      var u := UpdateFromBytes(rd.Remaining(), codec);
      if u.Err? {
        return Err(u.error);
      }
      return Ok(Update(u.value));
    }
    return Err(InvalidPayloadType(t.value[0]));
  }
}
