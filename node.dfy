/**
 * `synchronizer/src/main.rs`: the `Node` whose mutable fields record the ledger, the
 * blob-file directory layout and the blob completeness check.
 */
module Synchronizer {
  import opened Results
  import opened Goldilocks
  import opened Bytes
  import Crypto
  import Ledger
  import SimpleBlob

  /** The four mutable fields of `Node`, without their locks, and the data it checks with. */
  class Node {
    const crypto: Crypto.Primitives
    const verify: Ledger.Verifier

    var epoch: nat
    var createdItemsRoots: seq<Raw>
    var createdItems: set<Raw>
    var nullifiers: set<Raw>

    /** The node's fields as a ledger state. */
    function State(): Ledger.State
      reads this
    {
      Ledger.State(epoch, createdItemsRoots, createdItems, nullifiers)
    }

    ghost predicate Valid()
      reads this
    {
      Ledger.Invariant(State(), crypto.setRoot)
    }

    /** `Node::new`: the history starts with the empty root so that from-scratch items are accepted. */
    constructor (crypto: Crypto.Primitives, verify: Ledger.Verifier)
      ensures Valid()
      ensures State() == Ledger.Init()
      ensures this.crypto == crypto && this.verify == verify
    {
      this.crypto := crypto;
      this.verify := verify;
      epoch := 0;
      createdItemsRoots := [EMPTY_VALUE];
      createdItems := {};
      nullifiers := {};
    }

    /**
     * `process_do_blob` from the decoded payload on: four checks that change nothing, then
     * the nullifiers, the item, the epoch and the new root.
     */
    method ProcessPayload(p: Ledger.SyncPayload) returns (r: Ledger.Outcome)
      requires Valid()
      modifies this
      ensures Valid()
      ensures r == Ledger.Process(old(State()), p, verify, crypto.setRoot)
      ensures State() == if r.Accepted? then r.next else old(State())
    {
      Ledger.ProcessPreservesInvariant(State(), p, verify, crypto.setRoot);
      if p.createdItemsRoot !in createdItemsRoots {
        return Ledger.Rejected(Ledger.RootNotInHistory(p.createdItemsRoot));
      }
      if p.item in createdItems {
        return Ledger.Rejected(Ledger.ItemExists(p.item));
      }
      var i := 0;
      while i < |p.nullifiers|
        invariant 0 <= i <= |p.nullifiers|
        invariant forall j :: 0 <= j < i ==> p.nullifiers[j] !in nullifiers
      {
        if p.nullifiers[i] in nullifiers {
          assert Ledger.FirstRecorded(p.nullifiers, nullifiers) == Some(p.nullifiers[i]) by {
            FirstRecordedAt(p.nullifiers, nullifiers, i);
          }
          return Ledger.Rejected(Ledger.NullifierExists(p.nullifiers[i]));
        }
        i := i + 1;
      }
      var st := Ledger.StatementOf(p);
      match p.proof {
        case Groth16(_) =>
          return Ledger.Panicked;
        case Plonky2(c) =>
          if !verify(c, st) {
            return Ledger.Rejected(Ledger.ProofRejected);
          }
      }
      ghost var before := State();
      i := 0;
      while i < |p.nullifiers|
        invariant 0 <= i <= |p.nullifiers|
        invariant nullifiers == before.nullifiers + set j | 0 <= j < i :: p.nullifiers[j]
        invariant epoch == before.epoch && createdItems == before.items && createdItemsRoots == before.roots
      {
        nullifiers := nullifiers + {p.nullifiers[i]};
        i := i + 1;
      }
      createdItems := createdItems + {p.item};
      epoch := epoch + 1;
      createdItemsRoots := createdItemsRoots + [crypto.setRoot(createdItems)];
      r := Ledger.Accepted(State());
    }

    /**
     * `process_do_blob`: the blob bytes are extracted, parsed into the payload record by
     * `parse` (`Payload::from_bytes`), and processed.
     */
    method ProcessDoBlob(blob: seq<byte>, parse: seq<byte> -> Result<Ledger.SyncPayload, string>) returns (r: DoBlobOutcome)
      requires Valid()
      requires |blob| == BYTES_PER_BLOB
      modifies this
      ensures Valid()
      ensures SimpleBlob.BytesFromSimpleBlobAsWritten(blob, SimpleBlob.Debug) == SimpleBlob.BytesFromSimpleBlob(blob)
      ensures SimpleBlob.BytesFromSimpleBlobAsWritten(blob, SimpleBlob.Release) == SimpleBlob.BytesFromSimpleBlob(blob)
      ensures SimpleBlob.BytesFromSimpleBlob(blob).Decoded? <==> !r.InvalidBlob?
      ensures r.InvalidBlob? ==> r.decoding == SimpleBlob.BytesFromSimpleBlob(blob)
      ensures r.InvalidPayload? ==> parse(SimpleBlob.BytesFromSimpleBlob(blob).data) == Err(r.message)
      ensures r.Processed? ==>
                parse(SimpleBlob.BytesFromSimpleBlob(blob).data).Ok?
                && r.outcome == Ledger.Process(old(State()), parse(SimpleBlob.BytesFromSimpleBlob(blob).data).value, verify, crypto.setRoot)
      ensures State() == if r.Processed? && r.outcome.Accepted? then r.outcome.next else old(State())
    {
      SimpleBlob.AsWrittenAgrees(blob, SimpleBlob.Debug);
      SimpleBlob.AsWrittenAgrees(blob, SimpleBlob.Release);
      var decoded := SimpleBlob.BytesFromSimpleBlob(blob);
      if !decoded.Decoded? {
        return InvalidBlob(decoded);
      }
      var payload := parse(decoded.data);
      if payload.Err? {
        return InvalidPayload(payload.error);
      }
      var o := ProcessPayload(payload.value);
      return Processed(o);
    }
  }

  /** The size of an EIP-4844 blob: 4096 field elements of 32 bytes. */
  const BYTES_PER_BLOB: nat := 131072

  datatype DoBlobOutcome =
    | InvalidBlob(decoding: SimpleBlob.BlobOutcome)
    | InvalidPayload(message: string)
    | Processed(outcome: Ledger.Outcome)

  /** Where the loop of `process_do_blob` stops is where `FirstRecorded` points. */
  lemma {:induction false} FirstRecordedAt(ns: seq<Raw>, recorded: set<Raw>, i: nat)
    requires i < |ns| && ns[i] in recorded
    requires forall j :: 0 <= j < i ==> ns[j] !in recorded
    ensures Ledger.FirstRecorded(ns, recorded) == Some(ns[i])
    decreases i
  {
    if i > 0 {
      FirstRecordedAt(ns[1..], recorded, i - 1);
    }
  }

  // ---------------------------------------------------------------- blob directory layout

  /** A slot number, a `u32`. */
  const SLOT_LIMIT: nat := 0x1_0000_0000

  /** `slot_dir`'s split of a slot into millions, thousands and units. */
  function SlotParts(slot: nat): (r: (nat, nat, nat))
    requires slot < SLOT_LIMIT
    ensures r.0 * 1_000_000 + r.1 * 1_000 + r.2 == slot
    ensures r.1 < 1_000 && r.2 < 1_000 && r.0 < 4_295
  {
    var hi := slot / 1_000_000;
    var mid := (slot - hi * 1_000_000) / 1_000;
    var lo := slot - hi * 1_000_000 - mid * 1_000;
    (hi, mid, lo)
  }

  function DigitChar(d: nat): (c: char)
    requires d < 10
  {
    "0123456789"[d]
  }

  function DigitValue(c: char): nat
  {
    if '0' <= c <= '9' then (c as int - '0' as int) as nat else 0
  }

  /** The decimal digits of n, without leading zeros ("0" for zero). */
  function Decimal(n: nat): (s: string)
    ensures |s| >= 1
    ensures forall i :: 0 <= i < |s| ==> '0' <= s[i] <= '9'
    decreases n
  {
    if n < 10 then [DigitChar(n)] else Decimal(n / 10) + [DigitChar(n % 10)]
  }

  /** `format!("{:03}", n)`: at least three digits, padded on the left with zeros. */
  function Pad3(n: nat): (s: string)
    ensures |s| >= 3
    ensures n < 1000 ==> |s| == 3
    ensures forall i :: 0 <= i < |s| ==> '0' <= s[i] <= '9'
  {
    var d := Decimal(n);
    DecimalLength(n);
    if |d| < 3 then seq(3 - |d|, _ => '0') + d else d
  }

  lemma {:induction false} DecimalLength(n: nat)
    ensures n < 10 ==> |Decimal(n)| == 1
    ensures 10 <= n < 100 ==> |Decimal(n)| == 2
    ensures 100 <= n < 1000 ==> |Decimal(n)| == 3
    ensures n >= 100 ==> |Decimal(n)| >= 3
    decreases n
  {
    if n >= 10 {
      DecimalLength(n / 10);
    }
  }

  /** The number a string of decimal digits denotes; leading zeros do not count. */
  function ParseDecimal(s: string): nat
    decreases |s|
  {
    if s == [] then 0 else ParseDecimal(s[..|s| - 1]) * 10 + DigitValue(s[|s| - 1])
  }

  lemma DigitRoundTrip(d: nat)
    requires d < 10
    ensures DigitValue(DigitChar(d)) == d
  {
  }

  lemma {:induction false} ParseDecimalOf(n: nat)
    ensures ParseDecimal(Decimal(n)) == n
    decreases n
  {
    if n < 10 {
      DigitRoundTrip(n);
      assert Decimal(n)[..0] == [];
    } else {
      ParseDecimalOf(n / 10);
      DigitRoundTrip(n % 10);
      var s := Decimal(n);
      assert s[..|s| - 1] == Decimal(n / 10);
      assert s[|s| - 1] == DigitChar(n % 10);
    }
  }

  lemma {:induction false} ParseLeadingZeros(k: nat, s: string)
    ensures ParseDecimal(seq(k, _ => '0') + s) == ParseDecimal(s)
    decreases |s|, k
  {
    var z: string := seq(k, _ => '0');
    if s == [] {
      assert z + s == z;
      if k > 0 {
        assert z[..k - 1] == seq(k - 1, _ => '0');
        ParseLeadingZeros(k - 1, []);
        assert seq(k - 1, _ => '0') + [] == seq(k - 1, _ => '0');
      }
    } else {
      assert (z + s)[..|z + s| - 1] == z + s[..|s| - 1];
      ParseLeadingZeros(k, s[..|s| - 1]);
    }
  }

  /** Padding loses nothing: the three-digit name reads back as the number. */
  lemma Pad3RoundTrip(n: nat)
    ensures ParseDecimal(Pad3(n)) == n
  {
    ParseDecimalOf(n);
    DecimalLength(n);
    if |Decimal(n)| < 3 {
      ParseLeadingZeros(3 - |Decimal(n)|, Decimal(n));
    }
  }

  /** `slot_dir`: `blobs_path/hhh/mmm/lll`, as path components. */
  function SlotDir(blobsPath: seq<string>, slot: nat): (r: seq<string>)
    requires slot < SLOT_LIMIT
    ensures |r| == |blobsPath| + 3 && r[..|blobsPath|] == blobsPath
    ensures |r[|blobsPath| + 1]| == 3 && |r[|blobsPath| + 2]| == 3
  {
    var (hi, mid, lo) := SlotParts(slot);
    blobsPath + [Pad3(hi), Pad3(mid), Pad3(lo)]
  }

  /** Distinct slots are stored in distinct directories. */
  lemma SlotDirInjective(blobsPath: seq<string>, a: nat, b: nat)
    requires a < SLOT_LIMIT && b < SLOT_LIMIT
    requires SlotDir(blobsPath, a) == SlotDir(blobsPath, b)
    ensures a == b
  {
    var (ha, ma, la) := SlotParts(a);
    var (hb, mb, lb) := SlotParts(b);
    var k := |blobsPath|;
    assert SlotDir(blobsPath, a)[k] == Pad3(ha) && SlotDir(blobsPath, b)[k] == Pad3(hb);
    assert SlotDir(blobsPath, a)[k + 1] == Pad3(ma) && SlotDir(blobsPath, b)[k + 1] == Pad3(mb);
    assert SlotDir(blobsPath, a)[k + 2] == Pad3(la) && SlotDir(blobsPath, b)[k + 2] == Pad3(lb);
    Pad3RoundTrip(ha); Pad3RoundTrip(hb);
    Pad3RoundTrip(ma); Pad3RoundTrip(mb);
    Pad3RoundTrip(la); Pad3RoundTrip(lb);
  }

  // ---------------------------------------------------------------- blob completeness

  /**
   * `validate_blobs`: the first versioned hash, in order, with no blob in the map;
   * `None` exactly when every one has a blob.
   */
  method ValidateBlobs<H(==), B>(blobs: map<H, B>, versionedHashes: seq<H>) returns (missing: Option<H>)
    ensures missing.None? <==> forall i :: 0 <= i < |versionedHashes| ==> versionedHashes[i] in blobs
    ensures missing.Some? ==> exists i :: 0 <= i < |versionedHashes| && versionedHashes[i] == missing.value
                                          && missing.value !in blobs
                                          && forall j :: 0 <= j < i ==> versionedHashes[j] in blobs
  {
    var i := 0;
    while i < |versionedHashes|
      invariant 0 <= i <= |versionedHashes|
      invariant forall j :: 0 <= j < i ==> versionedHashes[j] in blobs
    {
      if versionedHashes[i] !in blobs {
        return Some(versionedHashes[i]);
      }
      i := i + 1;
    }
    return None;
  }
}
