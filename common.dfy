/** `common/src/lib.rs`: the proof-type tag and the set extraction helper. */
module Common {
  import opened Results
  import opened Bytes
  import opened Goldilocks

  /** Which shrunk proof a payload carries. */
  datatype ProofType = Plonky2 | Groth16

  /** `ProofType::from_str` (used for the PROOF_TYPE setting). */
  function ProofTypeFromStr(s: string): (r: Result<ProofType, string>)
    ensures r == Ok(Plonky2) <==> s == "plonky2"
    ensures r == Ok(Groth16) <==> s == "groth16"
    ensures r.Err? <==> s != "plonky2" && s != "groth16"
  {
    if s == "plonky2" then Ok(Plonky2)
    else if s == "groth16" then Ok(Groth16)
    else Err("unsupported PROOF_TYPE " + s)
  }

  /** `ProofType::to_byte`: the one-byte tag written in front of a payload proof. */
  function ToByte(t: ProofType): byte
  {
    match t
    case Plonky2 => 0
    case Groth16 => 1
  }

  /** `ProofType::from_byte`. */
  function FromByte(b: byte): (r: Result<ProofType, string>)
    ensures r.Err? <==> b >= 2
    ensures r.Ok? ==> ToByte(r.value) == b
  {
    if b == 0 then Ok(Plonky2)
    else if b == 1 then Ok(Groth16)
    else Err("unsupported PROOF_TYPE")
  }

  /** The tag round-trips, and the two tags differ. */
  lemma TagRoundTrip(t: ProofType)
    ensures FromByte(ToByte(t)) == Ok(t)
    ensures ToByte(Plonky2) != ToByte(Groth16)
  {
  }

  /** The typed views of a pod2 `Value` the project distinguishes. */
  datatype TypedValue =
    | Int(i: int)
    | Bool(b: bool)
    | Str(s: string)
    | RawVal(raw: Raw)
    | SetVal(members: set<Raw>)
    | DictVal(entries: map<string, Raw>)
    | ArrayVal(items: seq<Raw>)

  /** `set_from_value`: the set inside a set value, an error for every other kind. */
  function SetFromValue(v: TypedValue): (r: Result<set<Raw>, string>)
    ensures r.Ok? <==> v.SetVal?
    ensures r.Ok? ==> r.value == v.members
  {
    match v
    case SetVal(s) => Ok(s)
    case _ => Err("Invalid set")
  }
}
