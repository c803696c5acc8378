/** The Pi sender's protocol constants and its advertisement metadata
    (`constants.py`). */
module Constants {
  import opened Common
  import opened Encoding

  /** Chunk size that fits an unnegotiated 23-byte ATT MTU. */
  const DEFAULT_CHUNK_SIZE: int := 17

  const MANUFACTURER_ID: int := 0x1234

  const ALLOWED_SEVERITIES: seq<string> := ["Extreme", "Severe", "Moderate", "Minor", "Unknown"]

  /** The lookup table of `severity_to_byte`. */
  const SEVERITY_CODES: map<string, byte> :=
    map["Extreme" := 4, "Severe" := 3, "Moderate" := 2, "Minor" := 1, "Unknown" := 0]

  /** `severity_to_byte`: the table entry, or 0 for any other string. */
  function SeverityToByte(severity: string): (b: byte)
    ensures b <= 4
    ensures b == 4 <==> severity == "Extreme"
    ensures b == 3 <==> severity == "Severe"
    ensures b == 2 <==> severity == "Moderate"
    ensures b == 1 <==> severity == "Minor"
    ensures b == 0 <==> severity !in {"Extreme", "Severe", "Moderate", "Minor"}
  {
    if severity in SEVERITY_CODES then SEVERITY_CODES[severity] else 0
  }

  /** `java_string_hashcode`: the JVM string-hash recurrence over the code
      points of `value`, masking the accumulator to 32 bits each round and
      returning it as a signed 32-bit value. */
  method JavaStringHashcode(value: string) returns (h: int32)
    ensures h == JavaHash(CodePoints(value))
    ensures ToUint32(h) == HashPoly(CodePoints(value)) % TWO32
  {
    var acc: nat := 0;
    for i := 0 to |value|
      invariant acc == HashAcc(CodePoints(value)[..i])
    {
      assert CodePoints(value)[..i + 1][..i] == CodePoints(value)[..i];
      acc := (31 * acc + value[i] as int) % TWO32;
    }
    assert CodePoints(value)[..|value|] == CodePoints(value);
    if acc >= 0x8000_0000 {
      h := acc - TWO32;
    } else {
      h := acc;
    }
    HashAccIsPolyMod(CodePoints(value));
  }

  /** `metadata_payload`: one severity byte, the unsigned string hash
      little-endian, then `fetched_at` packed big-endian as a signed 32-bit
      value. `struct.pack(">i")` raises for a value outside that range. */
  function MetadataPayload(alertId: string, severity: string, fetchedAt: int): (r: Result<seq<byte>, string>)
    ensures r.Failure? <==> !(-0x8000_0000 <= fetchedAt < 0x8000_0000)
    ensures r.Success? ==> |r.value| == 9
    ensures r.Success? ==> r.value[0] == SeverityToByte(severity)
    ensures r.Success? ==> ReadLe32(r.value[1..5]) == ToUint32(JavaHash(CodePoints(alertId)))
    ensures r.Success? ==> ReadBe32(r.value[5..9]) == fetchedAt
  {
    if !(-0x8000_0000 <= fetchedAt < 0x8000_0000) then
      Result<seq<byte>, string>.Failure("'i' format requires -2147483648 <= number <= 2147483647")
    else
      var sev := SeverityToByte(severity) % 0x100;
      var hashU32 := ToUint32(JavaHash(CodePoints(alertId)));
      Le32RoundTrip(hashU32);
      Be32RoundTrip(fetchedAt);
      var payload := [sev] + Le32(hashU32) + Be32(fetchedAt);
      assert payload[1..5] == Le32(hashU32) && payload[5..9] == Be32(fetchedAt);
      Success(payload)
  }

  /** The unit test `test_severity_mapping`. */
  lemma SeverityMappingTest()
    ensures SeverityToByte("Extreme") == 4 && SeverityToByte("Severe") == 3
    ensures SeverityToByte("Moderate") == 2 && SeverityToByte("Minor") == 1
    ensures SeverityToByte("Unknown") == 0
  {
  }
}
