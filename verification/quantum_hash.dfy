/**
 * The string framing of `quantum_hash` (app.py:86-150). SHA-256 and the
 * circuit simulation are foreign code, so they enter as the two fields of
 * `Primitives`; everything this module computes around them is modelled.
 */
module QuantumHash {
  import opened Wrappers
  import opened HexText

  /** What `hashlib.sha256(password.encode('utf-8')).hexdigest()` returns. */
  type Sha256Hex = s: string | |s| == 64 && IsLowerHex(s) witness seq(64, i => '0')

  /** A measured outcome of the 20-qubit circuit: a key of `result.get_counts(qc)`. */
  type Bits20 = s: string | |s| == 20 && IsBitString(s) witness seq(20, i => '0')

  /** The number of qubits: one per bit of the first 5 digest digits. */
  const QubitCount := 20

  /** The number of digest digits that feed the circuit. */
  const PrefixDigits := 5

  /** The number of trailing digest digits appended to the hash. */
  const SuffixDigits := 16

  /**
   * The two foreign computations. `sha256` hashes the UTF-8 encoding of the
   * password; `measure` builds the circuit from the 20 input bits, simulates
   * it with the given seed and returns the most frequent measured outcome.
   */
  datatype Primitives = Primitives(
    sha256: string -> Sha256Hex,
    measure: (Option<int>, Bits20) -> Bits20)

  /** Pre-processing: the first 5 digest digits as 20 binary digits. */
  function Preprocess(sha: Sha256Hex): (binary: Bits20)
    ensures BinaryToHex(binary) == sha[..PrefixDigits]
    ensures BinValue(binary) == HexValue(sha[..PrefixDigits])
  {
    BinaryToHexInverse(sha[..PrefixDigits]);
    HexToBinaryValue(sha[..PrefixDigits]);
    HexToBinary(sha[..PrefixDigits])
  }

  /** `hex(int(measured_state, 2))[2:]`: the measured value in lower-case hex. */
  function HashValue(measured: Bits20): (hv: string)
    ensures 1 <= |hv| <= PrefixDigits && IsLowerHex(hv)
    ensures HexValue(hv) == BinValue(measured)
    ensures hv[0] == '0' <==> hv == "0"
  {
    var n := BinValue(measured);
    Pow16IsPow2(PrefixDigits);
    ToHexLength(n, PrefixDigits);
    ToHexValue(n);
    ToHex(n)
  }

  /** The last 16 digits of the digest, `sha_hash[-16:]`. */
  function DigestSuffix(sha: Sha256Hex): (suffix: string)
    ensures |suffix| == SuffixDigits && IsLowerHex(suffix)
    ensures sha == sha[..|sha| - SuffixDigits] + suffix
  {
    sha[|sha| - SuffixDigits..]
  }

  /** `quantum_hash(password, seed)`: the hex of the measured state followed by the digest suffix. */
  function Hash(p: Primitives, password: string, seed: Option<int>): (h: string)
    ensures 17 <= |h| <= 21 && IsLowerHex(h)
    ensures h[|h| - SuffixDigits..] == DigestSuffix(p.sha256(password))
    ensures var prefix := h[..|h| - SuffixDigits];
      && HexValue(prefix) == BinValue(p.measure(seed, Preprocess(p.sha256(password))))
      && (prefix[0] == '0' <==> prefix == "0")
  {
    var sha := p.sha256(password);
    var binary := Preprocess(sha);
    var measured := p.measure(seed, binary);
    var hv := HashValue(measured);
    var h := hv + DigestSuffix(sha);
    assert h[|h| - SuffixDigits..] == DigestSuffix(sha);
    assert h[..|h| - SuffixDigits] == hv;
    h
  }
}
