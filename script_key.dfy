/** Locating a public key at the end of a hex-encoded unlocking script.

    Two rules live in the repository: the prefix-checked rule of
    `extract_public_key_from_script` and the cruder "last 66 characters" rule that
    `extract.py` applies to every long enough script. */
module ScriptKey {
  import opened Common

  /** Hex length of a compressed key (33 bytes) and of an uncompressed key (65 bytes). */
  const CompressedLen: nat := 66
  const UncompressedLen: nat := 130

  /** Python's `s[-n:]` for `n <= len(s)`. */
  function Suffix(s: string, n: nat): (r: string)
    requires n <= |s|
    ensures |r| == n && s == s[..|s| - n] + r
  {
    s[|s| - n..]
  }

  /** What a hex public key looks like: 66 characters behind `02`/`03`, or 130 behind `04`.
      The comparison is on characters, so `0x02`-style or upper-case prefixes do not match. */
  predicate IsKeyShaped(k: string) {
    || (|k| == CompressedLen && (k[..2] == "02" || k[..2] == "03"))
    || (|k| == UncompressedLen && k[..2] == "04")
  }

  /** `extract_public_key_from_script`: the compressed form is tried first, then the
      uncompressed one; every other script, the empty one included, yields nothing. */
  function ExtractPublicKeyFromScript(script: string): (r: Option<string>)
    ensures r.Some? ==> IsKeyShaped(r.value) && |r.value| <= |script|
                        && r.value == Suffix(script, |r.value|)
    ensures r.Some? && |r.value| == UncompressedLen ==> !IsKeyShaped(Suffix(script, CompressedLen))
    ensures r.None? ==> (|script| >= CompressedLen ==> !IsKeyShaped(Suffix(script, CompressedLen)))
                        && (|script| >= UncompressedLen ==> !IsKeyShaped(Suffix(script, UncompressedLen)))
  {
    if |script| >= CompressedLen && (Suffix(script, CompressedLen)[..2] == "02" || Suffix(script, CompressedLen)[..2] == "03") then
      Some(Suffix(script, CompressedLen))
    else if |script| >= UncompressedLen && Suffix(script, UncompressedLen)[..2] == "04" then
      Some(Suffix(script, UncompressedLen))
    else
      None
  }

  /** The extractor returns a key exactly when the script ends in a key-shaped
      66- or 130-character tail, and then it returns the shortest such tail. */
  lemma ExtractFindsShortestKeyTail(script: string)
    ensures ExtractPublicKeyFromScript(script).Some? <==>
              || (|script| >= CompressedLen && IsKeyShaped(Suffix(script, CompressedLen)))
              || (|script| >= UncompressedLen && IsKeyShaped(Suffix(script, UncompressedLen)))
    ensures |script| >= CompressedLen && IsKeyShaped(Suffix(script, CompressedLen)) ==>
              ExtractPublicKeyFromScript(script) == Some(Suffix(script, CompressedLen))
    ensures (|script| < CompressedLen || !IsKeyShaped(Suffix(script, CompressedLen)))
            && |script| >= UncompressedLen && IsKeyShaped(Suffix(script, UncompressedLen)) ==>
              ExtractPublicKeyFromScript(script) == Some(Suffix(script, UncompressedLen))
  {
  }

  /** A script that carries a compressed key tail and also an uncompressed one
      (its last 130 characters start with `04`) yields the compressed key. */
  lemma CompressedTakesPrecedence(script: string)
    requires |script| >= UncompressedLen
    requires Suffix(script, CompressedLen)[..2] == "03"
    requires Suffix(script, UncompressedLen)[..2] == "04"
    ensures ExtractPublicKeyFromScript(script) == Some(Suffix(script, CompressedLen))
    ensures |ExtractPublicKeyFromScript(script).value| == CompressedLen
  {
  }

  /** Short scripts, the empty one included, never yield a key. */
  lemma ShortScriptYieldsNothing(script: string)
    requires |script| < CompressedLen
    ensures ExtractPublicKeyFromScript(script) == None
  {
  }

  /** The rule of `extract.py`: a script strictly longer than 66 characters contributes
      its last 66 characters, whatever they are; a shorter one, or one of exactly 66,
      contributes nothing. */
  function LastSixtySix(script: string): (r: Option<string>)
    ensures r.Some? <==> |script| > CompressedLen
    ensures r.Some? ==> |r.value| == CompressedLen && r.value == Suffix(script, CompressedLen)
  {
    if |script| > CompressedLen then Some(script[|script| - CompressedLen..]) else None
  }

  /** The two rules differ: a 66-character compressed key on its own is found by the
      prefix-checked rule and ignored by the `extract.py` rule. */
  lemma RulesDisagreeOnBareKey(k: string)
    requires |k| == CompressedLen && k[..2] == "02"
    ensures ExtractPublicKeyFromScript(k) == Some(k)
    ensures LastSixtySix(k) == None
  {
    assert Suffix(k, CompressedLen) == k;
  }
}
