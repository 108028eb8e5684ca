/**
 * The vocabulary shared by the digest-matching engine: the three candidate
 * digest algorithms, their canonical names, and the archive's fixity records.
 */
module Fixity {
  import opened Wrappers

  type byte = bv8

  /** The candidate digest algorithms, as the keys of `hashes_to_lookup`. */
  datatype Algorithm = Sha256 | Md5 | Sha1

  /** The fixed lookup order: sha256 first, md5 second (old holdings), sha1 last. */
  const FIXED_ORDER: seq<Algorithm> := [Sha256, Md5, Sha1]

  /** The canonical (hashlib) name of an algorithm. */
  function Name(a: Algorithm): string
  {
    match a
    case Sha256 => "sha256"
    case Md5 => "md5"
    case Sha1 => "sha1"
  }

  /** The algorithm a name denotes, if it is one of the three keys. */
  function FromName(s: string): (r: Option<Algorithm>)
    ensures r.Some? ==> Name(r.value) == s
  {
    if s == "sha256" then Some(Sha256)
    else if s == "md5" then Some(Md5)
    else if s == "sha1" then Some(Sha1)
    else None
  }

  /** Names and algorithms are in one-to-one correspondence. */
  lemma NameRoundTrip(a: Algorithm, s: string)
    ensures FromName(Name(a)) == Some(a)
    ensures FromName(s).Some? <==> s in {"sha256", "md5", "sha1"}
  {
  }

  /** One row of the reference table: (file_ref, fixity_value, algorithm_name). */
  datatype FixityRecord = FixityRecord(fileRef: string, fixityValue: string, algorithmName: string)
}
