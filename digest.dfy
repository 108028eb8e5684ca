/**
 * The digest computer: a file is read in chunks of at most BUFFER_SIZE bytes,
 * each chunk is fed to a hash object's running state, and the hex digest is
 * taken at the end; a read failure is reported as an empty digest and an
 * error map keyed by the path.
 */
module Digest {
  import opened Fixity

  /** The read size of `HoldingVerificationCore.BUFFER_SIZE`. */
  const BUFFER_SIZE: nat := 1_000_000

  /**
   * What reading a file yields. `Readable(data)`: every read succeeds and the
   * file holds `data`. `FailsAfter(readable, message)`: the reads deliver
   * `readable` and the next read (or the `open` itself, when `readable` is
   * empty) raises an `OSError` whose text is `message`.
   */
  datatype FileContent = Readable(data: seq<byte>) | FailsAfter(readable: seq<byte>, message: string)

  /** The bytes the reads deliver before end of file or failure. */
  function Delivered(c: FileContent): seq<byte>
  {
    match c
    case Readable(data) => data
    case FailsAfter(readable, _) => readable
  }

  function Min(a: nat, b: nat): nat
  {
    if a <= b then a else b
  }

  /** The successive non-empty results of `file.read(BUFFER_SIZE)` on `data`. */
  function Chunks(data: seq<byte>): seq<seq<byte>>
    decreases |data|
  {
    if data == [] then []
    else
      var n := Min(|data|, BUFFER_SIZE);
      [data[..n]] + Chunks(data[n..])
  }

  function Concat(chunks: seq<seq<byte>>): seq<byte>
  {
    if chunks == [] then [] else chunks[0] + Concat(chunks[1..])
  }

  /** The chunks, put back together, are the file's bytes. */
  lemma {:induction false} ChunksConcat(data: seq<byte>)
    ensures Concat(Chunks(data)) == data
    decreases |data|
  {
    if data != [] {
      var n := Min(|data|, BUFFER_SIZE);
      var cs := Chunks(data);
      assert cs[0] == data[..n];
      assert cs[1..] == Chunks(data[n..]);
      ChunksConcat(data[n..]);
      assert data == data[..n] + data[n..];
    }
  }

  /** Every chunk is non-empty and at most BUFFER_SIZE bytes long. */
  lemma {:induction false} ChunksBounded(data: seq<byte>)
    ensures forall i :: 0 <= i < |Chunks(data)| ==> 0 < |Chunks(data)[i]| <= BUFFER_SIZE
    decreases |data|
  {
    if data != [] {
      var n := Min(|data|, BUFFER_SIZE);
      ChunksBounded(data[n..]);
      var cs := Chunks(data);
      forall i | 0 <= i < |cs|
        ensures 0 < |cs[i]| <= BUFFER_SIZE
      {
        if i > 0 {
          assert cs[i] == Chunks(data[n..])[i - 1];
        }
      }
    }
  }

  /** A file of `k` bytes is read in exactly ceil(k / BUFFER_SIZE) chunks; an empty one in none. */
  lemma {:induction false} ChunkCount(data: seq<byte>)
    ensures |Chunks(data)| == (|data| + BUFFER_SIZE - 1) / BUFFER_SIZE
    ensures Chunks(data) == [] <==> data == []
    decreases |data|
  {
    if data != [] {
      var n := Min(|data|, BUFFER_SIZE);
      ChunkCount(data[n..]);
      if |data| > BUFFER_SIZE {
        assert (|data| + BUFFER_SIZE - 1) / BUFFER_SIZE == 1 + (|data[n..]| + BUFFER_SIZE - 1) / BUFFER_SIZE;
      }
    }
  }

  /** The (digest, errors) pair the source returns for a file: the digest and {} or "" and {path: message}. */
  function ChecksumOf(path: string, content: FileContent, hexOf: (Algorithm, seq<byte>) -> string, alg: Algorithm): (string, map<string, string>)
  {
    match content
    case Readable(data) => (hexOf(alg, data), map[])
    case FailsAfter(_, message) => ("", map[path := message])
  }

  /**
   * A hashlib hash object. `hexOf` stands for the digest functions themselves,
   * which are not modelled; `fed` is what `update` has been given so far. The
   * ghost fields record the calls, as the test's mock hash object does.
   */
  class HashObject {
    const algorithm: Algorithm
    const hexOf: (Algorithm, seq<byte>) -> string
    var fed: seq<byte>
    ghost var updateCalls: seq<seq<byte>>
    ghost var hexdigestCalls: nat

    constructor (algorithm: Algorithm, hexOf: (Algorithm, seq<byte>) -> string)
      ensures this.algorithm == algorithm && this.hexOf == hexOf
      ensures fed == [] && updateCalls == [] && hexdigestCalls == 0
    {
      this.algorithm := algorithm;
      this.hexOf := hexOf;
      fed := [];
      updateCalls := [];
      hexdigestCalls := 0;
    }

    /** `update(chunk)`: the running state now covers `chunk` as well. */
    method Update(chunk: seq<byte>)
      modifies this
      ensures fed == old(fed) + chunk
      ensures updateCalls == old(updateCalls) + [chunk]
      ensures hexdigestCalls == old(hexdigestCalls)
    {
      fed := fed + chunk;
      updateCalls := updateCalls + [chunk];
    }

    /** `hexdigest()`: the digest of everything fed so far. */
    method HexDigest() returns (hex: string)
      modifies this
      ensures hex == hexOf(algorithm, fed)
      ensures fed == old(fed) && updateCalls == old(updateCalls)
      ensures hexdigestCalls == old(hexdigestCalls) + 1
    {
      hex := hexOf(algorithm, fed);
      hexdigestCalls := hexdigestCalls + 1;
    }
  }

  /** Reading the next chunk at `pos` takes the next element of Chunks and extends what was read. */
  lemma ChunkStep(data: seq<byte>, pos: nat)
    requires pos < |data|
    ensures var n := Min(BUFFER_SIZE, |data| - pos);
      && Chunks(data[pos..]) == [data[pos..pos + n]] + Chunks(data[pos + n..])
      && data[..pos + n] == data[..pos] + data[pos..pos + n]
  {
    var n := Min(BUFFER_SIZE, |data| - pos);
    assert data[pos..][..n] == data[pos..pos + n];
    assert data[pos..][n..] == data[pos + n..];
  }

  /**
   * `get_checksum_for_file`: reads the file in chunks, feeds each to `h`, and
   * returns `h.hexdigest()` with no errors; when a read fails it returns ""
   * and `{path: message}` and never asks for the digest.
   */
  method GetChecksumForFile(path: string, content: FileContent, h: HashObject) returns (hex: string, errors: map<string, string>)
    modifies h
    ensures h.updateCalls == old(h.updateCalls) + Chunks(Delivered(content))
    ensures h.fed == old(h.fed) + Delivered(content)
    ensures content.Readable? ==> hex == h.hexOf(h.algorithm, old(h.fed) + content.data) && errors == map[]
    ensures content.FailsAfter? ==> hex == "" && errors == map[path := content.message]
    ensures h.hexdigestCalls == old(h.hexdigestCalls) + (if content.Readable? then 1 else 0)
    ensures old(h.fed) == [] ==> (hex, errors) == ChecksumOf(path, content, h.hexOf, h.algorithm)
  {
    var data := Delivered(content);
    var pos := 0;
    while true
      invariant 0 <= pos <= |data|
      invariant h.fed == old(h.fed) + data[..pos]
      invariant h.updateCalls + Chunks(data[pos..]) == old(h.updateCalls) + Chunks(data)
      invariant h.hexdigestCalls == old(h.hexdigestCalls)
      decreases |data| - pos
    {
      if pos == |data| && content.FailsAfter? {
        // the read after the last deliverable byte raises OSError
        assert data[pos..] == [];
        errors := map[path := content.message];
        return "", errors;
      }
      var n := Min(BUFFER_SIZE, |data| - pos);
      var contents := data[pos..pos + n];
      if |contents| == 0 {
        break;
      }
      ChunkStep(data, pos);
      h.Update(contents);
      pos := pos + n;
    }
    assert data[..pos] == data;
    assert old(h.fed) == [] ==> old(h.fed) + data == data;
    hex := h.HexDigest();
    errors := map[];
  }

  /**
   * `get_checksum_for_file(path, hash_function())`: a fresh hash object of
   * algorithm `alg`, fed the whole file; the result depends only on the file.
   */
  method ChecksumWithNewHash(path: string, content: FileContent, hexOf: (Algorithm, seq<byte>) -> string, alg: Algorithm)
    returns (hex: string, errors: map<string, string>)
    ensures hex == ChecksumOf(path, content, hexOf, alg).0
    ensures errors == ChecksumOf(path, content, hexOf, alg).1
  {
    var h := new HashObject(alg, hexOf);
    hex, errors := GetChecksumForFile(path, content, h);
  }
}
