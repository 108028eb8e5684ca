/**
 * The adaptive matcher, `get_rows_with_hash`: the candidate algorithms are
 * tried with the presumed one first, each digest is looked up, and the loop
 * stops at the first match once the sha256 digest is known.
 *
 * `Scan` is the loop written as a function over the candidate order; the
 * method `GetRowsWithHash` is the loop itself and is proved equal to it. The
 * state carries two counters, of digest computations and of lookups, which
 * the method keeps as ghost variables.
 */
module Matcher {
  import opened Wrappers
  import opened Fixity
  import opened Digest
  import opened Lookup

  /** The engine's collaborators: the reference table behind the connection, and hashlib. */
  datatype Env = Env(table: seq<FixityRecord>, hexOf: (Algorithm, seq<byte>) -> string)

  // ---------------------------------------------------------------------
  // Candidate order (the dict union of lines 81-82)
  // ---------------------------------------------------------------------

  /** The keys of Python's `left | right`, in order: `left`'s keys, then the new keys of `right`. */
  function KeyUnion<K(==)>(left: seq<K>, right: seq<K>): seq<K>
  {
    if right == [] then left
    else
      var init := KeyUnion(left, right[..|right| - 1]);
      var k := right[|right| - 1];
      if k in init then init else init + [k]
  }

  /** The algorithms of FIXED_ORDER other than `a`, in that order. */
  function Others(a: Algorithm): seq<Algorithm>
  {
    match a
    case Sha256 => [Md5, Sha1]
    case Md5 => [Sha256, Sha1]
    case Sha1 => [Sha256, Md5]
  }

  /**
   * The order in which `get_rows_with_hash` tries the algorithms: the presumed
   * one first, then the rest in the fixed order; an unknown name gives the
   * fixed order.
   */
  function CandidateOrder(presumedHashName: string): seq<Algorithm>
  {
    match FromName(presumedHashName)
    case None => FIXED_ORDER
    case Some(a) => [a] + Others(a)
  }

  /**
   * Every algorithm is tried exactly once; a known presumed algorithm is
   * tried first, and without one the fixed order is kept.
   */
  lemma CandidateOrderPermutes(presumedHashName: string)
    ensures var order := CandidateOrder(presumedHashName);
      && |order| == 3 && multiset(order) == multiset(FIXED_ORDER)
      && (FromName(presumedHashName).Some? ==> order[0] == FromName(presumedHashName).value)
      && (FromName(presumedHashName).None? ==> order == FIXED_ORDER)
  {
  }

  /** The keys `presumed_hash` contributes to the union: the presumed algorithm, if its name is known. */
  function PresumedKeys(presumedHashName: string): (keys: seq<Algorithm>)
    ensures |keys| <= 1
    ensures keys == [] <==> FromName(presumedHashName).None?
  {
    match FromName(presumedHashName)
    case None => []
    case Some(a) => [a]
  }

  /** The candidate order is the key order of `presumed_hash | hashes_to_lookup`. */
  lemma CandidateOrderIsDictUnion(presumedHashName: string)
    ensures CandidateOrder(presumedHashName) == KeyUnion(PresumedKeys(presumedHashName), FIXED_ORDER)
  {
    match FromName(presumedHashName)
    case None => UnionWithoutPresumed();
    case Some(a) => UnionWithFixedOrder(a);
  }

  /** The union of one presumed key with FIXED_ORDER, key by key. */
  lemma UnionWithFixedOrder(a: Algorithm)
    ensures KeyUnion([a], FIXED_ORDER) == [a] + Others(a)
  {
    assert [Sha256][..0] == [] && [Sha256, Md5][..1] == [Sha256] && FIXED_ORDER[..2] == [Sha256, Md5];
    match a
    case Sha256 =>
      assert KeyUnion([Sha256], [Sha256]) == [Sha256];
      assert KeyUnion([Sha256], [Sha256, Md5]) == [Sha256, Md5];
    case Md5 =>
      assert KeyUnion([Md5], [Sha256]) == [Md5, Sha256];
      assert KeyUnion([Md5], [Sha256, Md5]) == [Md5, Sha256];
    case Sha1 =>
      assert KeyUnion([Sha1], [Sha256]) == [Sha1, Sha256];
      assert KeyUnion([Sha1], [Sha256, Md5]) == [Sha1, Sha256, Md5];
  }

  /** With no presumed key the union is FIXED_ORDER itself. */
  lemma UnionWithoutPresumed()
    ensures KeyUnion([], FIXED_ORDER) == FIXED_ORDER
  {
    assert [Sha256][..0] == [] && [Sha256, Md5][..1] == [Sha256] && FIXED_ORDER[..2] == [Sha256, Md5];
    assert KeyUnion([], [Sha256]) == [Sha256];
    assert KeyUnion([], [Sha256, Md5]) == [Sha256, Md5];
  }

  /** Every candidate order has sha256 at the front or right behind the presumed algorithm. */
  lemma {:induction false} CandidateOrderShape(presumedHashName: string)
    ensures var order := CandidateOrder(presumedHashName);
      || (order[0] == Sha256 && Sha256 !in order[1..])
      || (order[0] != Sha256 && order[1] == Sha256 && order[2] != Sha256)
  {
    var order := CandidateOrder(presumedHashName);
    match FromName(presumedHashName)
    case None =>
      assert order[1..] == [Md5, Sha1];
    case Some(a) =>
      if a == Sha256 {
        assert order[1..] == [Md5, Sha1];
      }
  }

  // ---------------------------------------------------------------------
  // The loop of get_rows_with_hash, as a function
  // ---------------------------------------------------------------------

  /** The loop's variables, and the two call counters. */
  datatype ScanState = ScanState(
    sha256Hash: string,
    rows: seq<FixityRecord>,
    found: bool,
    errors: map<string, string>,
    actualName: string,
    digestCalls: nat,
    lookupCalls: nat)

  /** The values of lines 75-79, before the loop. */
  const INIT: ScanState := ScanState("", [], false, map[], "", 0, 0)

  /** The digest the source computes for `alg` on this file ("" when a read fails). */
  function DigestFor(env: Env, path: string, file: FileContent, alg: Algorithm): string
  {
    ChecksumOf(path, file, env.hexOf, alg).0
  }

  /** Whether looking up `alg`'s digest returns any record. */
  predicate Hit(env: Env, path: string, file: FileContent, alg: Algorithm)
  {
    FindChecksumInDb(env.table, DigestFor(env, path, file, alg)) != []
  }

  /** The errors every digest attempt on this file reports: none, or `{path: message}`. */
  function FileErrors(path: string, file: FileContent): map<string, string>
  {
    match file
    case Readable(_) => map[]
    case FailsAfter(_, message) => map[path := message]
  }

  /**
   * One iteration of the loop body for candidate `alg`: the new state and
   * whether the body breaks out of the loop.
   */
  function Step(env: Env, path: string, file: FileContent, alg: Algorithm, s: ScanState): (ScanState, bool)
  {
    var (checksum, errs) := ChecksumOf(path, file, env.hexOf, alg);
    var s1 := s.(errors := errs, digestCalls := s.digestCalls + 1);
    var s2 := if alg == Sha256 then s1.(sha256Hash := checksum) else s1;
    if alg == Sha256 && s2.found then (s2, true)
    else
      var rows := FindChecksumInDb(env.table, checksum);
      var found := |rows| > 0;
      var s3 := s2.(rows := rows, found := found, lookupCalls := s2.lookupCalls + 1,
                    actualName := if found then Name(alg) else s2.actualName);
      (s3, found && s3.sha256Hash != "")
  }

  /** The loop over the remaining candidates; running off the end is the `else` that clears the name. */
  function Scan(env: Env, path: string, file: FileContent, order: seq<Algorithm>, s: ScanState): ScanState
    decreases |order|
  {
    if order == [] then s.(actualName := "")
    else
      var (s', stop) := Step(env, path, file, order[0], s);
      if stop then s' else Scan(env, path, file, order[1..], s')
  }

  /** What `get_rows_with_hash(path, presumed_hash_name)` returns, with its call counts. */
  function Matching(env: Env, path: string, file: FileContent, presumedHashName: string): ScanState
  {
    Scan(env, path, file, CandidateOrder(presumedHashName), INIT)
  }

  /** Unfolding the loop once at position `i`. */
  lemma ScanUnfold(env: Env, path: string, file: FileContent, order: seq<Algorithm>, i: nat, s: ScanState)
    requires i < |order|
    ensures var (s', stop) := Step(env, path, file, order[i], s);
      Scan(env, path, file, order[i..], s) == if stop then s' else Scan(env, path, file, order[i + 1..], s')
  {
    assert order[i..][0] == order[i] && order[i..][1..] == order[i + 1..];
  }

  // ---------------------------------------------------------------------
  // The method
  // ---------------------------------------------------------------------

  /**
   * `get_rows_with_hash`: returns the sha256 digest, the matching records,
   * whether there were any, the errors of the last digest attempt and the
   * name of the algorithm that matched; the ghost results count the digest
   * computations and the lookups.
   */
  method GetRowsWithHash(env: Env, path: string, file: FileContent, presumedHashName: string)
    returns (sha256Hash: string, rowsWithHash: seq<FixityRecord>, checksumFound: bool,
             errors: map<string, string>, actualHashName: string,
             ghost digestCalls: nat, ghost lookupCalls: nat)
    ensures var m := Matching(env, path, file, presumedHashName);
      && sha256Hash == m.sha256Hash && rowsWithHash == m.rows && checksumFound == m.found
      && errors == m.errors && actualHashName == m.actualName
      && digestCalls == m.digestCalls && lookupCalls == m.lookupCalls
    ensures checksumFound <==> rowsWithHash != []
    ensures sha256Hash == DigestFor(env, path, file, Sha256)
    ensures errors == FileErrors(path, file)
  {
    var order := CandidateOrder(presumedHashName);
    sha256Hash, rowsWithHash, checksumFound, errors, actualHashName := "", [], false, map[], "";
    digestCalls, lookupCalls := 0, 0;
    // the loop's variables, as one value
    ghost var cur := INIT;
    var broke := false;
    var i := 0;
    while i < |order|
      invariant 0 <= i <= |order|
      invariant Scan(env, path, file, order[i..], cur) == Scan(env, path, file, order, INIT)
      invariant cur.sha256Hash == sha256Hash && cur.rows == rowsWithHash && cur.found == checksumFound
      invariant cur.errors == errors && cur.actualName == actualHashName
      invariant cur.digestCalls == digestCalls && cur.lookupCalls == lookupCalls
    {
      ScanUnfold(env, path, file, order, i, cur);
      ghost var next := Step(env, path, file, order[i], cur);
      var hashName := order[i];
      var checksum, errs := ChecksumWithNewHash(path, file, env.hexOf, hashName);
      errors := errs;
      digestCalls := digestCalls + 1;
      if hashName == Sha256 {
        sha256Hash := checksum;
        if checksumFound {
          // an md5 or sha1 digest matched earlier: no need to look again
          assert next.1;
          cur := next.0;
          broke := true;
          break;
        }
      }
      rowsWithHash := FindChecksumInDb(env.table, checksum);
      lookupCalls := lookupCalls + 1;
      checksumFound := |rowsWithHash| > 0;
      if checksumFound {
        actualHashName := Name(hashName);
      }
      cur := next.0;
      if checksumFound && sha256Hash != "" {
        assert next.1;
        broke := true;
        break;
      }
      i := i + 1;
    }
    if !broke {
      actualHashName := "";
      cur := cur.(actualName := "");
    }
    assert cur == Matching(env, path, file, presumedHashName);
    MatchingFoundIffRows(env, path, file, presumedHashName);
    MatchingAlwaysHashesSha256(env, path, file, presumedHashName);
    MatchingErrors(env, path, file, presumedHashName);
  }

  // ---------------------------------------------------------------------
  // What the loop guarantees
  // ---------------------------------------------------------------------

  /** `checksum_found` always says whether the returned rows are non-empty. */
  lemma {:induction false} ScanFoundIffRows(env: Env, path: string, file: FileContent, order: seq<Algorithm>, s: ScanState)
    requires s.found <==> s.rows != []
    ensures var r := Scan(env, path, file, order, s); r.found <==> r.rows != []
    decreases |order|
  {
    if order != [] {
      var (s', stop) := Step(env, path, file, order[0], s);
      if !stop {
        ScanFoundIffRows(env, path, file, order[1..], s');
      }
    }
  }

  lemma MatchingFoundIffRows(env: Env, path: string, file: FileContent, presumedHashName: string)
    ensures var m := Matching(env, path, file, presumedHashName); m.found <==> m.rows != []
  {
    ScanFoundIffRows(env, path, file, CandidateOrder(presumedHashName), INIT);
  }

  /**
   * The sha256 digest is always computed and returned: the loop cannot stop
   * early while it is still unknown, because stopping after a lookup needs it.
   */
  lemma {:induction false} ScanHashesSha256(env: Env, path: string, file: FileContent, order: seq<Algorithm>, s: ScanState)
    requires s.sha256Hash == DigestFor(env, path, file, Sha256) || (s.sha256Hash == "" && Sha256 in order)
    ensures Scan(env, path, file, order, s).sha256Hash == DigestFor(env, path, file, Sha256)
    decreases |order|
  {
    if order != [] {
      var (s', stop) := Step(env, path, file, order[0], s);
      if !stop {
        assert order == [order[0]] + order[1..];
        ScanHashesSha256(env, path, file, order[1..], s');
      }
    }
  }

  lemma MatchingAlwaysHashesSha256(env: Env, path: string, file: FileContent, presumedHashName: string)
    ensures Matching(env, path, file, presumedHashName).sha256Hash == DigestFor(env, path, file, Sha256)
  {
    var order := CandidateOrder(presumedHashName);
    assert Sha256 in multiset(order);
    ScanHashesSha256(env, path, file, order, INIT);
  }

  /** Only the last attempt's errors are returned, and every attempt on a file reports the same ones. */
  lemma {:induction false} ScanErrors(env: Env, path: string, file: FileContent, order: seq<Algorithm>, s: ScanState)
    requires order != [] || s.errors == FileErrors(path, file)
    ensures Scan(env, path, file, order, s).errors == FileErrors(path, file)
    decreases |order|
  {
    if order != [] {
      var (s', stop) := Step(env, path, file, order[0], s);
      if !stop {
        ScanErrors(env, path, file, order[1..], s');
      }
    }
  }

  lemma MatchingErrors(env: Env, path: string, file: FileContent, presumedHashName: string)
    ensures Matching(env, path, file, presumedHashName).errors == FileErrors(path, file)
  {
    ScanErrors(env, path, file, CandidateOrder(presumedHashName), INIT);
  }

  /**
   * A non-empty `actual_hash_name` names an algorithm whose digest's lookup
   * produced exactly the returned rows; no match leaves it empty.
   */
  lemma {:induction false} ScanActualName(env: Env, path: string, file: FileContent, order: seq<Algorithm>, s: ScanState)
    requires s.found ==>
      && FromName(s.actualName).Some?
      && s.rows == FindChecksumInDb(env.table, DigestFor(env, path, file, FromName(s.actualName).value))
    ensures var r := Scan(env, path, file, order, s);
      && (!r.found ==> r.actualName == "")
      && (r.actualName != "" ==>
            && r.found
            && FromName(r.actualName).Some?
            && r.rows == FindChecksumInDb(env.table, DigestFor(env, path, file, FromName(r.actualName).value)))
    decreases |order|
  {
    if order != [] {
      var (s', stop) := Step(env, path, file, order[0], s);
      NameRoundTrip(order[0], "");
      if !stop {
        ScanActualName(env, path, file, order[1..], s');
      }
    }
  }

  lemma MatchingActualName(env: Env, path: string, file: FileContent, presumedHashName: string)
    ensures var m := Matching(env, path, file, presumedHashName);
      && (!m.found ==> m.actualName == "" && m.rows == [])
      && (m.actualName != "" ==>
            && m.found
            && FromName(m.actualName).Some?
            && m.rows == FindChecksumInDb(env.table, DigestFor(env, path, file, FromName(m.actualName).value)))
  {
    ScanActualName(env, path, file, CandidateOrder(presumedHashName), INIT);
    MatchingFoundIffRows(env, path, file, presumedHashName);
  }

  // ---------------------------------------------------------------------
  // Call counts and early stop, when the sha256 digest is not empty
  // ---------------------------------------------------------------------

  /** The index of the first candidate whose digest is found, or |order| when none is. */
  function FirstHit(env: Env, path: string, file: FileContent, order: seq<Algorithm>): (k: nat)
    ensures k <= |order|
    ensures forall i :: 0 <= i < k ==> !Hit(env, path, file, order[i])
    ensures k < |order| ==> Hit(env, path, file, order[k])
    decreases |order|
  {
    if order == [] then 0
    else if Hit(env, path, file, order[0]) then 0
    else 1 + FirstHit(env, path, file, order[1..])
  }

  /**
   * The outcome the source's tests expect from a scan of `order` (with `k`
   * the first candidate that matches): no match after |order| digests and
   * lookups, or a match on `order[k]` after k + 1 lookups and k + 1 digests,
   * one more digest when sha256 still had to be computed after the match.
   */
  predicate ExpectedOutcome(env: Env, path: string, file: FileContent, order: seq<Algorithm>, m: ScanState)
  {
    var k := FirstHit(env, path, file, order);
    && (k == |order| ==>
          !m.found && m.actualName == "" && m.rows == [] && m.digestCalls == |order| && m.lookupCalls == |order|)
    && (k < |order| ==>
          && m.found
          && m.actualName == Name(order[k])
          && m.rows == FindChecksumInDb(env.table, DigestFor(env, path, file, order[k]))
          && m.lookupCalls == k + 1
          && m.digestCalls == if Sha256 in order[..k + 1] then k + 1 else k + 2)
  }

  /**
   * Once the sha256 digest is known (and not empty) and has not matched,
   * each remaining candidate costs one digest and one lookup, and the first
   * hit ends the loop.
   */
  lemma {:induction false} ScanAfterSha256(env: Env, path: string, file: FileContent, order: seq<Algorithm>, s: ScanState)
    requires s.sha256Hash != "" && !s.found && s.rows == [] && Sha256 !in order
    ensures var r := Scan(env, path, file, order, s);
      var k := FirstHit(env, path, file, order);
      && r.sha256Hash == s.sha256Hash
      && (k == |order| ==>
            && !r.found && r.actualName == "" && r.rows == []
            && r.digestCalls == s.digestCalls + |order| && r.lookupCalls == s.lookupCalls + |order|)
      && (k < |order| ==>
            && r.found && r.actualName == Name(order[k])
            && r.rows == FindChecksumInDb(env.table, DigestFor(env, path, file, order[k]))
            && r.digestCalls == s.digestCalls + k + 1 && r.lookupCalls == s.lookupCalls + k + 1)
    decreases |order|
  {
    if order != [] {
      var (s', stop) := Step(env, path, file, order[0], s);
      if !stop {
        assert order == [order[0]] + order[1..];
        ScanAfterSha256(env, path, file, order[1..], s');
      }
    }
  }

  /** An order that starts with sha256: every step is a digest and a lookup. */
  lemma Sha256FirstOutcome(env: Env, path: string, file: FileContent, order: seq<Algorithm>)
    requires DigestFor(env, path, file, Sha256) != ""
    requires |order| > 0 && order[0] == Sha256 && Sha256 !in order[1..]
    ensures ExpectedOutcome(env, path, file, order, Scan(env, path, file, order, INIT))
  {
    var (s1, stop1) := Step(env, path, file, Sha256, INIT);
    if !stop1 {
      ScanAfterSha256(env, path, file, order[1..], s1);
      var k := FirstHit(env, path, file, order);
      if k < |order| {
        assert order[..k + 1][0] == Sha256;
        assert order[k] == order[1..][k - 1];
      }
    }
  }

  /**
   * An order with sha256 second: a first-candidate match is kept while sha256
   * is computed without a lookup; otherwise every step is a digest and a lookup.
   */
  lemma Sha256SecondOutcome(env: Env, path: string, file: FileContent, order: seq<Algorithm>)
    requires DigestFor(env, path, file, Sha256) != ""
    requires |order| > 1 && order[0] != Sha256 && order[1] == Sha256 && Sha256 !in order[2..]
    ensures ExpectedOutcome(env, path, file, order, Scan(env, path, file, order, INIT))
  {
    ScanUnfold(env, path, file, order, 0, INIT);
    assert order[0..] == order;
    var (s1, stop1) := Step(env, path, file, order[0], INIT);
    ScanUnfold(env, path, file, order, 1, s1);
    var (s2, stop2) := Step(env, path, file, Sha256, s1);
    assert order[..1] == [order[0]];
    if !stop2 {
      ScanAfterSha256(env, path, file, order[2..], s2);
      var k := FirstHit(env, path, file, order);
      assert k == 2 + FirstHit(env, path, file, order[2..]) by {
        assert order[1..][1..] == order[2..];
      }
      if k < |order| {
        assert order[..k + 1][1] == Sha256;
        assert order[k] == order[2..][k - 2];
      }
    }
  }

  /**
   * The call-count table of the source's tests. With `k` the position of the
   * first candidate that matches: k + 1 digests and k + 1 lookups when sha256
   * comes no later than that candidate, 2 digests and 1 lookup when a
   * presumed md5 or sha1 matches first (sha256 is still computed but not
   * looked up); 3 and 3 when nothing matches.
   */
  lemma MatchingCallCounts(env: Env, path: string, file: FileContent, presumedHashName: string)
    requires DigestFor(env, path, file, Sha256) != ""
    ensures var order := CandidateOrder(presumedHashName);
      var m := Matching(env, path, file, presumedHashName);
      var k := FirstHit(env, path, file, order);
      && (k == 3 ==>
            !m.found && m.actualName == "" && m.rows == [] && m.digestCalls == 3 && m.lookupCalls == 3)
      && (k < 3 ==>
            && m.found
            && m.actualName == Name(order[k])
            && m.rows == FindChecksumInDb(env.table, DigestFor(env, path, file, order[k]))
            && m.lookupCalls == k + 1
            && m.digestCalls == if Sha256 in order[..k + 1] then k + 1 else k + 2)
  {
    var order := CandidateOrder(presumedHashName);
    CandidateOrderShape(presumedHashName);
    if order[0] == Sha256 {
      Sha256FirstOutcome(env, path, file, order);
    } else {
      Sha256SecondOutcome(env, path, file, order);
    }
  }

  /** A match on some algorithm, whichever it is. */
  predicate AnyHit(env: Env, path: string, file: FileContent)
  {
    Hit(env, path, file, Sha256) || Hit(env, path, file, Md5) || Hit(env, path, file, Sha1)
  }

  /**
   * The verdict does not depend on the hint: with a non-empty sha256 digest,
   * a file is found exactly when one of its three digests is in the table.
   * The hint only changes how many digests and lookups it takes.
   */
  lemma VerdictIndependentOfHint(env: Env, path: string, file: FileContent, presumedHashName: string)
    requires DigestFor(env, path, file, Sha256) != ""
    ensures Matching(env, path, file, presumedHashName).found <==> AnyHit(env, path, file)
  {
    MatchingCallCounts(env, path, file, presumedHashName);
  }

  // ---------------------------------------------------------------------
  // Unreadable files
  // ---------------------------------------------------------------------

  /** With every digest "" and no record of fixity value "", nothing ever matches. */
  lemma {:induction false} ScanUnreadable(env: Env, path: string, file: FileContent, order: seq<Algorithm>, s: ScanState)
    requires file.FailsAfter? && FindChecksumInDb(env.table, "") == []
    requires !s.found && s.rows == [] && s.sha256Hash == ""
    ensures var r := Scan(env, path, file, order, s);
      && !r.found && r.rows == [] && r.actualName == "" && r.sha256Hash == ""
      && r.digestCalls == s.digestCalls + |order| && r.lookupCalls == s.lookupCalls + |order|
    decreases |order|
  {
    if order != [] {
      var (s', stop) := Step(env, path, file, order[0], s);
      ScanUnreadable(env, path, file, order[1..], s');
    }
  }

  /**
   * A read error does not stop the loop: every digest is "", and "" is still
   * looked up. When no record has an empty fixity value the file is
   * unmatched after three digests and three lookups.
   */
  lemma UnreadableFileUnmatched(env: Env, path: string, file: FileContent, presumedHashName: string)
    requires file.FailsAfter? && FindChecksumInDb(env.table, "") == []
    ensures var m := Matching(env, path, file, presumedHashName);
      && !m.found && m.rows == [] && m.actualName == "" && m.sha256Hash == ""
      && m.errors == map[path := file.message]
      && m.digestCalls == 3 && m.lookupCalls == 3
  {
    MatchingErrors(env, path, file, presumedHashName);
    ScanUnreadable(env, path, file, CandidateOrder(presumedHashName), INIT);
  }

  /** With every digest "" and some record of fixity value "", the first lookup matches and the match stays. */
  lemma {:induction false} ScanUnreadableEmptyFixity(env: Env, path: string, file: FileContent, order: seq<Algorithm>, s: ScanState)
    requires file.FailsAfter? && FindChecksumInDb(env.table, "") != []
    requires s.sha256Hash == "" && (s.found ==> s.rows == FindChecksumInDb(env.table, ""))
    requires order != [] || s.found
    ensures var r := Scan(env, path, file, order, s);
      r.found && r.rows == FindChecksumInDb(env.table, "") && r.sha256Hash == ""
    decreases |order|
  {
    if order != [] {
      var (s', stop) := Step(env, path, file, order[0], s);
      if !stop {
        ScanUnreadableEmptyFixity(env, path, file, order[1..], s');
      }
    }
  }

  /**
   * When the table holds a record with an empty fixity value, an unreadable
   * file is reported as found, with those records as its matches. Every
   * lookup of "" hits but none can stop the loop, since the sha256 digest is
   * "": with sha256 first the loop runs off its end, which clears the name,
   * after three digests and three lookups; with a presumed md5 or sha1 the
   * sha256 step breaks on the earlier hit, keeping the presumed name, after
   * two digests and one lookup.
   */
  lemma UnreadableFileMatchesEmptyFixity(env: Env, path: string, file: FileContent, presumedHashName: string)
    requires file.FailsAfter? && FindChecksumInDb(env.table, "") != []
    ensures var m := Matching(env, path, file, presumedHashName);
      m.found && m.rows == FindChecksumInDb(env.table, "") && m.sha256Hash == ""
    ensures var m := Matching(env, path, file, presumedHashName);
      (FromName(presumedHashName).None? || FromName(presumedHashName) == Some(Sha256)) ==>
        m.actualName == "" && m.digestCalls == 3 && m.lookupCalls == 3
    ensures var m := Matching(env, path, file, presumedHashName);
      (FromName(presumedHashName) == Some(Md5) || FromName(presumedHashName) == Some(Sha1)) ==>
        m.actualName == presumedHashName && m.digestCalls == 2 && m.lookupCalls == 1
  {
    var order := CandidateOrder(presumedHashName);
    ScanUnreadableEmptyFixity(env, path, file, order, INIT);
    var (s1, stop1) := Step(env, path, file, order[0], INIT);
    var (s2, stop2) := Step(env, path, file, order[1], s1);
    ScanUnfold(env, path, file, order, 0, INIT);
    ScanUnfold(env, path, file, order, 1, s1);
    assert order[0..] == order;
    if order[0] == Sha256 {
      var (s3, stop3) := Step(env, path, file, order[2], s2);
      ScanUnfold(env, path, file, order, 2, s2);
      assert order[3..] == [];
    }
  }
}
