/**
 * The fixity lookup: an exact-match query on the `fixity_value` column of the
 * reference table, whatever the record's algorithm name.
 */
module Lookup {
  import opened Fixity

  /** The statement prefix built in `HoldingVerificationCore.__init__` for a table. */
  function SelectStatement(tableName: string): string
  {
    "SELECT file_ref, fixity_value, algorithm_name FROM " + tableName + " WHERE \"fixity_value\" "
  }

  /** The text `find_checksum_in_db` executes: the prefix, then `= "<hash>";`. */
  function QueryText(selectStatement: string, fileHash: string): string
  {
    selectStatement + "= \"" + fileHash + "\";"
  }

  /** The hash a query text compares against: what lies between `= "` and `";`. */
  function QueriedHash(selectStatement: string, query: string): string
    requires |query| >= |selectStatement| + 5
  {
    query[|selectStatement| + 3..|query| - 2]
  }

  /**
   * The query is the select prefix, then `= "`, then the hash it was built
   * from, then `";`, and nothing else.
   */
  lemma QueryTextNamesHash(selectStatement: string, fileHash: string)
    ensures var q := QueryText(selectStatement, fileHash);
      && |q| == |selectStatement| + |fileHash| + 5
      && q[..|selectStatement|] == selectStatement
      && q[|selectStatement|..|selectStatement| + 3] == "= \""
      && QueriedHash(selectStatement, q) == fileHash
      && q[|q| - 2..] == "\";"
  {
    var q := QueryText(selectStatement, fileHash);
    assert q[|selectStatement|..|selectStatement| + 3] == "= \"";
    assert q[|selectStatement| + 3..|q| - 2] == fileHash;
    assert q[|q| - 2..] == "\";";
  }

  /** The statement the source's test expects for table `files_in_dri` and hash `mock_hash`. */
  lemma QueryTextExample()
    ensures QueryText(SelectStatement("files_in_dri"), "mock_hash")
         == "SELECT file_ref, fixity_value, algorithm_name FROM files_in_dri WHERE \"fixity_value\" = \"mock_hash\";"
  {
    var select := SelectStatement("files_in_dri");
    assert select == "SELECT file_ref, fixity_value, algorithm_name FROM files_in_dri WHERE \"fixity_value\" ";
    assert select + "= \"" == "SELECT file_ref, fixity_value, algorithm_name FROM files_in_dri WHERE \"fixity_value\" = \"";
  }

  /** `find_checksum_in_db`: the records of `table` whose fixity value is `fileHash`, in table order. */
  function FindChecksumInDb(table: seq<FixityRecord>, fileHash: string): seq<FixityRecord>
  {
    if table == [] then []
    else
      var rest := FindChecksumInDb(table[..|table| - 1], fileHash);
      var last := table[|table| - 1];
      if last.fixityValue == fileHash then rest + [last] else rest
  }

  /** Each record is returned as many times as the table holds it when its fixity value matches, and never otherwise. */
  lemma {:induction false} FindChecksumInDbCounts(table: seq<FixityRecord>, fileHash: string)
    ensures var rows := FindChecksumInDb(table, fileHash);
      && (forall r :: multiset(rows)[r] == if r.fixityValue == fileHash then multiset(table)[r] else 0)
      && |rows| <= |table|
    decreases |table|
  {
    if table != [] {
      FindChecksumInDbCounts(table[..|table| - 1], fileHash);
      assert table == table[..|table| - 1] + [table[|table| - 1]];
    }
  }

  /**
   * The lookup returns exactly the records with that fixity value, each as
   * many times as the table holds it, and nothing else.
   */
  lemma FindChecksumInDbMatches(table: seq<FixityRecord>, fileHash: string)
    ensures var rows := FindChecksumInDb(table, fileHash);
      && (forall r :: r in rows <==> r in table && r.fixityValue == fileHash)
      && (forall r :: multiset(rows)[r] == if r.fixityValue == fileHash then multiset(table)[r] else 0)
      && |rows| <= |table|
  {
    var rows := FindChecksumInDb(table, fileHash);
    FindChecksumInDbCounts(table, fileHash);
    forall r
      ensures r in rows <==> r in table && r.fixityValue == fileHash
    {
      assert r in rows <==> r in multiset(rows);
      assert r in table <==> r in multiset(table);
    }
  }

  /** Looking up a hash over a table split in two looks it up in each part, in order. */
  lemma {:induction false} FindOverConcat(t1: seq<FixityRecord>, t2: seq<FixityRecord>, fileHash: string)
    ensures FindChecksumInDb(t1 + t2, fileHash) == FindChecksumInDb(t1, fileHash) + FindChecksumInDb(t2, fileHash)
    decreases |t2|
  {
    if t2 != [] {
      var t2' := t2[..|t2| - 1];
      assert (t1 + t2)[..|t1 + t2| - 1] == t1 + t2';
      FindOverConcat(t1, t2', fileHash);
    } else {
      assert t1 + t2 == t1;
    }
  }
}
