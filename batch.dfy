/**
 * The batch driver: `run` checks one file and records it (a CSV row, the
 * tally, the error list, the hint for the next file); `start` names the
 * report, walks the selection calling `run` on every file in order, closes
 * the report and renames it.
 *
 * `Batch` folds `Visit` over the files in the order they are visited and is
 * the specification both methods are proved against.
 */
module Batch {
  import opened Wrappers
  import opened Fixity
  import opened Text
  import opened Digest
  import opened Lookup
  import opened Matcher
  import opened Report

  /** What `Path(path).stat()` and `open(path)` see of a local file. */
  datatype LocalFile = LocalFile(size: nat, content: FileContent)

  /** One (dirpath, dirnames, filenames) triple of `Path.walk`; the sub-directory names are not used. */
  datatype WalkEntry = WalkEntry(directDir: string, filesInDir: seq<string>)

  /** One row of the report, in column order. */
  datatype ReportRow = ReportRow(
    path: string,
    fileSize: nat,
    inArchive: bool,
    sha256Hash: string,
    matchingFileRefs: string,
    matchingAlgorithmName: string,
    matchingAlgorithmHash: string)

  datatype CsvLine = HeaderLine(titles: seq<string>) | FileLine(row: ReportRow)

  const HEADER: seq<string> := [
    "Local File Path", "File Size (Bytes)", "In Preservica/DRI", "SHA256 Hash",
    "Matching File Refs", "Matching Algorithm Name", "Matching Algorithm Hash"]

  /** The value `start` returns. */
  datatype ResultSummary = ResultSummary(
    filesProcessed: nat,
    tally: map<bool, nat>,
    allFileErrors: seq<map<string, string>>,
    outputCsvName: string)

  // ---------------------------------------------------------------------
  // The row of one file
  // ---------------------------------------------------------------------

  /** The file_ref of each record, in order. */
  function FileRefs(rows: seq<FixityRecord>): (refs: seq<string>)
    ensures |refs| == |rows|
    ensures forall i :: 0 <= i < |rows| ==> refs[i] == rows[i].fileRef
  {
    if rows == [] then [] else FileRefs(rows[..|rows| - 1]) + [rows[|rows| - 1].fileRef]
  }

  /** The set `{row[1] for row in rows}`, each value once, in order of first occurrence. */
  function DistinctFixityValues(rows: seq<FixityRecord>): seq<string>
  {
    if rows == [] then []
    else
      var init := DistinctFixityValues(rows[..|rows| - 1]);
      var v := rows[|rows| - 1].fixityValue;
      if v in init then init else init + [v]
  }

  /** `", ".join(row[0] for row in rows_with_hash)`. */
  function MatchingFileRefs(rows: seq<FixityRecord>): string
  {
    Join(", ", FileRefs(rows))
  }

  /** `"".join({row[1] for row in rows_with_hash})`. */
  function MatchingAlgorithmHash(rows: seq<FixityRecord>): string
  {
    Join("", DistinctFixityValues(rows))
  }

  /** Records that all carry one fixity value have that value as their only distinct one. */
  lemma {:induction false} DistinctOfOneValue(rows: seq<FixityRecord>, h: string)
    requires forall i :: 0 <= i < |rows| ==> rows[i].fixityValue == h
    ensures DistinctFixityValues(rows) == if rows == [] then [] else [h]
    decreases |rows|
  {
    if rows != [] {
      DistinctOfOneValue(rows[..|rows| - 1], h);
    }
  }

  /**
   * The records of one lookup all carry the hash looked up, so the
   * "Matching Algorithm Hash" column is that hash, or "" when nothing matched;
   * the order in which Python iterates the set does not matter.
   */
  lemma MatchingHashIsLookedUpHash(table: seq<FixityRecord>, fileHash: string)
    ensures var rows := FindChecksumInDb(table, fileHash);
      MatchingAlgorithmHash(rows) == if rows == [] then "" else fileHash
  {
    var rows := FindChecksumInDb(table, fileHash);
    FindChecksumInDbMatches(table, fileHash);
    forall i | 0 <= i < |rows|
      ensures rows[i].fixityValue == fileHash
    {
      assert rows[i] in rows;
    }
    DistinctOfOneValue(rows, fileHash);
  }

  /** The row `run` writes for a file with the given matching result. */
  function RowFor(path: string, fileSize: nat, m: ScanState): ReportRow
  {
    ReportRow(path, fileSize, m.found, m.sha256Hash, MatchingFileRefs(m.rows), m.actualName,
              MatchingAlgorithmHash(m.rows))
  }

  /**
   * What a row says about its file: the sha256 column is the file's sha256
   * digest; an unmatched file has empty match columns; a named algorithm
   * comes with the digest of that algorithm and one file_ref per matching record.
   */
  lemma RowForMatching(env: Env, path: string, file: FileContent, fileSize: nat, hint: string)
    ensures var m := Matching(env, path, file, hint);
      var row := RowFor(path, fileSize, m);
      && row.sha256Hash == DigestFor(env, path, file, Sha256)
      && (row.inArchive <==> m.rows != [])
      && (!row.inArchive ==>
            row.matchingFileRefs == "" && row.matchingAlgorithmName == "" && row.matchingAlgorithmHash == "")
      && (row.matchingAlgorithmName != "" ==>
            && row.inArchive
            && FromName(row.matchingAlgorithmName).Some?
            && row.matchingAlgorithmHash == DigestFor(env, path, file, FromName(row.matchingAlgorithmName).value)
            && |FileRefs(m.rows)| == |m.rows|)
  {
    var m := Matching(env, path, file, hint);
    MatchingFoundIffRows(env, path, file, hint);
    MatchingAlwaysHashesSha256(env, path, file, hint);
    MatchingActualName(env, path, file, hint);
    if m.actualName != "" {
      MatchingHashIsLookedUpHash(env.table, DigestFor(env, path, file, FromName(m.actualName).value));
    }
  }

  // ---------------------------------------------------------------------
  // The objects run updates
  // ---------------------------------------------------------------------

  /** `tally[key]` of a `defaultdict(int)`: 0 for a key never incremented. */
  function Count(counts: map<bool, nat>, key: bool): nat
  {
    if key in counts then counts[key] else 0
  }

  /** The `defaultdict(int)` counting files by whether they were found. */
  class Tally {
    var counts: map<bool, nat>

    constructor ()
      ensures counts == map[]
    {
      counts := map[];
    }

    /** `tally[key] += 1`: the key appears, with its count one higher. */
    method Increment(key: bool)
      modifies this
      ensures counts == old(counts)[key := Count(old(counts), key) + 1]
    {
      counts := counts[key := Count(counts, key) + 1];
    }
  }

  /** The list `all_file_errors` of per-file error dictionaries. */
  class ErrorLog {
    var entries: seq<map<string, string>>

    constructor ()
      ensures entries == []
    {
      entries := [];
    }

    method Append(errors: map<string, string>)
      modifies this
      ensures entries == old(entries) + [errors]
    {
      entries := entries + [errors];
    }
  }

  /** The report file and its csv writer: its name, the lines written, and whether it is open. */
  class CsvReport {
    var fileName: string
    var lines: seq<CsvLine>
    var isOpen: bool

    /** `open(fileName, "w")`: a new, empty, open file. */
    constructor (fileName: string)
      ensures this.fileName == fileName && lines == [] && isOpen
    {
      this.fileName := fileName;
      lines := [];
      isOpen := true;
    }

    /** `csv_writer.writerow(...)`. */
    method WriteRow(line: CsvLine)
      requires isOpen
      modifies this
      ensures lines == old(lines) + [line]
      ensures fileName == old(fileName) && isOpen
    {
      lines := lines + [line];
    }

    /** `csv_file.close()`. */
    method Close()
      modifies this
      ensures !isOpen
      ensures fileName == old(fileName) && lines == old(lines)
    {
      isOpen := false;
    }

    /**
     * `os.rename(fileName, newName)`. Whether the operating system allows it
     * is an input; on failure the file keeps its name.
     */
    method Rename(newName: string, succeeds: bool) returns (ok: bool)
      modifies this
      ensures ok == succeeds
      ensures fileName == if succeeds then newName else old(fileName)
      ensures lines == old(lines) && isOpen == old(isOpen)
    {
      ok := succeeds;
      if succeeds {
        fileName := newName;
      }
    }
  }

  // ---------------------------------------------------------------------
  // run
  // ---------------------------------------------------------------------

  /**
   * `run`: matches the file, counts it in the tally, writes its row, keeps
   * its errors when there are any, and returns the algorithm to try first on
   * the next file: the one that matched, or the same hint again.
   */
  method Run(env: Env, fs: map<string, LocalFile>, path: string, fileHashName: string,
             allFileErrors: ErrorLog, csvWriter: CsvReport, tally: Tally)
    returns (startingHashNameForNextFile: string)
    requires path in fs && csvWriter.isOpen
    modifies allFileErrors, csvWriter, tally
    ensures var m := Matching(env, path, fs[path].content, fileHashName);
      && csvWriter.lines == old(csvWriter.lines) + [FileLine(RowFor(path, fs[path].size, m))]
      && csvWriter.fileName == old(csvWriter.fileName) && csvWriter.isOpen
      && tally.counts == old(tally.counts)[m.found := Count(old(tally.counts), m.found) + 1]
      && allFileErrors.entries == old(allFileErrors.entries) + (if m.errors == map[] then [] else [m.errors])
      && startingHashNameForNextFile == if m.found then m.actualName else fileHashName
  {
    var fileSize := fs[path].size;
    // a file over 500_000_000 bytes only gets a console message
    ghost var digestCalls: nat, lookupCalls: nat;
    var sha256Hash, rowsWithHash, checksumFound, errorsGeneratingChecksum, checksumFoundName;
    sha256Hash, rowsWithHash, checksumFound, errorsGeneratingChecksum, checksumFoundName, digestCalls, lookupCalls :=
      GetRowsWithHash(env, path, fs[path].content, fileHashName);
    tally.Increment(checksumFound);
    var fileRefs := MatchingFileRefs(rowsWithHash);
    var checksumValue := MatchingAlgorithmHash(rowsWithHash);
    var row := ReportRow(path, fileSize, checksumFound, sha256Hash, fileRefs, checksumFoundName, checksumValue);
    csvWriter.WriteRow(FileLine(row));
    if errorsGeneratingChecksum != map[] {
      allFileErrors.Append(errorsGeneratingChecksum);
    }
    startingHashNameForNextFile := if checksumFound then checksumFoundName else fileHashName;
  }

  // ---------------------------------------------------------------------
  // The batch, as a fold over the visited files
  // ---------------------------------------------------------------------

  /** The hint, tally, error list and rows after some files. */
  datatype BatchState = BatchState(
    hint: string,
    tally: map<bool, nat>,
    errors: seq<map<string, string>>,
    rows: seq<ReportRow>)

  /** Before the first file: the hint is "sha256", because newer files have sha256 hashes. */
  const START: BatchState := BatchState("sha256", map[], [], [])

  predicate AllExist(fs: map<string, LocalFile>, paths: seq<string>)
  {
    forall p :: p in paths ==> p in fs
  }

  /** What `run` records for a file of size `fileSize` whose matching result is `m`. */
  function Record(st: BatchState, path: string, fileSize: nat, m: ScanState): BatchState
  {
    BatchState(
      if m.found then m.actualName else st.hint,
      st.tally[m.found := Count(st.tally, m.found) + 1],
      st.errors + (if m.errors == map[] then [] else [m.errors]),
      st.rows + [RowFor(path, fileSize, m)])
  }

  /** The effect of `run` on one file. */
  function Visit(env: Env, fs: map<string, LocalFile>, path: string, st: BatchState): BatchState
    requires path in fs
  {
    Record(st, path, fs[path].size, Matching(env, path, fs[path].content, st.hint))
  }

  /** The state after visiting `paths` in order, starting from START. */
  function Batch(env: Env, fs: map<string, LocalFile>, paths: seq<string>): BatchState
    requires AllExist(fs, paths)
    decreases |paths|, 1
  {
    if paths == [] then START else VisitLast(env, fs, paths)
  }

  /** The last file of `paths`, visited after the others. */
  function VisitLast(env: Env, fs: map<string, LocalFile>, paths: seq<string>): BatchState
    requires paths != [] && AllExist(fs, paths)
    decreases |paths|, 0
  {
    Visit(env, fs, paths[|paths| - 1], Batch(env, fs, paths[..|paths| - 1]))
  }

  /** The last file is visited after all the others. */
  lemma BatchLast(env: Env, fs: map<string, LocalFile>, paths: seq<string>)
    requires AllExist(fs, paths) && paths != []
    ensures Batch(env, fs, paths) == Visit(env, fs, paths[|paths| - 1], Batch(env, fs, paths[..|paths| - 1]))
  {
  }

  /** The rows after `paths` are the rows after all but the last file, then the last file's row. */
  lemma BatchRowsSnoc(env: Env, fs: map<string, LocalFile>, paths: seq<string>)
    requires AllExist(fs, paths) && paths != []
    ensures var init := paths[..|paths| - 1];
      var last := paths[|paths| - 1];
      Batch(env, fs, paths).rows
        == Batch(env, fs, init).rows + [RowFor(last, fs[last].size, Matching(env, last, fs[last].content, Batch(env, fs, init).hint))]
  {
    BatchLast(env, fs, paths);
  }

  /** Visiting one more file. */
  lemma BatchSnoc(env: Env, fs: map<string, LocalFile>, paths: seq<string>, path: string)
    requires AllExist(fs, paths) && path in fs
    ensures AllExist(fs, paths + [path])
    ensures Batch(env, fs, paths + [path]) == Visit(env, fs, path, Batch(env, fs, paths))
  {
    assert (paths + [path])[..|paths|] == paths;
  }

  /** The lines of the report after the header. */
  function FileLines(rows: seq<ReportRow>): (lines: seq<CsvLine>)
    ensures |lines| == |rows|
    ensures forall i :: 0 <= i < |rows| ==> lines[i] == FileLine(rows[i])
  {
    if rows == [] then [] else FileLines(rows[..|rows| - 1]) + [FileLine(rows[|rows| - 1])]
  }

  /**
   * One row per file, in visiting order; the row of the i-th file is matched
   * with the hint left by the files before it.
   */
  lemma {:induction false} BatchRows(env: Env, fs: map<string, LocalFile>, paths: seq<string>)
    requires AllExist(fs, paths)
    ensures var rows := Batch(env, fs, paths).rows;
      && |rows| == |paths|
      && forall i :: 0 <= i < |paths| ==>
           var hint := Batch(env, fs, paths[..i]).hint;
           rows[i] == RowFor(paths[i], fs[paths[i]].size, Matching(env, paths[i], fs[paths[i]].content, hint))
    decreases |paths|
  {
    if paths != [] {
      var init := paths[..|paths| - 1];
      var last := paths[|paths| - 1];
      BatchRows(env, fs, init);
      BatchRowsSnoc(env, fs, paths);
      var rows := Batch(env, fs, paths).rows;
      var rows0 := Batch(env, fs, init).rows;
      forall i | 0 <= i < |paths|
        ensures var hint := Batch(env, fs, paths[..i]).hint;
          rows[i] == RowFor(paths[i], fs[paths[i]].size, Matching(env, paths[i], fs[paths[i]].content, hint))
      {
        if i < |init| {
          assert paths[..i] == init[..i] && paths[i] == init[i] && rows[i] == rows0[i];
        } else {
          assert paths[..i] == init && paths[i] == last;
        }
      }
    }
  }

  /** The number of rows whose "In Preservica/DRI" column is `found`. */
  function CountRows(rows: seq<ReportRow>, found: bool): nat
  {
    if rows == [] then 0
    else CountRows(rows[..|rows| - 1], found) + (if rows[|rows| - 1].inArchive == found then 1 else 0)
  }

  /**
   * The tally counts the rows by their "In Preservica/DRI" column and holds
   * a key only once some row was counted under it.
   */
  predicate TallyCountsRows(st: BatchState)
  {
    && (forall b :: Count(st.tally, b) == CountRows(st.rows, b))
    && (forall b :: b in st.tally <==> CountRows(st.rows, b) > 0)
  }

  /** Recording one more file keeps the tally in step with the rows. */
  lemma RecordTally(st: BatchState, path: string, fileSize: nat, m: ScanState)
    requires TallyCountsRows(st)
    ensures TallyCountsRows(Record(st, path, fileSize, m))
  {
    var st' := Record(st, path, fileSize, m);
    assert st'.rows[..|st'.rows| - 1] == st.rows;
  }

  /** Every row counts under exactly one key. */
  lemma {:induction false} CountRowsSplit(rows: seq<ReportRow>)
    ensures CountRows(rows, true) + CountRows(rows, false) == |rows|
    decreases |rows|
  {
    if rows != [] {
      CountRowsSplit(rows[..|rows| - 1]);
    }
  }

  /**
   * The tally counts the rows by their "In Preservica/DRI" column, holds a
   * key only once some file was counted under it, and counts every file once.
   */
  lemma {:induction false} BatchTally(env: Env, fs: map<string, LocalFile>, paths: seq<string>)
    requires AllExist(fs, paths)
    ensures var st := Batch(env, fs, paths);
      && (forall b :: Count(st.tally, b) == CountRows(st.rows, b))
      && (forall b :: b in st.tally <==> CountRows(st.rows, b) > 0)
      && Count(st.tally, true) + Count(st.tally, false) == |paths|
    decreases |paths|
  {
    BatchTallyInvariant(env, fs, paths);
    BatchRows(env, fs, paths);
    CountRowsSplit(Batch(env, fs, paths).rows);
  }

  lemma {:induction false} BatchTallyInvariant(env: Env, fs: map<string, LocalFile>, paths: seq<string>)
    requires AllExist(fs, paths)
    ensures TallyCountsRows(Batch(env, fs, paths))
    decreases |paths|
  {
    if paths != [] {
      var init := paths[..|paths| - 1];
      var p := paths[|paths| - 1];
      BatchTallyInvariant(env, fs, init);
      var st0 := Batch(env, fs, init);
      RecordTally(st0, p, fs[p].size, Matching(env, p, fs[p].content, st0.hint));
    }
  }

  /** The read errors of the unreadable files among `paths`, in order, one dictionary each. */
  function ReadErrors(fs: map<string, LocalFile>, paths: seq<string>): seq<map<string, string>>
    requires AllExist(fs, paths)
    decreases |paths|
  {
    if paths == [] then []
    else
      var p := paths[|paths| - 1];
      ReadErrors(fs, paths[..|paths| - 1])
        + match fs[p].content
          case Readable(_) => []
          case FailsAfter(_, message) => [map[p := message]]
  }

  /** `all_file_errors` holds exactly the read errors, in visiting order; readable files add nothing. */
  lemma {:induction false} BatchErrors(env: Env, fs: map<string, LocalFile>, paths: seq<string>)
    requires AllExist(fs, paths)
    ensures Batch(env, fs, paths).errors == ReadErrors(fs, paths)
    decreases |paths|
  {
    if paths != [] {
      var init := paths[..|paths| - 1];
      var p := paths[|paths| - 1];
      BatchErrors(env, fs, init);
      MatchingErrors(env, path := p, file := fs[p].content, presumedHashName := Batch(env, fs, init).hint);
      if fs[p].content.FailsAfter? {
        assert p in map[p := fs[p].content.message];
      }
    }
  }

  /**
   * The hint is always an algorithm name or "". It becomes "" after an
   * unreadable file that matches a record with an empty fixity value under
   * an order that starts with sha256: the loop then runs off its end, which
   * clears the name.
   */
  lemma {:induction false} BatchHint(env: Env, fs: map<string, LocalFile>, paths: seq<string>)
    requires AllExist(fs, paths)
    ensures var hint := Batch(env, fs, paths).hint; hint == "" || FromName(hint).Some?
    decreases |paths|
  {
    if paths != [] {
      var init := paths[..|paths| - 1];
      var p := paths[|paths| - 1];
      BatchHint(env, fs, init);
      MatchingActualName(env, p, fs[p].content, Batch(env, fs, init).hint);
      NameRoundTrip(Sha256, "sha256");
    }
  }

  /** With every file's sha256 digest non-empty, the hint is always an algorithm name. */
  lemma {:induction false} BatchHintKnown(env: Env, fs: map<string, LocalFile>, paths: seq<string>)
    requires AllExist(fs, paths)
    requires forall p :: p in paths ==> DigestFor(env, p, fs[p].content, Sha256) != ""
    ensures FromName(Batch(env, fs, paths).hint).Some?
    decreases |paths|
  {
    if paths != [] {
      var init := paths[..|paths| - 1];
      var p := paths[|paths| - 1];
      assert forall q :: q in init ==> q in paths;
      BatchHintKnown(env, fs, init);
      var hint := Batch(env, fs, init).hint;
      MatchingCallCounts(env, p, fs[p].content, hint);
      var order := CandidateOrder(hint);
      var k := FirstHit(env, p, fs[p].content, order);
      if k < 3 {
        NameRoundTrip(order[k], "");
      }
    }
  }

  // ---------------------------------------------------------------------
  // The visiting order
  // ---------------------------------------------------------------------

  /** `direct_dir / file_name` for each file of one directory. */
  function FilesIn(dir: string, names: seq<string>): (files: seq<string>)
    ensures |files| == |names|
    ensures forall k :: 0 <= k < |names| ==> files[k] == JoinPath(dir, names[k])
  {
    if names == [] then []
    else FilesIn(dir, names[..|names| - 1]) + [JoinPath(dir, names[|names| - 1])]
  }

  /** The files of a walk, directory by directory. */
  function WalkedFiles(entries: seq<WalkEntry>): seq<string>
  {
    if entries == [] then []
    else
      var e := entries[|entries| - 1];
      WalkedFiles(entries[..|entries| - 1]) + FilesIn(e.directDir, e.filesInDir)
  }

  /** The files under each selected folder, folder by folder. */
  function FilesUnder(walk: string -> seq<WalkEntry>, paths: seq<string>): seq<string>
  {
    if paths == [] then []
    else FilesUnder(walk, paths[..|paths| - 1]) + WalkedFiles(walk(paths[|paths| - 1]))
  }

  /** The files `start` passes to `run`, in order. */
  function VisitOrder(selection: Selection, walk: string -> seq<WalkEntry>): seq<string>
  {
    if selection.areDirectories then FilesUnder(walk, selection.paths) else selection.paths
  }

  lemma InWalkedFiles(entries: seq<WalkEntry>, j: nat, x: string)
    requires j < |entries| && x in FilesIn(entries[j].directDir, entries[j].filesInDir)
    ensures x in WalkedFiles(entries)
    decreases |entries|
  {
    if j < |entries| - 1 {
      InWalkedFiles(entries[..|entries| - 1], j, x);
    }
  }

  lemma InFilesUnder(walk: string -> seq<WalkEntry>, paths: seq<string>, i: nat, x: string)
    requires i < |paths| && x in WalkedFiles(walk(paths[i]))
    ensures x in FilesUnder(walk, paths)
    decreases |paths|
  {
    if i < |paths| - 1 {
      InFilesUnder(walk, paths[..|paths| - 1], i, x);
    }
  }

  /** The files of one more walk entry follow those of the entries before it, and all exist. */
  lemma WalkStep(fs: map<string, LocalFile>, visited: seq<string>, entries: seq<WalkEntry>, j: nat)
    requires j < |entries| && AllExist(fs, WalkedFiles(entries))
    ensures var files := FilesIn(entries[j].directDir, entries[j].filesInDir);
      && visited + WalkedFiles(entries[..j + 1]) == (visited + WalkedFiles(entries[..j])) + files
      && |WalkedFiles(entries[..j + 1])| == |WalkedFiles(entries[..j])| + |entries[j].filesInDir|
      && AllExist(fs, files)
      && (files == [] ==> visited + WalkedFiles(entries[..j + 1]) == visited + WalkedFiles(entries[..j]))
  {
    var files := FilesIn(entries[j].directDir, entries[j].filesInDir);
    assert entries[..j + 1][..j] == entries[..j];
    assert WalkedFiles(entries[..j + 1]) == WalkedFiles(entries[..j]) + files;
    forall x | x in files
      ensures x in fs
    {
      InWalkedFiles(entries, j, x);
    }
  }

  /** The files under one more selected folder follow those under the folders before it, and all exist. */
  lemma FoldersStep(fs: map<string, LocalFile>, visited: seq<string>, walk: string -> seq<WalkEntry>, paths: seq<string>, i: nat)
    requires i < |paths| && AllExist(fs, FilesUnder(walk, paths))
    ensures var files := WalkedFiles(walk(paths[i]));
      && visited + FilesUnder(walk, paths[..i + 1]) == (visited + FilesUnder(walk, paths[..i])) + files
      && |FilesUnder(walk, paths[..i + 1])| == |FilesUnder(walk, paths[..i])| + |files|
      && AllExist(fs, files)
  {
    var files := WalkedFiles(walk(paths[i]));
    assert paths[..i + 1][..i] == paths[..i];
    assert FilesUnder(walk, paths[..i + 1]) == FilesUnder(walk, paths[..i]) + files;
    forall x | x in files
      ensures x in fs
    {
      InFilesUnder(walk, paths, i, x);
    }
  }

  // ---------------------------------------------------------------------
  // start
  // ---------------------------------------------------------------------

  /**
   * `get_csv_output_writer_and_file_name`: opens the in-progress report and
   * writes its header.
   */
  method GetCsvOutputWriterAndFileName(core: Core, dirs: string, date: string)
    returns (csvFile: CsvReport, outputCsvName: string)
    ensures fresh(csvFile)
    ensures outputCsvName == OutputCsvName(core.csvFileNamePrefix, dirs, date)
    ensures csvFile.fileName == outputCsvName && csvFile.lines == [HeaderLine(HEADER)] && csvFile.isOpen
  {
    outputCsvName := OutputCsvName(core.csvFileNamePrefix, dirs, date);
    csvFile := new CsvReport(outputCsvName);
    csvFile.WriteRow(HeaderLine(HEADER));
  }

  /** The batch state and the hint, tally, error list and report lines `start` keeps agree. */
  predicate Agrees(st: BatchState, hint: string, counts: map<bool, nat>, entries: seq<map<string, string>>, lines: seq<CsvLine>)
  {
    && st.hint == hint
    && st.tally == counts
    && st.errors == entries
    && lines == [HeaderLine(HEADER)] + FileLines(st.rows)
  }

  /** The batch state and the objects `start` keeps agree. */
  ghost predicate Mirrors(st: BatchState, hint: string, tally: Tally, errors: ErrorLog, csv: CsvReport)
    reads tally, errors, csv
  {
    Agrees(st, hint, tally.counts, errors.entries, csv.lines)
  }

  /** What `run` does to the objects is what Record does to the state. */
  lemma RecordAgrees(st: BatchState, hint: string, counts: map<bool, nat>, entries: seq<map<string, string>>,
                     lines: seq<CsvLine>, path: string, fileSize: nat, m: ScanState)
    requires Agrees(st, hint, counts, entries, lines)
    ensures Agrees(Record(st, path, fileSize, m),
                   if m.found then m.actualName else hint,
                   counts[m.found := Count(counts, m.found) + 1],
                   entries + (if m.errors == map[] then [] else [m.errors]),
                   lines + [FileLine(RowFor(path, fileSize, m))])
  {
    FileLinesSnoc(st.rows, RowFor(path, fileSize, m));
  }

  /** Writing one more row appends its line. */
  lemma FileLinesSnoc(rows: seq<ReportRow>, row: ReportRow)
    ensures FileLines(rows + [row]) == FileLines(rows) + [FileLine(row)]
  {
    assert (rows + [row])[..|rows|] == rows;
  }

  /**
   * One iteration of the loops of `start`: `run` on the next file, which
   * keeps the objects in step with the fold over the files visited so far.
   */
  method VisitFile(env: Env, fs: map<string, LocalFile>, ghost visited: seq<string>, path: string,
                   hint: string, allFileErrors: ErrorLog, csvFile: CsvReport, tally: Tally)
    returns (nextHint: string)
    requires AllExist(fs, visited) && path in fs && csvFile.isOpen
    requires Mirrors(Batch(env, fs, visited), hint, tally, allFileErrors, csvFile)
    modifies allFileErrors, csvFile, tally
    ensures AllExist(fs, visited + [path])
    ensures Mirrors(Batch(env, fs, visited + [path]), nextHint, tally, allFileErrors, csvFile)
    ensures csvFile.isOpen && csvFile.fileName == old(csvFile.fileName)
  {
    ghost var st := Batch(env, fs, visited);
    ghost var m := Matching(env, path, fs[path].content, hint);
    BatchSnoc(env, fs, visited, path);
    RecordAgrees(st, hint, tally.counts, allFileErrors.entries, csvFile.lines, path, fs[path].size, m);
    nextHint := Run(env, fs, path, hint, allFileErrors, csvFile, tally);
  }

  /**
   * The innermost loop of `start`: `run` on `direct_dir / file_name` for each
   * file of one directory of the walk, each with the hint the previous file left.
   */
  method RunDirectory(env: Env, fs: map<string, LocalFile>, ghost visited: seq<string>,
                      directDir: string, filesInDir: seq<string>, hint: string, filesProcessed: nat,
                      allFileErrors: ErrorLog, csvFile: CsvReport, tally: Tally)
    returns (nextHint: string, processed: nat)
    requires AllExist(fs, visited) && AllExist(fs, FilesIn(directDir, filesInDir)) && csvFile.isOpen
    requires Mirrors(Batch(env, fs, visited), hint, tally, allFileErrors, csvFile)
    modifies allFileErrors, csvFile, tally
    ensures AllExist(fs, visited + FilesIn(directDir, filesInDir))
    ensures Mirrors(Batch(env, fs, visited + FilesIn(directDir, filesInDir)), nextHint, tally, allFileErrors, csvFile)
    ensures processed == filesProcessed + |filesInDir|
    ensures csvFile.isOpen && csvFile.fileName == old(csvFile.fileName)
  {
    nextHint, processed := hint, filesProcessed;
    ghost var cur := visited;
    assert visited + FilesIn(directDir, filesInDir[..0]) == visited;
    var k := 0;
    while k < |filesInDir|
      invariant 0 <= k <= |filesInDir|
      invariant cur == visited + FilesIn(directDir, filesInDir[..k])
      invariant AllExist(fs, cur) && processed == filesProcessed + k
      invariant Mirrors(Batch(env, fs, cur), nextHint, tally, allFileErrors, csvFile)
      invariant csvFile.isOpen && csvFile.fileName == old(csvFile.fileName)
    {
      var itemPath := JoinPath(directDir, filesInDir[k]);
      assert itemPath == FilesIn(directDir, filesInDir)[k];
      processed := processed + 1;
      nextHint := VisitFile(env, fs, cur, itemPath, nextHint, allFileErrors, csvFile, tally);
      cur := cur + [itemPath];
      assert filesInDir[..k + 1][..k] == filesInDir[..k];
      k := k + 1;
    }
    assert filesInDir[..k] == filesInDir;
  }

  /** The loop over the directories `Path(path).walk()` yields; a directory without files adds nothing. */
  method RunWalk(env: Env, fs: map<string, LocalFile>, ghost visited: seq<string>,
                 entries: seq<WalkEntry>, hint: string, filesProcessed: nat,
                 allFileErrors: ErrorLog, csvFile: CsvReport, tally: Tally)
    returns (nextHint: string, processed: nat)
    requires AllExist(fs, visited) && AllExist(fs, WalkedFiles(entries)) && csvFile.isOpen
    requires Mirrors(Batch(env, fs, visited), hint, tally, allFileErrors, csvFile)
    modifies allFileErrors, csvFile, tally
    ensures AllExist(fs, visited + WalkedFiles(entries))
    ensures Mirrors(Batch(env, fs, visited + WalkedFiles(entries)), nextHint, tally, allFileErrors, csvFile)
    ensures processed == filesProcessed + |WalkedFiles(entries)|
    ensures csvFile.isOpen && csvFile.fileName == old(csvFile.fileName)
  {
    nextHint, processed := hint, filesProcessed;
    ghost var cur := visited;
    assert visited + WalkedFiles(entries[..0]) == visited;
    var j := 0;
    while j < |entries|
      invariant 0 <= j <= |entries|
      invariant cur == visited + WalkedFiles(entries[..j])
      invariant AllExist(fs, cur) && processed == filesProcessed + |WalkedFiles(entries[..j])|
      invariant Mirrors(Batch(env, fs, cur), nextHint, tally, allFileErrors, csvFile)
      invariant csvFile.isOpen && csvFile.fileName == old(csvFile.fileName)
    {
      var directDir := entries[j].directDir;
      var filesInDir := entries[j].filesInDir;
      WalkStep(fs, visited, entries, j);
      if filesInDir != [] {
        nextHint, processed :=
          RunDirectory(env, fs, cur, directDir, filesInDir, nextHint, processed, allFileErrors, csvFile, tally);
        cur := cur + FilesIn(directDir, filesInDir);
      }
      j := j + 1;
    }
    assert entries[..j] == entries;
  }

  /** The loop of `start` over the selected folders, each walked in turn. */
  method RunFolders(env: Env, fs: map<string, LocalFile>, ghost visited: seq<string>,
                    walk: string -> seq<WalkEntry>, paths: seq<string>, hint: string, filesProcessed: nat,
                    allFileErrors: ErrorLog, csvFile: CsvReport, tally: Tally)
    returns (nextHint: string, processed: nat)
    requires AllExist(fs, visited) && AllExist(fs, FilesUnder(walk, paths)) && csvFile.isOpen
    requires Mirrors(Batch(env, fs, visited), hint, tally, allFileErrors, csvFile)
    modifies allFileErrors, csvFile, tally
    ensures AllExist(fs, visited + FilesUnder(walk, paths))
    ensures Mirrors(Batch(env, fs, visited + FilesUnder(walk, paths)), nextHint, tally, allFileErrors, csvFile)
    ensures processed == filesProcessed + |FilesUnder(walk, paths)|
    ensures csvFile.isOpen && csvFile.fileName == old(csvFile.fileName)
  {
    nextHint, processed := hint, filesProcessed;
    ghost var cur := visited;
    assert visited + FilesUnder(walk, paths[..0]) == visited;
    var i := 0;
    while i < |paths|
      invariant 0 <= i <= |paths|
      invariant cur == visited + FilesUnder(walk, paths[..i])
      invariant AllExist(fs, cur) && processed == filesProcessed + |FilesUnder(walk, paths[..i])|
      invariant Mirrors(Batch(env, fs, cur), nextHint, tally, allFileErrors, csvFile)
      invariant csvFile.isOpen && csvFile.fileName == old(csvFile.fileName)
    {
      var entries := walk(paths[i]);
      FoldersStep(fs, visited, walk, paths, i);
      nextHint, processed := RunWalk(env, fs, cur, entries, nextHint, processed, allFileErrors, csvFile, tally);
      cur := cur + WalkedFiles(entries);
      i := i + 1;
    }
    assert paths[..i] == paths;
  }

  /** The loop of `start` over a selection of files, in the order selected. */
  method RunFiles(env: Env, fs: map<string, LocalFile>, ghost visited: seq<string>,
                  paths: seq<string>, hint: string, filesProcessed: nat,
                  allFileErrors: ErrorLog, csvFile: CsvReport, tally: Tally)
    returns (nextHint: string, processed: nat)
    requires AllExist(fs, visited) && AllExist(fs, paths) && csvFile.isOpen
    requires Mirrors(Batch(env, fs, visited), hint, tally, allFileErrors, csvFile)
    modifies allFileErrors, csvFile, tally
    ensures AllExist(fs, visited + paths)
    ensures Mirrors(Batch(env, fs, visited + paths), nextHint, tally, allFileErrors, csvFile)
    ensures processed == filesProcessed + |paths|
    ensures csvFile.isOpen && csvFile.fileName == old(csvFile.fileName)
  {
    nextHint, processed := hint, filesProcessed;
    ghost var cur := visited;
    assert visited + paths[..0] == visited;
    var i := 0;
    while i < |paths|
      invariant 0 <= i <= |paths|
      invariant cur == visited + paths[..i]
      invariant AllExist(fs, cur) && processed == filesProcessed + i
      invariant Mirrors(Batch(env, fs, cur), nextHint, tally, allFileErrors, csvFile)
      invariant csvFile.isOpen && csvFile.fileName == old(csvFile.fileName)
    {
      var path := paths[i];
      processed := processed + 1;
      nextHint := VisitFile(env, fs, cur, path, nextHint, allFileErrors, csvFile, tally);
      cur := cur + [path];
      assert paths[..i + 1] == paths[..i] + [path];
      i := i + 1;
    }
    assert paths[..i] == paths;
  }

  /**
   * `start`: names and opens the report, runs every selected file (every
   * file under every selected folder, in walk order) with the hint left by
   * the previous one, closes the report and renames it without the
   * in-progress suffix. The summary carries the final name even when the
   * rename fails. An empty selection of files raises before anything is
   * opened, which is the None result.
   */
  method Start(core: Core, env: Env, fs: map<string, LocalFile>, walk: string -> seq<WalkEntry>,
               selection: Selection, date: string, renameSucceeds: bool)
    returns (summary: Option<ResultSummary>, report: CsvReport?)
    requires AllExist(fs, VisitOrder(selection, walk))
    ensures DirsForCsvName(selection).None? ==> summary.None? && report == null
    ensures DirsForCsvName(selection).Some? ==>
      var files := VisitOrder(selection, walk);
      var st := Batch(env, fs, files);
      var outputCsvName := OutputCsvName(core.csvFileNamePrefix, DirsForCsvName(selection).value, date);
      && summary == Some(ResultSummary(|files|, st.tally, st.errors, FinalOutputCsvName(outputCsvName)))
      && report != null
      && report.lines == [HeaderLine(HEADER)] + FileLines(st.rows)
      && !report.isOpen
      && report.fileName == if renameSucceeds then FinalOutputCsvName(outputCsvName) else outputCsvName
  {
    var dirForCsvName: string;
    if selection.areDirectories {
      dirForCsvName := JoinedDirNames(DirNames(selection.paths));
    } else {
      if selection.paths == [] {
        // `paths[0]` raises IndexError
        return None, null;
      }
      dirForCsvName := ParentName(selection.paths[0]);
    }
    var paths := selection.paths;
    var assumedHashAlgo := "sha256";
    var allFileErrors := new ErrorLog();
    var tally := new Tally();
    var filesProcessed: nat := 0;
    var csvFile, outputCsvName := GetCsvOutputWriterAndFileName(core, dirForCsvName, date);
    ghost var files := VisitOrder(selection, walk);
    assert [] + files == files;
    assert Mirrors(Batch(env, fs, []), assumedHashAlgo, tally, allFileErrors, csvFile);
    if selection.areDirectories {
      assumedHashAlgo, filesProcessed :=
        RunFolders(env, fs, [], walk, paths, assumedHashAlgo, filesProcessed, allFileErrors, csvFile, tally);
    } else {
      assumedHashAlgo, filesProcessed :=
        RunFiles(env, fs, [], paths, assumedHashAlgo, filesProcessed, allFileErrors, csvFile, tally);
    }
    ghost var st := Batch(env, fs, files);
    assert Mirrors(st, assumedHashAlgo, tally, allFileErrors, csvFile) && filesProcessed == |files|;

    csvFile.Close();
    // the connection's commit is not modelled: nothing is written to the table
    var finalOutputCsvName := FinalOutputCsvName(outputCsvName);
    var renamed := csvFile.Rename(finalOutputCsvName, renameSucceeds);
    // a failed rename only prints a warning
    summary := Some(ResultSummary(filesProcessed, tally.counts, allFileErrors.entries, finalOutputCsvName));
    report := csvFile;
  }
}
