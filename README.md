# Holding verification core, modelled in Dafny

A model of `HoldingVerificationCore`, the engine of the holding-verification
tool. The tool checks whether the local files of a selection are already held
in the archive. For each file it computes SHA-256, MD5 and SHA-1 digests and
looks each one up in a reference table of fixity records
(`file_ref, fixity_value, algorithm_name`). It tries the algorithm that matched
the previous file first, stops as soon as it has a match and the SHA-256
digest, and writes one CSV row per file to a report. The report is named after
the selection, written under an `_IN_PROGRESS` name and renamed once the run is
finished.

Modules, in dependency order:

- `Wrappers`: `Option`.
- `Fixity`: the three candidate algorithms, their hashlib names, the fixed
  order (sha256, md5, sha1) and the table's records.
- `Text`: the Python string operations the engine relies on, written out.
  These are `sep.join`, `str.replace`, `f"{n}"` for a natural number,
  `str.split` on one character, and the `name` and `parent.name` of a POSIX
  `pathlib.Path`. Each comes with the lemmas the rest of the model needs
  (round trips, removal of an unbordered marker).
- `Digest`: chunked reading with `BUFFER_SIZE`, and the class `HashObject`,
  whose `update`/`hexdigest` calls are recorded. It also holds the method
  `GetChecksumForFile`, which reads in a loop and is proved against `Chunks`
  and `ChecksumOf`.
- `Lookup`: the SQL text `find_checksum_in_db` executes, and the lookup as an
  exact filter on `fixity_value`.
- `Matcher`: `get_rows_with_hash`.
  - `CandidateOrder` is the key order of the dict union at lines 81-82.
  - `Scan`/`Matching` are the `for`/`else` loop written as a function, with
    counters of digest computations and lookups.
  - The method `GetRowsWithHash` is that loop, proved equal to `Matching`.
  - The lemmas prove the call-count table of the tests, that the verdict does
    not depend on the hint, and what happens to unreadable files.
- `Report`: the CSV name, made of the prefix, the folder part, the date and
  the in-progress suffix, and the final name the rename gives.
- `Batch`: the rest of the batch.
  - The classes `Tally` (the `defaultdict(int)`), `ErrorLog` (the list
    `all_file_errors`) and `CsvReport` (the report file and its writer).
  - The method `Run`.
  - The fold `Batch` of `Visit` over the files in visiting order.
  - The methods `RunFiles`, `RunFolders`, `RunWalk` and `RunDirectory`, which
    are the loops of `start`.
  - The method `Start`.
  - Every loop is proved to keep the objects in step with `Batch`. Lemmas
    about `Batch` state what the report, the tally, the error list and the
    hint hold after any sequence of files.

The collaborators that are not code are inputs:

- The reference table (`Env.table`).
- The digest functions (`Env.hexOf`, an arbitrary function from an algorithm
  and bytes to a hex string).
- The local files (`fs`, a map from path to size and content). A content is
  either readable bytes, or the bytes delivered before an `OSError` with its
  message.
- The directory walk (`walk`, a map from a selected folder to its
  `(dirpath, filenames)` entries in walk order).
- The date string.
- Whether the operating system allows the final rename.

The model follows the code as written, including these behaviours:

- A read error does not end the digest loop of `get_rows_with_hash`. The empty
  digest "" is still looked up, and the loop goes on with the next algorithm
  (`UnreadableFileUnmatched`). A table record with an empty `fixity_value`
  therefore makes an unreadable file "found" (`UnreadableFileMatchesEmptyFixity`).
- The SHA-256 digest is always computed, even after an MD5 or SHA-1 match
  (`MatchingAlwaysHashesSha256`).
- Only the errors of the last digest attempt are returned. These are the same
  for every attempt on one file (`MatchingErrors`).
- `start` reads the keys `are_directories` and `paths` of the selection. The
  tests of `start` in `test/test_holding_verification_core.py` pass the keys
  `path` and `is_directory`, which the code does not read.
- An empty selection of files makes `paths[0]` raise `IndexError` before
  anything is opened. `Start` returns `None` for it. An empty selection of
  folders gives an empty folder part and an empty report.

## Model

| member | source | states |
|---|---|---|
| Fixity.FromName | holding_verification_core.py:81 | a name is recognised only as the canonical name of the algorithm it returns |
| Fixity.NameRoundTrip | holding_verification_core.py:74 | the names and the three algorithms correspond one to one; exactly "sha256", "md5" and "sha1" are keys |
| Text.Join | holding_verification_core.py:147 | Python's `sep.join(items)`: the items with one separator between neighbours. Its properties are in `JoinPair` and `JoinAppend` |
| Text.JoinPair | holding_verification_core.py:147 | two names are joined by exactly one separator |
| Text.JoinAppend | holding_verification_core.py:114 | joining one more item adds the separator and the item at the end (the item alone after none) |
| Text.Replace | holding_verification_core.py:183 | Python's `s.replace(pat, repl)`: scanning left to right, every non-overlapping occurrence is replaced. `ReplaceAbsent` and `RemoveMarker` state what it does to the report name |
| Text.ReplaceAbsent | holding_verification_core.py:183 | `replace` leaves a string without the pattern unchanged |
| Text.AbsentFromTail | holding_verification_core.py:183 | a string without the pattern has none in its tail either |
| Text.MissingCharNotContained | holding_verification_core.py:183 | a string lacking one character of the pattern does not contain the pattern |
| Text.NoStartBeforeMarker | holding_verification_core.py:183 | an unbordered marker cannot start inside a non-empty marker-free prefix |
| Text.RemoveMarker | holding_verification_core.py:183 | removing an unbordered marker from `x + marker + tail`, with neither part containing it, leaves exactly `x + tail` |
| Text.NatToString | holding_verification_core.py:145 | `f"{n}"` is a non-empty string of decimal digits with a leading zero only for 0 |
| Text.NatToStringRoundTrip | holding_verification_core.py:145 | the decimal rendering of the count reads back as the count |
| Text.SplitOn | holding_verification_core.py:141 | a split gives at least one piece and no piece contains the separator |
| Text.SplitJoinRoundTrip | holding_verification_core.py:141 | joining the pieces of a split with the separator gives the string back |
| Text.SplitAppend | holding_verification_core.py:165 | appending a separator and a separator-free name adds exactly that piece to the split |
| Text.PathName | holding_verification_core.py:141 | `Path(p).name`: the last kept component, or "" for a root or an empty path. `PathOfChild`, `PlainPathName` and `JoinPathName` state its value on the paths the engine builds |
| Text.ParentName | holding_verification_core.py:151 | `Path(p).parent.name`: the last kept component but one, or "". `PathOfChild` states that it is the name of the directory of `dir/name` |
| Text.PathOfChild | holding_verification_core.py:150-151 | for `dir/name` the path's name is `name` and its parent's name is the name of `dir` |
| Text.PlainPathName | holding_verification_core.py:141 | a single plain component is its own `Path(...).name` |
| Text.JoinPath | holding_verification_core.py:165 | `str(direct_dir / file_name)` for a walked directory: one "/" between them, none when the directory already ends in "/" or is "" or ".". `JoinPathName` states that the file's name survives |
| Text.JoinPathName | holding_verification_core.py:165 | the name of `direct_dir / file_name` is `file_name`, for every form of `direct_dir` |
| Digest.Chunks | holding_verification_core.py:55-59 | the successive non-empty results of `file.read(BUFFER_SIZE)`. `ChunksConcat`, `ChunksBounded` and `ChunkCount` state what they are |
| Digest.ChecksumOf | holding_verification_core.py:51-64 | the pair `get_checksum_for_file` returns for a file: its digest and `{}`, or "" and `{path: message}`. `GetChecksumForFile` and `ChecksumWithNewHash` are proved to return it |
| Digest.ChunksConcat | holding_verification_core.py:55-59 | the chunks read, put back together, are exactly the file's bytes |
| Digest.ChunksBounded | holding_verification_core.py:56 | every chunk read is non-empty and at most BUFFER_SIZE bytes |
| Digest.ChunkCount | holding_verification_core.py:49-58 | a file of k bytes is read in ceil(k / 1_000_000) chunks, and an empty file in none |
| Digest.ChunkStep | holding_verification_core.py:56-59 | each read at a position takes the next chunk and extends the bytes read by it |
| Digest.HashObject.constructor | holding_verification_core.py:85 | `hash_function()` is a fresh hash object that has been fed nothing |
| Digest.HashObject.Update | holding_verification_core.py:59 | `update` appends the chunk to what the object has been fed |
| Digest.HashObject.HexDigest | holding_verification_core.py:61 | `hexdigest` is the digest of everything fed so far |
| Digest.GetChecksumForFile | holding_verification_core.py:51-64 | `update` is called once per chunk, in order. A readable file gives the digest of all its bytes and `{}`. A failing read gives "" and `{path: message}`, and `hexdigest` is never called |
| Digest.ChecksumWithNewHash | holding_verification_core.py:85 | a fresh hash object gives the digest of the whole file, depending only on the file |
| Lookup.SelectStatement | holding_verification_core.py:44 | the select prefix built for a table name; `QueryTextExample` states it for `files_in_dri` |
| Lookup.QueryText | holding_verification_core.py:67 | the statement `find_checksum_in_db` executes; `QueryTextNamesHash` states its parts |
| Lookup.FindChecksumInDb | holding_verification_core.py:66-69 | the records the query returns: those whose `fixity_value` equals the hash, in table order. `FindChecksumInDbMatches`, `FindChecksumInDbCounts` and `FindOverConcat` state this |
| Lookup.QueryTextNamesHash | holding_verification_core.py:67 | the query is exactly the table's select prefix, `= "`, the given hash and `";` |
| Lookup.QueryTextExample | test/test_holding_verification_core.py:162-172 | for table `files_in_dri` and hash `mock_hash` the query is the exact statement the test expects |
| Lookup.FindChecksumInDbCounts | holding_verification_core.py:66-69 | every record with the hash is returned as often as the table holds it, and no other record is |
| Lookup.FindChecksumInDbMatches | holding_verification_core.py:66-69 | the lookup returns exactly the records whose fixity value is the hash, with their multiplicities |
| Lookup.FindOverConcat | holding_verification_core.py:66-69 | a lookup over a table in two parts is the lookup in each part, in table order |
| Matcher.KeyUnion | holding_verification_core.py:82 | the key order of Python's dict union of `left` and `right`: the left keys, then the new right keys. It is the reference definition for `CandidateOrderIsDictUnion` |
| Matcher.CandidateOrder | holding_verification_core.py:81-84 | the order in which the loop tries the algorithms. `CandidateOrderIsDictUnion`, `CandidateOrderPermutes` and `CandidateOrderShape` state it |
| Matcher.CandidateOrderPermutes | holding_verification_core.py:81-84 | each algorithm is tried exactly once; a known presumed algorithm is tried first and an unknown name keeps the fixed order |
| Matcher.PresumedKeys | holding_verification_core.py:81 | `presumed_hash` has one key when the name is a known algorithm and none otherwise |
| Matcher.CandidateOrderIsDictUnion | holding_verification_core.py:81-82 | the candidate order is the key order of the dict union of `presumed_hash` and `hashes_to_lookup` |
| Matcher.UnionWithFixedOrder | holding_verification_core.py:82 | the union of one presumed key with the fixed keys puts it first and keeps the others in order |
| Matcher.UnionWithoutPresumed | holding_verification_core.py:82 | with no presumed key the union is the fixed order |
| Matcher.CandidateOrderShape | holding_verification_core.py:74-82 | sha256 is at the front, or right behind a different presumed algorithm |
| Matcher.Step | holding_verification_core.py:85-96 | one pass of the loop body: a digest, the sha256 bookkeeping and its break, the lookup, the name and the second break. `ScanUnfold` connects it to `Scan` |
| Matcher.Scan | holding_verification_core.py:84-98 | the `for`/`else` loop over the remaining candidates, clearing the name when it runs off the end. The `Scan*` lemmas state what it keeps |
| Matcher.Matching | holding_verification_core.py:71-100 | what `get_rows_with_hash` returns, with its call counts. `GetRowsWithHash` is proved equal to it, and the `Matching*` lemmas state its properties |
| Matcher.ScanUnfold | holding_verification_core.py:84-98 | the loop from position i is one iteration, then either its break or the loop from i + 1 |
| Matcher.GetRowsWithHash | holding_verification_core.py:71-100 | the loop returns what `Matching` specifies, including the call counts. It also ensures found iff rows, the sha256 digest, and the file's errors |
| Matcher.ScanFoundIffRows | holding_verification_core.py:90-91 | `checksum_found` says whether the rows are non-empty |
| Matcher.MatchingFoundIffRows | holding_verification_core.py:90-100 | the returned `checksum_found` is true exactly when rows are returned |
| Matcher.ScanHashesSha256 | holding_verification_core.py:86-96 | the loop cannot end before it has the sha256 digest |
| Matcher.MatchingAlwaysHashesSha256 | holding_verification_core.py:79-96 | the returned sha256 hash is always the file's sha256 digest, whatever matched |
| Matcher.ScanErrors | holding_verification_core.py:85 | the last attempt's errors are the file's errors |
| Matcher.MatchingErrors | holding_verification_core.py:85-100 | the returned errors are `{}` for a readable file and `{path: message}` for an unreadable one |
| Matcher.ScanActualName | holding_verification_core.py:93-98 | a non-empty actual name is a known algorithm whose digest's lookup gave the rows; no match leaves it empty |
| Matcher.MatchingActualName | holding_verification_core.py:93-98 | a returned name denotes the algorithm whose lookup produced the returned rows; no match returns "" and no rows |
| Matcher.FirstHit | holding_verification_core.py:84-98 | the position of the first candidate whose digest is in the table, with no match before it |
| Matcher.ScanAfterSha256 | holding_verification_core.py:84-98 | once sha256 is known and unmatched, each candidate costs one digest and one lookup, and the first match ends the loop |
| Matcher.Sha256FirstOutcome | test/test_holding_verification_core.py:174-242 | starting with sha256, the k-th candidate matches after k + 1 digests and lookups; no match costs three of each |
| Matcher.Sha256SecondOutcome | test/test_holding_verification_core.py:244-378 | starting with md5 or sha1, a first-candidate match costs two digests and one lookup; otherwise every step is a digest and a lookup |
| Matcher.MatchingCallCounts | test/test_holding_verification_core.py:174-378 | the digest and lookup counts, the rows and the name for every presumed name and every first match |
| Matcher.VerdictIndependentOfHint | holding_verification_core.py:71-100 | with a non-empty sha256 digest, a file is found exactly when one of its three digests is in the table, whatever the hint |
| Matcher.ScanUnreadable | holding_verification_core.py:85-91 | with every digest "" and no record with an empty fixity value, no step matches |
| Matcher.UnreadableFileUnmatched | holding_verification_core.py:85-98 | an unreadable file is unmatched after three digests and three lookups of "", with `{path: message}` |
| Matcher.ScanUnreadableEmptyFixity | holding_verification_core.py:85-96 | with every digest "" and a record with an empty fixity value, the first lookup matches and the match stays |
| Matcher.UnreadableFileMatchesEmptyFixity | holding_verification_core.py:85-98 | an unreadable file is reported found when the table holds a record with an empty fixity value. With sha256 tried first, the name is cleared to "" after three digests and three lookups. With a presumed md5 or sha1, the presumed name is kept after two digests and one lookup |
| Report.NewCore | holding_verification_core.py:41-46 | the engine's select statement and CSV prefix. `NewCorePrefix` states the prefix rule |
| Report.NewCorePrefix | holding_verification_core.py:46 | a given prefix is kept and followed by "_"; an empty one adds nothing |
| Report.OutputCsvName | holding_verification_core.py:127-128 | the in-progress report name: prefix, `INGESTED_FILES_in_`, folders, `_`, date, `_IN_PROGRESS.csv`. `FinalNameDropsSuffix` relates it to the final name |
| Report.FinalOutputCsvName | holding_verification_core.py:183 | the final name `output_csv_name.replace(IN_PROGRESS_SUFFIX, "")`. `FinalNameDropsSuffix` and `FinalCsvNameExample` state it |
| Report.InProgressUnbordered | holding_verification_core.py:45 | "_IN_PROGRESS" cannot overlap itself |
| Report.FinalNameDropsSuffix | holding_verification_core.py:127-128 | the final name is the in-progress name without the suffix, when prefix, folders and date do not contain it |
| Report.FinalCsvNameExample | test/test_holding_verification_core.py:477-478 | the report of the `start` tests is renamed to `INGESTED_FILES_in_testpath_19-01-2038-03_14_08.csv` |
| Report.MoreFolders | holding_verification_core.py:144-146 | the count of the folders after the first two. `MoreFoldersShape` states it |
| Report.JoinedDirNames | holding_verification_core.py:143-147 | the folder part of the name for a folder selection. `JoinedDirNamesFew` and `JoinedDirNamesMany` state it |
| Report.DirsForCsvName | holding_verification_core.py:140-151 | the folder part for either kind of selection, with None for the `IndexError` of an empty file selection. `FilesNamedAfterFirstFolder` and `Start` state it |
| Report.DirNames | holding_verification_core.py:141 | one name per selected folder, each its `Path(...).name` |
| Report.JoinedDirNamesFew | holding_verification_core.py:143-147 | up to two folders are named in full, joined by "_AND_" |
| Report.JoinedDirNamesMany | holding_verification_core.py:143-147 | with more than two folders the first two are named and the rest counted |
| Report.MoreFoldersShape | holding_verification_core.py:144-146 | the count of the other folders reads back as that count, with "folder" plural past one |
| Report.FilesNamedAfterFirstFolder | holding_verification_core.py:150-151 | a selection of files is named after the folder of its first file |
| Batch.MatchingFileRefs | holding_verification_core.py:114 | the "Matching File Refs" column. `RowForMatching` and `FileRefs` state what it holds |
| Batch.MatchingAlgorithmHash | holding_verification_core.py:115 | the "Matching Algorithm Hash" column. `MatchingHashIsLookedUpHash` states that it is the hash looked up, or "" |
| Batch.RowFor | holding_verification_core.py:117 | the row `run` writes for a matching result. `RowForMatching` states its columns |
| Batch.FileRefs | holding_verification_core.py:114 | one file_ref per matching record, in order |
| Batch.DistinctOfOneValue | holding_verification_core.py:115 | records sharing one fixity value have that value as their only distinct one |
| Batch.MatchingHashIsLookedUpHash | holding_verification_core.py:115 | the "Matching Algorithm Hash" column is the hash looked up, or "" without a match, whatever the set's iteration order |
| Batch.RowForMatching | holding_verification_core.py:117 | a row's columns: the file's sha256 digest, found iff records matched, empty match columns when unmatched, and the digest of the named algorithm |
| Batch.Tally.constructor | holding_verification_core.py:155 | the tally starts with no key |
| Batch.Tally.Increment | holding_verification_core.py:112 | `tally[key] += 1`, counting from 0 for a missing key |
| Batch.ErrorLog.constructor | holding_verification_core.py:154 | the error list starts empty |
| Batch.ErrorLog.Append | holding_verification_core.py:121 | one error dictionary appended at the end |
| Batch.CsvReport.constructor | holding_verification_core.py:129 | a new, empty, open report with the given name |
| Batch.CsvReport.WriteRow | holding_verification_core.py:118 | one line appended at the end |
| Batch.CsvReport.Close | holding_verification_core.py:181 | the report is closed, lines and name kept |
| Batch.CsvReport.Rename | holding_verification_core.py:184-189 | the name changes only when the rename succeeds |
| Batch.Run | holding_verification_core.py:102-124 | one row for the file, `tally[found]` incremented, non-empty errors appended, and the next hint is the matched name or the same hint |
| Batch.Record | holding_verification_core.py:112-123 | what `run` records: the next hint, the tally increment, the appended errors and the row. `RecordAgrees` and `RecordTally` state it |
| Batch.Visit | holding_verification_core.py:167-170 | one call of `run` on a file with the current hint. `Run` and `VisitFile` are proved against it |
| Batch.Batch | holding_verification_core.py:160-179 | the hint, tally, errors and rows after running the files in order from the hint "sha256". `Start` is proved against it, and `BatchRows`, `BatchTally`, `BatchErrors`, `BatchHint` and `BatchHintKnown` state its properties |
| Batch.BatchLast | holding_verification_core.py:160-179 | the last file is run after all the others |
| Batch.BatchRowsSnoc | holding_verification_core.py:160-179 | the last file's row follows the rows of the files before it |
| Batch.BatchSnoc | holding_verification_core.py:160-179 | running one more file extends the batch by one `run` |
| Batch.FileLines | holding_verification_core.py:118 | one CSV line per row, in order |
| Batch.BatchRows | holding_verification_core.py:160-179 | one row per file in visiting order; the i-th is matched with the hint the files before it left |
| Batch.RecordTally | holding_verification_core.py:112 | recording a file keeps the tally equal to the count of rows per found value |
| Batch.CountRowsSplit | holding_verification_core.py:112 | every row counts under exactly one of found and not found |
| Batch.BatchTally | holding_verification_core.py:155-178 | the tally counts the rows by found value, has a key only once counted, and counts every file once |
| Batch.BatchTallyInvariant | holding_verification_core.py:155-178 | after any files the tally is the count of rows per found value |
| Batch.BatchErrors | holding_verification_core.py:120-121 | `all_file_errors` holds exactly one `{path: message}` per unreadable file, in order |
| Batch.BatchHint | holding_verification_core.py:123 | the hint is always an algorithm name or "" |
| Batch.BatchHintKnown | holding_verification_core.py:123 | with non-empty sha256 digests the hint is always an algorithm name |
| Batch.VisitOrder | holding_verification_core.py:160-179 | the files `start` passes to `run`: every file under every selected folder, in walk order, or the selected files. `Start` and `InFilesUnder` state it |
| Batch.WalkedFiles | holding_verification_core.py:162-165 | the files of one walk, directory by directory. `InWalkedFiles` and `WalkStep` state it |
| Batch.FilesUnder | holding_verification_core.py:161-165 | the files under the selected folders, folder by folder. `InFilesUnder` and `FoldersStep` state it |
| Batch.FilesIn | holding_verification_core.py:164-165 | one path `direct_dir / file_name` per file of a directory, in order |
| Batch.InWalkedFiles | holding_verification_core.py:162-165 | a file of any walk entry is among the walked files |
| Batch.InFilesUnder | holding_verification_core.py:161-162 | a file under any selected folder is among the files visited |
| Batch.WalkStep | holding_verification_core.py:162-165 | the files of one more walk entry follow the earlier ones; an entry without files adds none |
| Batch.FoldersStep | holding_verification_core.py:161-162 | the files under one more folder follow those under the folders before it |
| Batch.GetCsvOutputWriterAndFileName | holding_verification_core.py:126-133 | opens the in-progress report under the name of `OutputCsvName` and writes the header row |
| Batch.RecordAgrees | holding_verification_core.py:112-123 | what `run` does to the tally, errors, lines and hint is what the fold records |
| Batch.FileLinesSnoc | holding_verification_core.py:118 | writing one more row appends its line |
| Batch.VisitFile | holding_verification_core.py:167-170 | one `run` keeps the objects in step with the fold over the files so far |
| Batch.RunDirectory | holding_verification_core.py:164-170 | runs every file of one walked directory in order, counting each |
| Batch.RunWalk | holding_verification_core.py:162-173 | runs every walked directory in order; directories without files add nothing |
| Batch.RunFolders | holding_verification_core.py:160-173 | runs every file under every selected folder, folder by folder |
| Batch.RunFiles | holding_verification_core.py:175-179 | runs every selected file in order, counting each |
| Batch.Start | holding_verification_core.py:136-191 | the summary and the closed, renamed report of the fold over the files in visiting order; an empty file selection gives no summary and no report |

## Left out

- Hash algorithms: SHA-256, MD5 and SHA-1 are the input function `Env.hexOf`. The model proves which digest is taken of which bytes, not what it is.
- Filesystem: `Path.stat`, `open`, `read` and `Path.walk` are inputs (`fs`, `walk`). A file's content and size are fixed for the whole run.
- Run: its `path in fs` precondition stands for `stat` raising on a missing path. The exception that would end the run is not modelled.
- pathlib: `PathName` and `ParentName` drop empty and "." components, as `Path(...).name` and `.parent.name` do. `JoinPath` only adds one "/" between a walked directory and a file name. It does not normalise the directory itself: `JoinPath("./a", "f")` is "./a/f", while `str(Path("./a") / "f")` is "a/f". The walk's directories are taken as `Path.walk` yields them, already normalised. Symbolic links, `..` and Windows paths are not modelled.
- SQLite: the connection, the cursor and `commit` are not modelled. The table is an input sequence and the lookup an exact filter on `fixity_value`; row order is the table's order.
- CSV serialisation: the quoting and encoding of rows are not modelled. The report is the sequence of rows written.
- GetCsvOutputWriterAndFileName: an `open` of the report that fails is not modelled.
- The date default (`datetime.now()`) is a parameter.
- Batch.CsvReport.Rename: whether the operating system allows the rename is a parameter. On failure the source only prints a warning, which is not modelled.
- Console output: the messages after each file, for files over 500 MB and every 100 files, and the rename warning, are not modelled. They change no state.
- `check_db_exists`: its user prompt loop is interactive input, outside the engine.
- `ResultSummary` is a datatype; `tally` is the map of counted keys, as the `defaultdict` holds them.
- The user interface, the entry points and the CSV-to-SQLite conversion script are outside the engine and are not part of this model.
- The tests of `start` pass the keys `path` and `is_directory`, which the code does not read; the model follows the keys the code reads.
