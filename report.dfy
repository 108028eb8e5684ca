/**
 * The name of the report CSV: written as
 * `<prefix>INGESTED_FILES_in_<dirs>_<date>_IN_PROGRESS.csv` while the run is
 * going, renamed without `_IN_PROGRESS` at the end. `<dirs>` names the
 * selected folders (the first two, then a count of the rest) or, for a
 * selection of files, the folder of the first file.
 */
module Report {
  import opened Wrappers
  import opened Text
  import Lookup

  const IN_PROGRESS_SUFFIX: string := "_IN_PROGRESS"

  /** The engine's configuration: the start of its query and the prefix of its CSV names. */
  datatype Core = Core(selectStatement: string, csvFileNamePrefix: string)

  /** `HoldingVerificationCore(connection, table_name, csv_file_name_prefix)`; a given prefix gets a "_". */
  function NewCore(tableName: string, csvFileNamePrefix: string): Core
  {
    Core(Lookup.SelectStatement(tableName), if csvFileNamePrefix != "" then csvFileNamePrefix + "_" else "")
  }

  /** A non-empty prefix is kept and separated from the rest of the name; an empty one adds nothing. */
  lemma NewCorePrefix(tableName: string, csvFileNamePrefix: string)
    ensures var p := NewCore(tableName, csvFileNamePrefix).csvFileNamePrefix;
      && (csvFileNamePrefix == "" <==> p == "")
      && (p != "" ==> p[..|p| - 1] == csvFileNamePrefix && p[|p| - 1] == '_')
  {
  }

  /** The name up to `_IN_PROGRESS.csv`. */
  function CsvStem(prefix: string, dirs: string, date: string): string
  {
    prefix + "INGESTED_FILES_in_" + dirs + "_" + date
  }

  /** The name `get_csv_output_writer_and_file_name` opens. */
  function OutputCsvName(prefix: string, dirs: string, date: string): string
  {
    CsvStem(prefix, dirs, date) + IN_PROGRESS_SUFFIX + ".csv"
  }

  /** `output_csv_name.replace(IN_PROGRESS_SUFFIX, "")`. */
  function FinalOutputCsvName(outputCsvName: string): string
  {
    Replace(outputCsvName, IN_PROGRESS_SUFFIX, "")
  }

  /** "_IN_PROGRESS" cannot overlap itself: its only "_" is its first character. */
  lemma InProgressUnbordered()
    ensures Unbordered(IN_PROGRESS_SUFFIX)
  {
    var m := IN_PROGRESS_SUFFIX;
    forall k | 0 < k < |m|
      ensures m[k..] != m[..|m| - k]
    {
      assert m[k..][0] == m[k];
      assert m[..|m| - k][0] == '_';
    }
  }

  /**
   * The final name is the in-progress name without the suffix, as long as
   * the prefix, the folder names and the date do not contain the suffix
   * themselves (otherwise `replace` removes those occurrences too).
   */
  lemma FinalNameDropsSuffix(prefix: string, dirs: string, date: string)
    requires !Contains(CsvStem(prefix, dirs, date), IN_PROGRESS_SUFFIX)
    ensures FinalOutputCsvName(OutputCsvName(prefix, dirs, date)) == CsvStem(prefix, dirs, date) + ".csv"
  {
    InProgressUnbordered();
    assert !Contains(".csv", IN_PROGRESS_SUFFIX);
    RemoveMarker(CsvStem(prefix, dirs, date), IN_PROGRESS_SUFFIX, ".csv");
  }

  /**
   * The rename in the source's `start` tests: with no prefix, the folder
   * "testpath" and the date of timestamp 2147483648, the final name is the
   * stem followed by ".csv".
   */
  lemma FinalCsvNameExample()
    ensures FinalOutputCsvName(OutputCsvName("", "testpath", "19-01-2038-03_14_08"))
         == CsvStem("", "testpath", "19-01-2038-03_14_08") + ".csv"
  {
    var stem := CsvStem("", "testpath", "19-01-2038-03_14_08");
    assert 'R' !in "INGESTED_FILES_in_" && 'R' !in "testpath" && 'R' !in "19-01-2038-03_14_08";
    assert 'R' !in stem;
    MissingCharNotContained(stem, IN_PROGRESS_SUFFIX, 'R');
    FinalNameDropsSuffix("", "testpath", "19-01-2038-03_14_08");
  }

  // ---------------------------------------------------------------------
  // The folder part of the name
  // ---------------------------------------------------------------------

  /** What the user picked: folders or files, and their paths. */
  datatype Selection = Selection(areDirectories: bool, paths: seq<string>)

  /** `_AND_<n>_more_folder[s]` for n further folders; nothing when there are none. */
  function MoreFolders(additionalFolders: int): string
  {
    if additionalFolders > 0 then
      "_AND_" + NatToString(additionalFolders) + "_more_folder" + (if additionalFolders > 1 then "s" else "")
    else ""
  }

  /** The first two folder names joined with "_AND_", and a count of the others. */
  function JoinedDirNames(dirNames: seq<string>): string
  {
    var first2 := if |dirNames| <= 2 then dirNames else dirNames[..2];
    Join("_AND_", first2) + MoreFolders(|dirNames| - |first2|)
  }

  /** `Path(p).name` for each selected path. */
  function DirNames(paths: seq<string>): (names: seq<string>)
    ensures |names| == |paths|
    ensures forall i :: 0 <= i < |paths| ==> names[i] == PathName(paths[i])
  {
    if paths == [] then [] else [PathName(paths[0])] + DirNames(paths[1..])
  }

  /**
   * `dir_for_csv_name`: the joined folder names, or the name of the first
   * file's folder. None stands for the IndexError an empty file selection raises.
   */
  function DirsForCsvName(selection: Selection): Option<string>
  {
    if selection.areDirectories then Some(JoinedDirNames(DirNames(selection.paths)))
    else if selection.paths == [] then None
    else Some(ParentName(selection.paths[0]))
  }

  /** Up to two folders are named in full. */
  lemma JoinedDirNamesFew(dirNames: seq<string>)
    requires |dirNames| <= 2
    ensures JoinedDirNames(dirNames) == Join("_AND_", dirNames)
  {
    var joined := Join("_AND_", dirNames);
    assert JoinedDirNames(dirNames) == joined + MoreFolders(0);
    assert joined + "" == joined;
  }

  /** With more than two folders, the first two are named and the rest counted. */
  lemma JoinedDirNamesMany(dirNames: seq<string>)
    requires |dirNames| > 2
    ensures JoinedDirNames(dirNames) == (dirNames[0] + "_AND_" + dirNames[1]) + MoreFolders(|dirNames| - 2)
  {
    assert dirNames[..2] == [dirNames[0], dirNames[1]];
    JoinPair("_AND_", dirNames[0], dirNames[1]);
  }

  /** The count of the other folders is written in decimal, with "folder" made plural past one. */
  lemma MoreFoldersShape(additionalFolders: nat)
    requires additionalFolders > 0
    ensures var s := MoreFolders(additionalFolders);
      var digits := NatToString(additionalFolders);
      && s[..5] == "_AND_"
      && ParseDecimal(s[5..5 + |digits|]) == additionalFolders
      && s[5 + |digits|..] == if additionalFolders > 1 then "_more_folders" else "_more_folder"
  {
    var s := MoreFolders(additionalFolders);
    var digits := NatToString(additionalFolders);
    var rest := "_more_folder" + (if additionalFolders > 1 then "s" else "");
    assert s == ("_AND_" + digits) + rest;
    assert s[..5] == "_AND_";
    assert s[5..5 + |digits|] == digits;
    assert s[5 + |digits|..] == rest;
    NatToStringRoundTrip(additionalFolders);
  }

  /** A selection of files is named after the folder of the first one. */
  lemma FilesNamedAfterFirstFolder(dir: string, name: string, rest: seq<string>)
    requires IsPlainName(name)
    ensures DirsForCsvName(Selection(false, [dir + "/" + name] + rest)) == Some(PathName(dir))
  {
    PathOfChild(dir, name);
  }
}
