/**
 * The two tables of the genomes database and the statements run on them:
 * genome_files(file_id, file_name) registers a file under a numeric id, and
 * sub_gens(id, file_id, sub_gen, length) holds one row per shingle of a file
 * for one shingle length. Each query is a function of the table contents,
 * each insert a method of GenomeDatabase.
 */
module Store {

  datatype Option<T> = None | Some(value: T)

  datatype FileRow = FileRow(fileId: int, fileName: string)

  datatype SubGenRow = SubGenRow(id: int, fileId: int, subGen: string, length: nat)

  function FileIds(files: seq<FileRow>): seq<int>
  {
    seq(|files|, i requires 0 <= i < |files| => files[i].fileId)
  }

  function SubGenIds(rows: seq<SubGenRow>): seq<int>
  {
    seq(|rows|, i requires 0 <= i < |rows| => rows[i].id)
  }

  /**
   * `SELECT max(col)` read back with `ResultSet.getInt`: the largest value,
   * or 0 when there is no row (SQL NULL reads as 0).
   */
  function MaxOrZero(xs: seq<int>): (m: int)
    ensures |xs| == 0 ==> m == 0
    ensures |xs| > 0 ==> m in xs
    ensures forall i :: 0 <= i < |xs| ==> xs[i] <= m
  {
    if |xs| == 0 then 0
    else if |xs| == 1 then xs[0]
    else
      var m' := MaxOrZero(xs[..|xs| - 1]);
      if xs[|xs| - 1] > m' then xs[|xs| - 1] else m'
  }

  /** GET_ID_BY_FILE_NAME read with `if (rs.next())`: the file id of a row with that name. */
  function LookupFileId(files: seq<FileRow>, name: string): (r: Option<int>)
    ensures r.None? <==> forall i :: 0 <= i < |files| ==> files[i].fileName != name
    ensures r.Some? ==> exists i :: 0 <= i < |files| && files[i].fileName == name && files[i].fileId == r.value
  {
    if |files| == 0 then None
    else if files[0].fileName == name then Some(files[0].fileId)
    else LookupFileId(files[1..], name)
  }

  /** The WHERE clause `file_id = ? AND length = ?` of the sub_gens queries. */
  predicate Matches(row: SubGenRow, fileId: int, k: nat)
  {
    row.fileId == fileId && row.length == k
  }

  /** The ids of the sub_gens rows of one (file, length) pair. */
  function IdsFor(rows: seq<SubGenRow>, fileId: int, k: nat): (ids: seq<int>)
    ensures forall x :: x in ids <==>
      exists j :: 0 <= j < |rows| && Matches(rows[j], fileId, k) && rows[j].id == x
  {
    if |rows| == 0 then []
    else
      var last := rows[|rows| - 1];
      IdsFor(rows[..|rows| - 1], fileId, k) + (if Matches(last, fileId, k) then [last.id] else [])
  }

  /** GET_COUNT_BY_FILE_NAME_AND_LENGTH: the largest row id of the pair, 0 when it has none. */
  function ParsedMarker(rows: seq<SubGenRow>, fileId: int, k: nat): (m: int)
    ensures forall j :: 0 <= j < |rows| && Matches(rows[j], fileId, k) ==> rows[j].id <= m
    ensures m != 0 ==> exists j :: 0 <= j < |rows| && Matches(rows[j], fileId, k) && rows[j].id == m
  {
    var ids := IdsFor(rows, fileId, k);
    assert forall j :: 0 <= j < |rows| && Matches(rows[j], fileId, k) ==> rows[j].id in ids;
    MaxOrZero(ids)
  }

  /** `SELECT sg.sub_gen FROM sub_gens sg WHERE sg.file_id = ? AND sg.length = ?`, as a set. */
  function StoredSet(rows: seq<SubGenRow>, fileId: int, k: nat): set<string>
  {
    set j | 0 <= j < |rows| && Matches(rows[j], fileId, k) :: rows[j].subGen
  }

  /** The shingles stored for a file name, empty when the name is not registered. */
  function StoredFor(files: seq<FileRow>, rows: seq<SubGenRow>, name: string, k: nat): set<string>
  {
    match LookupFileId(files, name)
    case None => {}
    case Some(id) => StoredSet(rows, id, k)
  }

  /** What a pair holds after an ingestion of subs: its old shingles if it had any, else subs. */
  function AfterIngest(stored: set<string>, subs: set<string>): set<string>
  {
    if stored != {} then stored else subs
  }

  /** The genome_files table: positive, distinct ids and distinct names. */
  ghost predicate FilesWellFormed(files: seq<FileRow>)
  {
    && (forall i :: 0 <= i < |files| ==> files[i].fileId >= 1)
    && (forall i, j :: 0 <= i < j < |files| ==> files[i].fileId != files[j].fileId)
    && (forall i, j :: 0 <= i < j < |files| ==> files[i].fileName != files[j].fileName)
  }

  /**
   * The sub_gens table: positive, distinct ids, every row belongs to a
   * registered file, and no shingle is stored twice for one pair.
   */
  ghost predicate RowsWellFormed(files: seq<FileRow>, rows: seq<SubGenRow>)
  {
    && (forall j :: 0 <= j < |rows| ==> rows[j].id >= 1)
    && RowsRegistered(files, rows)
    && (forall i, j :: 0 <= i < j < |rows| ==> rows[i].id != rows[j].id)
    && (forall i, j :: 0 <= i < j < |rows| && Matches(rows[i], rows[j].fileId, rows[j].length) ==>
          rows[i].subGen != rows[j].subGen)
  }

  /** Every sub_gens row belongs to a registered file. */
  ghost predicate RowsRegistered(files: seq<FileRow>, rows: seq<SubGenRow>)
  {
    forall j :: 0 <= j < |rows| ==> rows[j].fileId in FileIds(files)
  }

  ghost predicate WellFormed(files: seq<FileRow>, rows: seq<SubGenRow>)
  {
    FilesWellFormed(files) && RowsWellFormed(files, rows)
  }

  /**
   * The rows saveSubGensIntoDB leaves behind: the old rows, then one row per
   * member of subs for (fileId, k), with the ids following the old maximum.
   */
  ghost predicate BlockAppended(before: seq<SubGenRow>, after: seq<SubGenRow>, fileId: int, k: nat, subs: set<string>)
  {
    RowsAppended(before, after, MaxOrZero(SubGenIds(before)), fileId, k, subs)
  }

  /** The old rows, then one row per member of subs for (fileId, k), with ids lastId + 1, lastId + 2, ... */
  ghost predicate RowsAppended(before: seq<SubGenRow>, after: seq<SubGenRow>, lastId: int,
                               fileId: int, k: nat, subs: set<string>)
  {
    && |after| == |before| + |subs|
    && after[..|before|] == before
    && (forall j :: |before| <= j < |after| ==>
          after[j].id == lastId + (j - |before|) + 1 && Matches(after[j], fileId, k))
    && (forall i, j :: |before| <= i < j < |after| ==> after[i].subGen != after[j].subGen)
    && NewValues(after, |before|) == subs
  }

  /** The shingles of the rows from index n on. */
  function NewValues(rows: seq<SubGenRow>, n: int): set<string>
  {
    set j | n <= j < |rows| && 0 <= j :: rows[j].subGen
  }

  /** The tables after uploadGenomeToDb(name, subs) with shingle length k. */
  ghost predicate Uploaded(filesB: seq<FileRow>, rowsB: seq<SubGenRow>,
                           filesA: seq<FileRow>, rowsA: seq<SubGenRow>,
                           name: string, subs: set<string>, k: nat)
  {
    match LookupFileId(filesB, name)
    case Some(id) =>
      && filesA == filesB
      && if ParsedMarker(rowsB, id, k) != 0 then rowsA == rowsB else BlockAppended(rowsB, rowsA, id, k, subs)
    case None =>
      var newId := MaxOrZero(FileIds(filesB)) + 1;
      && filesA == filesB + [FileRow(newId, name)]
      && BlockAppended(rowsB, rowsA, newId, k, subs)
  }

  /** With names unique, the row with a name is the only one. */
  lemma {:induction false} LookupUnique(files: seq<FileRow>, i: int)
    requires FilesWellFormed(files)
    requires 0 <= i < |files|
    ensures LookupFileId(files, files[i].fileName) == Some(files[i].fileId)
  {
    if i > 0 {
      LookupUnique(files[1..], i - 1);
    }
  }

  /**
   * Since every row id is at least 1, the "already parsed" test
   * `max(id) != 0` holds exactly when the pair has rows.
   */
  lemma ParsedMarkerIffRows(rows: seq<SubGenRow>, fileId: int, k: nat)
    requires forall j :: 0 <= j < |rows| ==> rows[j].id >= 1
    ensures ParsedMarker(rows, fileId, k) != 0 <==> StoredSet(rows, fileId, k) != {}
  {
    var ids := IdsFor(rows, fileId, k);
    if StoredSet(rows, fileId, k) != {} {
      var s :| s in StoredSet(rows, fileId, k);
      var j :| 0 <= j < |rows| && Matches(rows[j], fileId, k) && rows[j].subGen == s;
      assert rows[j].id in ids;
    }
    if ParsedMarker(rows, fileId, k) != 0 {
      var x := ParsedMarker(rows, fileId, k);
      assert x in ids;
      var j :| 0 <= j < |rows| && Matches(rows[j], fileId, k) && rows[j].id == x;
      assert rows[j].subGen in StoredSet(rows, fileId, k);
    }
  }

  /** The id a new file gets, max(file_id) + 1, is positive, 1 on an empty table, and above every file id. */
  lemma NewFileIdFresh(files: seq<FileRow>)
    requires forall i :: 0 <= i < |files| ==> files[i].fileId >= 1
    ensures var newId := MaxOrZero(FileIds(files)) + 1;
      && newId >= 1
      && (|files| == 0 ==> newId == 1)
      && (forall i :: 0 <= i < |files| ==> files[i].fileId < newId)
  {
    var ids := FileIds(files);
    forall i | 0 <= i < |files|
      ensures files[i].fileId <= MaxOrZero(ids)
    {
      assert ids[i] == files[i].fileId;
    }
    if |files| > 0 {
      assert files[0].fileId <= MaxOrZero(ids);
    }
  }

  lemma RegisterFilesWellFormed(files: seq<FileRow>, name: string)
    requires FilesWellFormed(files)
    requires LookupFileId(files, name) == None
    ensures FilesWellFormed(files + [FileRow(MaxOrZero(FileIds(files)) + 1, name)])
  {
    NewFileIdFresh(files);
  }

  /** Registering a file keeps every sub_gens row pointing at a registered file. */
  lemma RegisterRowsWellFormed(files: seq<FileRow>, rows: seq<SubGenRow>, row: FileRow)
    requires RowsWellFormed(files, rows)
    ensures RowsWellFormed(files + [row], rows)
  {
    assert FileIds(files + [row]) == FileIds(files) + [row.fileId];
  }

  /** After registering an unknown name, it resolves to its new id and every other name as before. */
  lemma RegisterLookup(files: seq<FileRow>, name: string, newId: int)
    requires FilesWellFormed(files) && FilesWellFormed(files + [FileRow(newId, name)])
    requires LookupFileId(files, name) == None
    ensures LookupFileId(files + [FileRow(newId, name)], name) == Some(newId)
    ensures forall other :: other != name ==>
      LookupFileId(files + [FileRow(newId, name)], other) == LookupFileId(files, other)
  {
    var files' := files + [FileRow(newId, name)];
    LookupUnique(files', |files|);
    forall other | other != name
      ensures LookupFileId(files', other) == LookupFileId(files, other)
    {
      match LookupFileId(files, other)
      case None =>
      case Some(id) =>
        var i :| 0 <= i < |files| && files[i].fileName == other && files[i].fileId == id;
        LookupUnique(files, i);
        LookupUnique(files', i);
    }
  }

  /** A file id no file has owns no sub_gens row, for any length. */
  lemma UnregisteredHasNoRows(files: seq<FileRow>, rows: seq<SubGenRow>, id: int)
    requires RowsRegistered(files, rows)
    requires id !in FileIds(files)
    ensures forall kk: nat :: StoredSet(rows, id, kk) == {}
  {
    assert forall j :: 0 <= j < |rows| ==> rows[j].fileId != id;
  }

  /** The id a new file gets is no file's id yet, so it owns no shingle, for any length. */
  lemma NewFileIdUnused(files: seq<FileRow>, rows: seq<SubGenRow>, newId: int)
    requires RowsRegistered(files, rows)
    requires newId == MaxOrZero(FileIds(files)) + 1
    ensures newId !in FileIds(files)
    ensures forall kk: nat :: StoredSet(rows, newId, kk) == {}
  {
    assert newId !in FileIds(files);
    UnregisteredHasNoRows(files, rows, newId);
  }

  /** Registering an unknown name under the new id keeps both tables well formed. */
  lemma RegisterWellFormed(files: seq<FileRow>, rows: seq<SubGenRow>, name: string)
    requires WellFormed(files, rows)
    requires LookupFileId(files, name) == None
    ensures WellFormed(files + [FileRow(MaxOrZero(FileIds(files)) + 1, name)], rows)
  {
    RegisterFilesWellFormed(files, name);
    RegisterRowsWellFormed(files, rows, FileRow(MaxOrZero(FileIds(files)) + 1, name));
  }

  /** After registering an unknown name, its shingles can be saved under the new id. */
  lemma RegisterReady(files: seq<FileRow>, rows: seq<SubGenRow>, name: string, newId: int, k: nat)
    requires WellFormed(files, rows)
    requires LookupFileId(files, name) == None
    requires newId == MaxOrZero(FileIds(files)) + 1
    ensures WellFormed(files + [FileRow(newId, name)], rows)
    ensures newId in FileIds(files + [FileRow(newId, name)])
    ensures StoredSet(rows, newId, k) == {}
  {
    assert StoredSet(rows, newId, k) == {} by { NewFileIdUnused(files, rows, newId); }
    assert WellFormed(files + [FileRow(newId, name)], rows) by { RegisterWellFormed(files, rows, name); }
    assert FileIds(files + [FileRow(newId, name)])[|files|] == newId;
  }

  /** The ids of a block come after every id of the old rows, so no old row has one. */
  lemma BlockIdsFresh(before: seq<SubGenRow>, after: seq<SubGenRow>, fileId: int, k: nat, subs: set<string>)
    requires forall j :: 0 <= j < |before| ==> before[j].id >= 1
    requires BlockAppended(before, after, fileId, k, subs)
    ensures forall i, j :: 0 <= i < |before| <= j < |after| ==> before[i].id < after[j].id
    ensures forall j :: |before| <= j < |after| ==> after[j].id >= 1
  {
    var ids := SubGenIds(before);
    forall i | 0 <= i < |before|
      ensures before[i].id <= MaxOrZero(ids)
    {
      assert ids[i] == before[i].id;
    }
    if |before| > 0 {
      assert before[0].id <= MaxOrZero(ids);
    }
  }

  lemma BlockRowsWellFormed(files: seq<FileRow>, before: seq<SubGenRow>, after: seq<SubGenRow>,
                            fileId: int, k: nat, subs: set<string>)
    requires RowsWellFormed(files, before)
    requires fileId in FileIds(files)
    requires StoredSet(before, fileId, k) == {}
    requires BlockAppended(before, after, fileId, k, subs)
    ensures RowsWellFormed(files, after)
  {
    var n := |before|;
    BlockIdsFresh(before, after, fileId, k, subs);
    NoRowMatches(before, fileId, k);
    assert forall i :: 0 <= i < n ==> after[i] == before[i];
  }

  /** Every row of a pair contributes its shingle to the pair's stored set. */
  lemma RowsInStored(rows: seq<SubGenRow>, fileId: int, k: nat)
    ensures forall j :: 0 <= j < |rows| && Matches(rows[j], fileId, k) ==> rows[j].subGen in StoredSet(rows, fileId, k)
  {
  }

  /** A pair whose stored set is empty has no row at all. */
  lemma NoRowMatches(rows: seq<SubGenRow>, fileId: int, k: nat)
    requires StoredSet(rows, fileId, k) == {}
    ensures forall j :: 0 <= j < |rows| ==> !Matches(rows[j], fileId, k)
  {
    RowsInStored(rows, fileId, k);
  }

  /** After the block the pair holds exactly the given shingles. */
  lemma BlockStoredSet(before: seq<SubGenRow>, after: seq<SubGenRow>, fileId: int, k: nat, subs: set<string>)
    requires StoredSet(before, fileId, k) == {}
    requires BlockAppended(before, after, fileId, k, subs)
    ensures StoredSet(after, fileId, k) == subs
  {
    var n := |before|;
    NoRowMatches(before, fileId, k);
    assert forall i :: 0 <= i < n ==> after[i] == before[i];
    forall s
      ensures s in StoredSet(after, fileId, k) <==> s in subs
    {
      if s in StoredSet(after, fileId, k) {
        var j :| 0 <= j < |after| && Matches(after[j], fileId, k) && after[j].subGen == s;
        assert j >= n;
        assert s in NewValues(after, n);
      }
      if s in subs {
        assert s in NewValues(after, n);
        var j :| n <= j < |after| && 0 <= j && after[j].subGen == s;
        assert s in StoredSet(after, fileId, k);
      }
    }
  }

  /** The block leaves every other (file, length) pair as it was. */
  lemma BlockOtherPairs(before: seq<SubGenRow>, after: seq<SubGenRow>, fileId: int, k: nat, subs: set<string>,
                        f: int, kk: nat)
    requires BlockAppended(before, after, fileId, k, subs)
    requires f != fileId || kk != k
    ensures StoredSet(after, f, kk) == StoredSet(before, f, kk)
  {
    var n := |before|;
    assert forall i :: 0 <= i < n ==> after[i] == before[i];
    forall s
      ensures s in StoredSet(after, f, kk) <==> s in StoredSet(before, f, kk)
    {
      if s in StoredSet(before, f, kk) {
        var j :| 0 <= j < n && Matches(before[j], f, kk) && before[j].subGen == s;
        assert after[j] == before[j];
      }
    }
  }

  /**
   * Appending a block for a pair that had no rows keeps the tables well
   * formed, makes the pair hold exactly subs, gives every new row an id no
   * old row has, and leaves every other pair as it was.
   */
  lemma BlockAppendedEffects(files: seq<FileRow>, before: seq<SubGenRow>, after: seq<SubGenRow>,
                             fileId: int, k: nat, subs: set<string>)
    requires WellFormed(files, before)
    requires fileId in FileIds(files)
    requires StoredSet(before, fileId, k) == {}
    requires BlockAppended(before, after, fileId, k, subs)
    ensures WellFormed(files, after)
    ensures StoredSet(after, fileId, k) == subs
    ensures forall i, j :: 0 <= i < |before| <= j < |after| ==> before[i].id < after[j].id
    ensures forall f, kk: nat :: (f != fileId || kk != k) ==> StoredSet(after, f, kk) == StoredSet(before, f, kk)
  {
    BlockIdsFresh(before, after, fileId, k, subs);
    BlockRowsWellFormed(files, before, after, fileId, k, subs);
    BlockStoredSet(before, after, fileId, k, subs);
    BlockOtherPairsAll(before, after, fileId, k, subs);
  }

  lemma BlockOtherPairsAll(before: seq<SubGenRow>, after: seq<SubGenRow>, fileId: int, k: nat, subs: set<string>)
    requires BlockAppended(before, after, fileId, k, subs)
    ensures forall f, kk: nat :: (f != fileId || kk != k) ==> StoredSet(after, f, kk) == StoredSet(before, f, kk)
  {
    forall f, kk: nat | f != fileId || kk != k
      ensures StoredSet(after, f, kk) == StoredSet(before, f, kk)
    {
      BlockOtherPairs(before, after, fileId, k, subs, f, kk);
    }
  }

  /**
   * One call of uploadGenomeToDb keeps the tables well formed, only appends
   * rows, leaves the name registered, makes it hold AfterIngest of what it
   * held (its old shingles if it had some, else subs), and changes nothing
   * stored for another name or another length.
   */
  lemma UploadEffects(filesB: seq<FileRow>, rowsB: seq<SubGenRow>,
                      filesA: seq<FileRow>, rowsA: seq<SubGenRow>,
                      name: string, subs: set<string>, k: nat)
    requires WellFormed(filesB, rowsB)
    requires Uploaded(filesB, rowsB, filesA, rowsA, name, subs, k)
    ensures WellFormed(filesA, rowsA)
    ensures |filesB| <= |filesA| && filesA[..|filesB|] == filesB
    ensures |rowsB| <= |rowsA| && rowsA[..|rowsB|] == rowsB
    ensures LookupFileId(filesA, name).Some?
    ensures StoredFor(filesA, rowsA, name, k) == AfterIngest(StoredFor(filesB, rowsB, name, k), subs)
    ensures forall other, kk: nat :: (other != name || kk != k) ==>
      StoredFor(filesA, rowsA, other, kk) == StoredFor(filesB, rowsB, other, kk)
  {
    match LookupFileId(filesB, name)
    case Some(id) =>
      UploadKnownEffects(filesB, rowsB, filesA, rowsA, name, subs, k, id);
    case None =>
      UploadNewEffects(filesB, rowsB, filesA, rowsA, name, subs, k);
  }

  lemma UploadKnownEffects(filesB: seq<FileRow>, rowsB: seq<SubGenRow>,
                           filesA: seq<FileRow>, rowsA: seq<SubGenRow>,
                           name: string, subs: set<string>, k: nat, id: int)
    requires WellFormed(filesB, rowsB)
    requires LookupFileId(filesB, name) == Some(id)
    requires filesA == filesB
    requires if ParsedMarker(rowsB, id, k) != 0 then rowsA == rowsB else BlockAppended(rowsB, rowsA, id, k, subs)
    ensures WellFormed(filesA, rowsA)
    ensures |rowsB| <= |rowsA| && rowsA[..|rowsB|] == rowsB
    ensures StoredSet(rowsA, id, k) == AfterIngest(StoredSet(rowsB, id, k), subs)
    ensures StoredFor(filesA, rowsA, name, k) == AfterIngest(StoredFor(filesB, rowsB, name, k), subs)
    ensures forall other, kk: nat :: (other != name || kk != k) ==>
      StoredFor(filesA, rowsA, other, kk) == StoredFor(filesB, rowsB, other, kk)
  {
    var i :| 0 <= i < |filesB| && filesB[i].fileName == name && filesB[i].fileId == id;
    assert id in FileIds(filesB) by { assert FileIds(filesB)[i] == id; }
    ParsedMarkerIffRows(rowsB, id, k);
    if ParsedMarker(rowsB, id, k) == 0 {
      BlockAppendedEffects(filesB, rowsB, rowsA, id, k, subs);
      forall other, kk: nat | other != name || kk != k
        ensures StoredFor(filesA, rowsA, other, kk) == StoredFor(filesB, rowsB, other, kk)
      {
        match LookupFileId(filesB, other)
        case None =>
        case Some(id') =>
          var i' :| 0 <= i' < |filesB| && filesB[i'].fileName == other && filesB[i'].fileId == id';
          if other != name {
            assert i != i';
          }
      }
    }
  }

  lemma UploadNewEffects(filesB: seq<FileRow>, rowsB: seq<SubGenRow>,
                         filesA: seq<FileRow>, rowsA: seq<SubGenRow>,
                         name: string, subs: set<string>, k: nat)
    requires WellFormed(filesB, rowsB)
    requires LookupFileId(filesB, name) == None
    requires filesA == filesB + [FileRow(MaxOrZero(FileIds(filesB)) + 1, name)]
    requires BlockAppended(rowsB, rowsA, MaxOrZero(FileIds(filesB)) + 1, k, subs)
    ensures WellFormed(filesA, rowsA)
    ensures |rowsB| <= |rowsA| && rowsA[..|rowsB|] == rowsB
    ensures LookupFileId(filesA, name) == Some(MaxOrZero(FileIds(filesB)) + 1)
    ensures StoredSet(rowsA, MaxOrZero(FileIds(filesB)) + 1, k) == subs
    ensures StoredFor(filesA, rowsA, name, k) == AfterIngest(StoredFor(filesB, rowsB, name, k), subs)
    ensures forall other, kk: nat :: (other != name || kk != k) ==>
      StoredFor(filesA, rowsA, other, kk) == StoredFor(filesB, rowsB, other, kk)
  {
    UploadNewWellFormed(filesB, rowsB, filesA, rowsA, name, subs, k);
    UploadNewStored(filesB, rowsB, filesA, rowsA, name, subs, k);
    UploadNewOthers(filesB, rowsB, filesA, rowsA, name, subs, k);
  }

  lemma UploadNewWellFormed(filesB: seq<FileRow>, rowsB: seq<SubGenRow>,
                            filesA: seq<FileRow>, rowsA: seq<SubGenRow>,
                            name: string, subs: set<string>, k: nat)
    requires WellFormed(filesB, rowsB)
    requires LookupFileId(filesB, name) == None
    requires filesA == filesB + [FileRow(MaxOrZero(FileIds(filesB)) + 1, name)]
    requires BlockAppended(rowsB, rowsA, MaxOrZero(FileIds(filesB)) + 1, k, subs)
    ensures WellFormed(filesA, rowsA)
  {
    var newId := MaxOrZero(FileIds(filesB)) + 1;
    assert StoredSet(rowsB, newId, k) == {} by { NewFileIdUnused(filesB, rowsB, newId); }
    assert newId in FileIds(filesA) by { assert FileIds(filesA)[|filesB|] == newId; }
    RegisterWellFormed(filesB, rowsB, name);
    BlockRowsWellFormed(filesA, rowsB, rowsA, newId, k, subs);
  }

  lemma UploadNewStored(filesB: seq<FileRow>, rowsB: seq<SubGenRow>,
                        filesA: seq<FileRow>, rowsA: seq<SubGenRow>,
                        name: string, subs: set<string>, k: nat)
    requires FilesWellFormed(filesB) && RowsRegistered(filesB, rowsB)
    requires LookupFileId(filesB, name) == None
    requires filesA == filesB + [FileRow(MaxOrZero(FileIds(filesB)) + 1, name)]
    requires BlockAppended(rowsB, rowsA, MaxOrZero(FileIds(filesB)) + 1, k, subs)
    ensures LookupFileId(filesA, name) == Some(MaxOrZero(FileIds(filesB)) + 1)
    ensures StoredSet(rowsA, MaxOrZero(FileIds(filesB)) + 1, k) == subs
  {
    var newId := MaxOrZero(FileIds(filesB)) + 1;
    assert LookupFileId(filesA, name) == Some(newId) by {
      RegisterFilesWellFormed(filesB, name);
      LookupUnique(filesA, |filesB|);
    }
    assert StoredSet(rowsB, newId, k) == {} by { NewFileIdUnused(filesB, rowsB, newId); }
    BlockStoredSet(rowsB, rowsA, newId, k, subs);
  }

  lemma UploadNewOthers(filesB: seq<FileRow>, rowsB: seq<SubGenRow>,
                        filesA: seq<FileRow>, rowsA: seq<SubGenRow>,
                        name: string, subs: set<string>, k: nat)
    requires FilesWellFormed(filesB) && RowsRegistered(filesB, rowsB)
    requires LookupFileId(filesB, name) == None
    requires filesA == filesB + [FileRow(MaxOrZero(FileIds(filesB)) + 1, name)]
    requires BlockAppended(rowsB, rowsA, MaxOrZero(FileIds(filesB)) + 1, k, subs)
    ensures forall other, kk: nat :: (other != name || kk != k) ==>
      StoredFor(filesA, rowsA, other, kk) == StoredFor(filesB, rowsB, other, kk)
  {
    var newId := MaxOrZero(FileIds(filesB)) + 1;
    assert LookupFileId(filesA, name) == Some(newId)
        && (forall other :: other != name ==> LookupFileId(filesA, other) == LookupFileId(filesB, other))
    by {
      RegisterFilesWellFormed(filesB, name);
      RegisterLookup(filesB, name, newId);
    }
    assert newId !in FileIds(filesB) && (forall kk: nat :: StoredSet(rowsB, newId, kk) == {}) by {
      NewFileIdUnused(filesB, rowsB, newId);
    }
    BlockOtherPairsAll(rowsB, rowsA, newId, k, subs);
    NewNameOthersUnchanged(filesB, rowsB, filesA, rowsA, name, k, newId);
  }

  /**
   * Every other name keeps its shingles when a new name is registered under
   * a fresh id and only the new (id, k) pair gains rows.
   */
  lemma NewNameOthersUnchanged(filesB: seq<FileRow>, rowsB: seq<SubGenRow>,
                               filesA: seq<FileRow>, rowsA: seq<SubGenRow>,
                               name: string, k: nat, newId: int)
    requires LookupFileId(filesB, name) == None
    requires LookupFileId(filesA, name) == Some(newId)
    requires forall other :: other != name ==> LookupFileId(filesA, other) == LookupFileId(filesB, other)
    requires newId !in FileIds(filesB)
    requires forall kk: nat :: StoredSet(rowsB, newId, kk) == {}
    requires forall f, kk: nat :: (f != newId || kk != k) ==> StoredSet(rowsA, f, kk) == StoredSet(rowsB, f, kk)
    ensures forall other, kk: nat :: (other != name || kk != k) ==>
      StoredFor(filesA, rowsA, other, kk) == StoredFor(filesB, rowsB, other, kk)
  {
    forall other, kk: nat | other != name || kk != k
      ensures StoredFor(filesA, rowsA, other, kk) == StoredFor(filesB, rowsB, other, kk)
    {
      LookupInIds(filesB, other);
    }
  }

  /** A name that resolves, resolves to one of the registered ids. */
  lemma LookupInIds(files: seq<FileRow>, name: string)
    ensures LookupFileId(files, name).Some? ==> LookupFileId(files, name).value in FileIds(files)
  {
    if LookupFileId(files, name).Some? {
      var i :| 0 <= i < |files| && files[i].fileName == name && files[i].fileId == LookupFileId(files, name).value;
      assert FileIds(files)[i] == files[i].fileId;
    }
  }

  /**
   * Uploading the same name and shingle set twice leaves the tables as the
   * first upload left them: either the pair now has rows and the second call
   * is skipped, or subs was empty and the second call appends no row.
   */
  lemma UploadIdempotent(files0: seq<FileRow>, rows0: seq<SubGenRow>,
                         files1: seq<FileRow>, rows1: seq<SubGenRow>,
                         files2: seq<FileRow>, rows2: seq<SubGenRow>,
                         name: string, subs: set<string>, k: nat)
    requires WellFormed(files0, rows0)
    requires Uploaded(files0, rows0, files1, rows1, name, subs, k)
    requires Uploaded(files1, rows1, files2, rows2, name, subs, k)
    ensures files2 == files1 && rows2 == rows1
  {
    UploadEffects(files0, rows0, files1, rows1, name, subs, k);
    var id := LookupFileId(files1, name).value;
    ParsedMarkerIffRows(rows1, id, k);
    if ParsedMarker(rows1, id, k) == 0 {
      assert subs == {};
      assert rows2 == rows2[..|rows1|];
    }
  }

  /** The genomes database: the two tables, updated in place. */
  class GenomeDatabase {
    var files: seq<FileRow>
    var subGens: seq<SubGenRow>

    ghost predicate Valid()
      reads this
    {
      WellFormed(files, subGens)
    }

    constructor ()
      ensures Valid() && files == [] && subGens == []
    {
      files := [];
      subGens := [];
    }

    /**
     * saveSubGensIntoDB: read max(id) of the whole table, then insert one row
     * per shingle with the next id, in the set's iteration order.
     */
    method SaveSubGensIntoDb(subs: set<string>, fileId: int, k: nat)
      requires Valid()
      requires fileId in FileIds(files)
      requires StoredSet(subGens, fileId, k) == {}
      modifies this`subGens
      ensures Valid()
      ensures BlockAppended(old(subGens), subGens, fileId, k, subs)
      ensures StoredSet(subGens, fileId, k) == subs
    {
      var lastId := MaxOrZero(SubGenIds(subGens));
      InsertBlock(subs, fileId, k, lastId);
      BlockAppendedEffects(files, old(subGens), subGens, fileId, k, subs);
    }

    /** The insertion loop of saveSubGensIntoDB: the rows get ids lastId + 1, lastId + 2, ... */
    method InsertBlock(subs: set<string>, fileId: int, k: nat, lastId: int)
      modifies this`subGens
      ensures RowsAppended(old(subGens), subGens, lastId, fileId, k, subs)
    {
      ghost var before := subGens;
      var newSubGenId := lastId;
      var remaining := subs;
      ghost var done: set<string> := {};
      while remaining != {}
        invariant done == subs - remaining && remaining <= subs
        invariant newSubGenId == lastId + |done|
        invariant RowsAppended(before, subGens, lastId, fileId, k, done)
        decreases remaining
      {
        var sub :| sub in remaining;
        TakeOne(subs, remaining, done, sub);
        newSubGenId := newSubGenId + 1;
        AppendRow(before, subGens, lastId, fileId, k, done, sub, newSubGenId);
        subGens := subGens + [SubGenRow(newSubGenId, fileId, sub, k)];
        remaining := remaining - {sub};
        done := done + {sub};
      }
      assert done == subs;
    }

    /**
     * uploadGenomeToDb: a known name keeps its id and is skipped when its
     * pair already has rows; an unknown name is registered under
     * max(file_id) + 1. In both other cases the shingles are saved.
     */
    method UploadGenomeToDb(name: string, subs: set<string>, k: nat)
      requires Valid()
      modifies this
      ensures Valid()
      ensures Uploaded(old(files), old(subGens), files, subGens, name, subs, k)
    {
      var found := LookupFileId(files, name);
      match found
      case Some(fileId) =>
        SaveUnlessParsed(name, fileId, subs, k);
      case None =>
        RegisterAndSave(name, subs, k);
    }

    /** The branch of uploadGenomeToDb for a registered name: save unless max(id) is not 0. */
    method SaveUnlessParsed(name: string, fileId: int, subs: set<string>, k: nat)
      requires Valid()
      requires LookupFileId(files, name) == Some(fileId)
      modifies this
      ensures Valid()
      ensures Uploaded(old(files), old(subGens), files, subGens, name, subs, k)
    {
      var marker := ParsedMarker(subGens, fileId, k);
      if marker == 0 {
        assert fileId in FileIds(files) && StoredSet(subGens, fileId, k) == {} by {
          LookupInIds(files, name);
          ParsedMarkerIffRows(subGens, fileId, k);
        }
        SaveSubGensIntoDb(subs, fileId, k);
      }
    }

    /** The branch of uploadGenomeToDb for an unknown name: register it, then save. */
    method RegisterAndSave(name: string, subs: set<string>, k: nat)
      requires Valid()
      requires LookupFileId(files, name) == None
      modifies this
      ensures Valid()
      ensures Uploaded(old(files), old(subGens), files, subGens, name, subs, k)
    {
      var newFileId := MaxOrZero(FileIds(files)) + 1;
      RegisterReady(files, subGens, name, newFileId, k);
      files := files + [FileRow(newFileId, name)];
      SaveSubGensIntoDb(subs, newFileId, k);
    }
  }

  /** Moving one shingle from the remaining ones to the inserted ones. */
  lemma TakeOne(subs: set<string>, remaining: set<string>, done: set<string>, sub: string)
    requires done == subs - remaining && remaining <= subs
    requires sub in remaining
    ensures sub !in done && |done + {sub}| == |done| + 1
    ensures done + {sub} == subs - (remaining - {sub}) && remaining - {sub} <= subs
  {
  }

  /** One step of the insertion loop: the next row extends the block by one shingle. */
  lemma AppendRow(before: seq<SubGenRow>, rows: seq<SubGenRow>, lastId: int, fileId: int, k: nat,
                  done: set<string>, sub: string, id: int)
    requires RowsAppended(before, rows, lastId, fileId, k, done)
    requires sub !in done
    requires id == lastId + |done| + 1
    ensures RowsAppended(before, rows + [SubGenRow(id, fileId, sub, k)], lastId, fileId, k, done + {sub})
  {
    var n := |before|;
    var row := SubGenRow(id, fileId, sub, k);
    assert (rows + [row])[..n] == rows[..n];
    AppendValues(rows, n, row);
    AppendDistinct(rows, n, row);
  }

  /** The shingles from index n on, after one more row. */
  lemma AppendValues(rows: seq<SubGenRow>, n: nat, row: SubGenRow)
    requires n <= |rows|
    ensures NewValues(rows + [row], n) == NewValues(rows, n) + {row.subGen}
  {
    var rows' := rows + [row];
    forall s
      ensures s in NewValues(rows', n) <==> s in NewValues(rows, n) + {row.subGen}
    {
      if s in NewValues(rows', n) {
        var j :| n <= j < |rows'| && rows'[j].subGen == s;
        if j < |rows| {
          assert s in NewValues(rows, n);
        }
      }
      if s in NewValues(rows, n) {
        var j :| n <= j < |rows| && rows[j].subGen == s;
        assert rows'[j] == rows[j];
      }
      if s == row.subGen {
        assert rows'[|rows|].subGen == s;
      }
    }
  }

  /** A row whose shingle is new keeps the shingles from index n on pairwise distinct. */
  lemma AppendDistinct(rows: seq<SubGenRow>, n: nat, row: SubGenRow)
    requires n <= |rows|
    requires forall i, j :: n <= i < j < |rows| ==> rows[i].subGen != rows[j].subGen
    requires row.subGen !in NewValues(rows, n)
    ensures forall i, j :: n <= i < j < |rows| + 1 ==> (rows + [row])[i].subGen != (rows + [row])[j].subGen
  {
    var rows' := rows + [row];
    forall i, j | n <= i < j < |rows'|
      ensures rows'[i].subGen != rows'[j].subGen
    {
      if j == |rows| {
        assert rows[i].subGen in NewValues(rows, n);
      }
    }
  }
}
