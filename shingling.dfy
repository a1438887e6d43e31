/**
 * The Shingling program: uploadFile turns a file into its shingle set and
 * stores it, calcJaccard uploads two files and asks the database for the
 * Jaccard similarity of their shingle sets. The file's lines are given as a
 * parameter instead of being read from disk.
 */
module Shingling {
  import opened Extraction
  import opened Store
  import opened Similarity

  /** A file id read with `if (rs.next())` into a variable initialised to 0. */
  function FileIdOrZero(files: seq<FileRow>, name: string): (id: int)
    ensures LookupFileId(files, name).None? ==> id == 0
    ensures LookupFileId(files, name).Some? ==> exists i :: 0 <= i < |files| && files[i].fileName == name && files[i].fileId == id
  {
    match LookupFileId(files, name)
    case None => 0
    case Some(id) => id
  }

  /**
   * `count(*)::decimal(8,2)` has room for six digits before the point: a
   * count of a million or more makes the query fail with a numeric field
   * overflow.
   */
  const DecimalCountLimit: nat := 1000000

  /** What one run of CALCULATE_JACCARD_SIMILARITY yields. */
  datatype QueryOutcome = Answer(ratio: Ratio) | DivisionByZero | NumericFieldOverflow

  /**
   * The query on the two selected sets: the union count (never smaller than
   * the intersection count) overflows the cast, or is 0 and the division
   * fails, or the quotient is J(x, y).
   */
  function SimilarityQuery(x: set<string>, y: set<string>): (r: QueryOutcome)
    ensures r.NumericFieldOverflow? <==> |x + y| >= DecimalCountLimit
    ensures r.DivisionByZero? <==> x == {} && y == {}
    ensures r.Answer? ==> JaccardOf(x, y) == Defined(r.ratio) && r.ratio.total < DecimalCountLimit
  {
    if |x + y| >= DecimalCountLimit then NumericFieldOverflow
    else
      match JaccardOf(x, y)
      case Defined(q) => Answer(q)
      case Undefined => DivisionByZero
  }

  /** CALCULATE_JACCARD_SIMILARITY for the pairs (id1, k) and (id2, k). */
  function JaccardQuery(rows: seq<SubGenRow>, id1: int, id2: int, k: nat): (r: QueryOutcome)
    ensures r.DivisionByZero? <==>
      forall j :: 0 <= j < |rows| ==> !Matches(rows[j], id1, k) && !Matches(rows[j], id2, k)
  {
    RowsInStored(rows, id1, k);
    RowsInStored(rows, id2, k);
    SimilarityQuery(StoredSet(rows, id1, k), StoredSet(rows, id2, k))
  }

  /**
   * The double calcJaccard returns, as a ratio: the query's value, or the
   * initial 0.0 when the query failed (the SQLException is caught and only
   * printed).
   */
  function JacValue(r: QueryOutcome): Ratio
  {
    match r
    case Answer(q) => q
    case DivisionByZero => Ratio(0, 1)
    case NumericFieldOverflow => Ratio(0, 1)
  }

  /**
   * The returned value lies in [0, 1]. It is 0 exactly when the files share
   * no shingle or the query failed, and 1 exactly when the two sets are equal
   * and non-empty and the query did not overflow.
   */
  lemma JacValueRange(x: set<string>, y: set<string>)
    ensures 1 <= JacValue(SimilarityQuery(x, y)).total
    ensures JacValue(SimilarityQuery(x, y)).shared <= JacValue(SimilarityQuery(x, y)).total
    ensures JacValue(SimilarityQuery(x, y)).shared == 0 <==> x * y == {} || |x + y| >= DecimalCountLimit
    ensures JacValue(SimilarityQuery(x, y)).shared == JacValue(SimilarityQuery(x, y)).total <==>
      x == y && x != {} && |x| < DecimalCountLimit
  {
    assert x == y ==> x + y == x;
    if x != {} || y != {} {
      JaccardZeroIffDisjoint(x, y);
      JaccardOneIffEqual(x, y);
    }
  }

  /** The order of the two files does not change the query's outcome. */
  lemma QuerySymmetric(x: set<string>, y: set<string>)
    ensures SimilarityQuery(x, y) == SimilarityQuery(y, x)
  {
    JaccardSymmetric(x, y);
    assert x + y == y + x;
  }

  /** A file compared with itself, with at least one and fewer than a million shingles, gives 1. */
  lemma SelfComparison(x: set<string>)
    requires x != {} && |x| < DecimalCountLimit
    ensures SimilarityQuery(x, x) == Answer(Ratio(|x|, |x|))
  {
    assert x + x == x;
    JaccardIdentity(x);
  }

  /**
   * The returned value cannot tell two files without a common shingle from
   * two files without any shingle: both read 0.
   */
  lemma ZeroIsAmbiguous(x: set<string>, y: set<string>)
    requires x * y == {} && (x != {} || y != {}) && |x + y| < DecimalCountLimit
    ensures SimilarityQuery(x, y).Answer? && SimilarityQuery({}, {}).DivisionByZero?
    ensures JacValue(SimilarityQuery(x, y)).shared == 0 == JacValue(SimilarityQuery({}, {})).shared
  {
    JaccardDisjoint(x, y);
  }

  /** Since no file has id 0, the default id selects the empty set, as the name's stored set does. */
  lemma StoredByIdOrZero(files: seq<FileRow>, rows: seq<SubGenRow>, name: string, k: nat)
    requires WellFormed(files, rows)
    ensures StoredSet(rows, FileIdOrZero(files, name), k) == StoredFor(files, rows, name, k)
  {
    if LookupFileId(files, name).None? {
      assert forall i :: 0 <= i < |files| ==> FileIds(files)[i] != 0;
      UnregisteredHasNoRows(files, rows, 0);
    }
  }

  /**
   * What two uploads in a row leave stored for the two names: each name ends
   * with AfterIngest of what it held, and when the names are the same the
   * second upload ingests into what the first left.
   */
  lemma UploadTwice(files0: seq<FileRow>, rows0: seq<SubGenRow>,
                    files1: seq<FileRow>, rows1: seq<SubGenRow>,
                    files2: seq<FileRow>, rows2: seq<SubGenRow>,
                    name1: string, subs1: set<string>, name2: string, subs2: set<string>, k: nat)
    requires WellFormed(files0, rows0)
    requires Uploaded(files0, rows0, files1, rows1, name1, subs1, k)
    requires Uploaded(files1, rows1, files2, rows2, name2, subs2, k)
    ensures WellFormed(files2, rows2)
    ensures name1 != name2 ==>
      && StoredFor(files2, rows2, name1, k) == AfterIngest(StoredFor(files0, rows0, name1, k), subs1)
      && StoredFor(files2, rows2, name2, k) == AfterIngest(StoredFor(files0, rows0, name2, k), subs2)
    ensures name1 == name2 ==>
      StoredFor(files2, rows2, name2, k) == AfterIngest(AfterIngest(StoredFor(files0, rows0, name1, k), subs1), subs2)
  {
    assert WellFormed(files1, rows1)
        && StoredFor(files1, rows1, name1, k) == AfterIngest(StoredFor(files0, rows0, name1, k), subs1)
        && (name1 != name2 ==> StoredFor(files1, rows1, name2, k) == StoredFor(files0, rows0, name2, k))
    by {
      UploadEffects(files0, rows0, files1, rows1, name1, subs1, k);
    }
    UploadEffects(files1, rows1, files2, rows2, name2, subs2, k);
  }

  /** uploadFile: read the lines, normalise them, cut them into shingles of length k and store those. */
  method UploadFile(db: GenomeDatabase, name: string, lines: seq<string>, k: nat)
    requires db.Valid()
    modifies db
    ensures db.Valid()
    ensures Uploaded(old(db.files), old(db.subGens), db.files, db.subGens, name, Shingles(Genome(lines), k), k)
  {
    var text := JoinLines(lines);
    var genome := Normalize(text);
    var subs := ExtractShingles(genome, k);
    db.UploadGenomeToDb(name, subs, k);
  }

  /**
   * calcJaccard: upload both files, look up their ids (0 when a name is
   * missing) and run the similarity query for length k.
   */
  method CalcJaccard(db: GenomeDatabase, name1: string, lines1: seq<string>,
                     name2: string, lines2: seq<string>, k: nat) returns (r: QueryOutcome, jacValue: Ratio)
    requires db.Valid()
    modifies db
    ensures db.Valid()
    ensures jacValue == JacValue(r)
    ensures r == SimilarityQuery(StoredFor(db.files, db.subGens, name1, k), StoredFor(db.files, db.subGens, name2, k))
    ensures name1 != name2 ==>
      r == SimilarityQuery(AfterIngest(StoredFor(old(db.files), old(db.subGens), name1, k), Shingles(Genome(lines1), k)),
                           AfterIngest(StoredFor(old(db.files), old(db.subGens), name2, k), Shingles(Genome(lines2), k)))
    ensures name1 == name2 ==>
      var stored := AfterIngest(AfterIngest(StoredFor(old(db.files), old(db.subGens), name1, k),
                                            Shingles(Genome(lines1), k)), Shingles(Genome(lines2), k));
      r == SimilarityQuery(stored, stored)
    ensures exists files1: seq<FileRow>, rows1: seq<SubGenRow> ::
      && Uploaded(old(db.files), old(db.subGens), files1, rows1, name1, Shingles(Genome(lines1), k), k)
      && Uploaded(files1, rows1, db.files, db.subGens, name2, Shingles(Genome(lines2), k), k)
  {
    ghost var files0, rows0 := db.files, db.subGens;
    UploadFile(db, name1, lines1, k);
    ghost var files1, rows1 := db.files, db.subGens;
    UploadFile(db, name2, lines2, k);
    var id1 := FileIdOrZero(db.files, name1);
    var id2 := FileIdOrZero(db.files, name2);
    r := JaccardQuery(db.subGens, id1, id2, k);
    jacValue := JacValue(r);
    StoredByIdOrZero(db.files, db.subGens, name1, k);
    StoredByIdOrZero(db.files, db.subGens, name2, k);
    UploadTwice(files0, rows0, files1, rows1, db.files, db.subGens,
                name1, Shingles(Genome(lines1), k), name2, Shingles(Genome(lines2), k), k);
    assert Uploaded(files0, rows0, files1, rows1, name1, Shingles(Genome(lines1), k), k);
  }

  /**
   * An upload into empty tables registers the name under id 1 and stores
   * exactly the uploaded set, with row ids 1, 2, ... in insertion order.
   */
  lemma FreshTables(filesA: seq<FileRow>, rowsA: seq<SubGenRow>, name: string, subs: set<string>, k: nat)
    requires Uploaded([], [], filesA, rowsA, name, subs, k)
    ensures filesA == [FileRow(1, name)]
    ensures StoredFor(filesA, rowsA, name, k) == subs
    ensures |rowsA| == |subs|
    ensures forall j :: 0 <= j < |rowsA| ==> rowsA[j].id == j + 1 && Matches(rowsA[j], 1, k)
  {
    UploadEffects([], [], filesA, rowsA, name, subs, k);
  }

  /** "AAAAAAAAAA" with k = 9: both windows are "AAAAAAAAA", so there is one shingle and J(A, A) = 1. */
  lemma ScenarioRepeated()
    ensures Shingles("AAAAAAAAAA", 9) == {"AAAAAAAAA"}
    ensures JaccardOf(Shingles("AAAAAAAAAA", 9), Shingles("AAAAAAAAAA", 9)) == Defined(Ratio(1, 1))
  {
    var g := "AAAAAAAAAA";
    assert Window(g, 9, 0) == "AAAAAAAAA";
    assert Window(g, 9, 1) == "AAAAAAAAA";
    assert forall i :: 0 <= i <= |g| - 9 ==> Window(g, 9, i) == "AAAAAAAAA";
    JaccardIdentity({"AAAAAAAAA"});
  }

  /** A genome of exactly k characters is one shingle; two such with different letters are disjoint. */
  lemma ScenarioDisjoint()
    ensures Shingles("AAAAAAAAA", 9) == {"AAAAAAAAA"}
    ensures Shingles("TTTTTTTTT", 9) == {"TTTTTTTTT"}
    ensures JaccardOf(Shingles("AAAAAAAAA", 9), Shingles("TTTTTTTTT", 9)) == Defined(Ratio(0, 2))
  {
    assert Window("AAAAAAAAA", 9, 0) == "AAAAAAAAA";
    assert Window("TTTTTTTTT", 9, 0) == "TTTTTTTTT";
    assert "AAAAAAAAA"[0] != "TTTTTTTTT"[0];
    assert {"AAAAAAAAA"} * {"TTTTTTTTT"} == {};
    assert |{"AAAAAAAAA"} + {"TTTTTTTTT"}| == 2;
  }

  /** "AAAAAAAAAT" against "AAAAAAAAAA" with k = 9 share one of two shingles: J = 1/2. */
  lemma ScenarioHalf()
    ensures Shingles("AAAAAAAAAT", 9) == {"AAAAAAAAA", "AAAAAAAAT"}
    ensures JaccardOf(Shingles("AAAAAAAAAT", 9), Shingles("AAAAAAAAAA", 9)) == Defined(Ratio(1, 2))
  {
    var g := "AAAAAAAAAT";
    assert Window(g, 9, 0) == "AAAAAAAAA";
    assert Window(g, 9, 1) == "AAAAAAAAT";
    assert forall i :: 0 <= i <= |g| - 9 ==> Window(g, 9, i) in {"AAAAAAAAA", "AAAAAAAAT"};
    ScenarioRepeated();
    assert "AAAAAAAAA"[8] != "AAAAAAAAT"[8];
    assert {"AAAAAAAAA", "AAAAAAAAT"} * {"AAAAAAAAA"} == {"AAAAAAAAA"};
    assert {"AAAAAAAAA", "AAAAAAAAT"} + {"AAAAAAAAA"} == {"AAAAAAAAA", "AAAAAAAAT"};
  }

  /** Two genomes shorter than k have no shingle, so their similarity is undefined. */
  lemma ScenarioTooShort(a: string, b: string, k: nat)
    requires |a| < k && |b| < k
    ensures JaccardOf(Shingles(a, k), Shingles(b, k)) == Undefined
  {
    ShinglesShort(a, k);
    ShinglesShort(b, k);
  }
}
