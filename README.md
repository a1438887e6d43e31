# GenomesShingling in Dafny

A model of `Shingling.java`, a small program that compares two genome files by
the Jaccard similarity of their shingle sets. A shingle is a window of k
characters. The program keeps the shingles in a PostgreSQL schema `genomes`
with two tables:

- `genome_files(file_id, file_name)` registers a file under a numeric id;
- `sub_gens(id, file_id, sub_gen, length)` holds one row per shingle of a file
  for one shingle length.

The model has four modules.

- `Extraction` (`extraction.dfy`) models `uploadFile` up to the call of
  `uploadGenomeToDb`.
  - The lines are joined by a loop (`JoinLines`).
  - The three `replaceAll` calls become `Normalize`.
  - The `HashSet` loop becomes `ExtractShingles`.
  - Each loop is a method proved against a specification function (`Concat`,
    `Shingles`). The lemmas state what those functions mean.
- `Store` (`store.dfy`) models the two tables and the statements run on them.
  - Each SQL query is a function of the table contents (`LookupFileId`,
    `MaxOrZero`, `ParsedMarker`, `StoredSet`).
  - The database is the class `GenomeDatabase`. Its two fields are sequences
    of rows.
  - `uploadGenomeToDb` and `saveSubGensIntoDB` are methods. They append to
    these fields, and the insertion loop runs over the shingle set in an
    unspecified order.
  - `WellFormed` is the invariant the methods keep:
    - file ids and row ids are positive and distinct;
    - file names are distinct;
    - every row belongs to a registered file;
    - no shingle is stored twice for one (file, length) pair.
  - `Uploaded` relates the tables before and after one upload, branch by
    branch.
  - The lemmas derive what an upload promises, including idempotence.
- `Similarity` (`similarity.dfy`) models the Jaccard similarity itself.
  - The value is the pair of counts |X ∩ Y| and |X ∪ Y| (`Ratio`).
  - When both sets are empty, the similarity is `Undefined`.
- `Shingling` (`shingling.dfy`) models `uploadFile` and `calcJaccard`.
  - Both run against a `GenomeDatabase`.
  - The content of a file is given as its list of lines.
  - `CALCULATE_JACCARD_SIMILARITY` is `SimilarityQuery`. It has three
    outcomes:
    - the two counts;
    - a division by zero when neither pair has a row;
    - a numeric field overflow when the union count does not fit the
      `decimal(8,2)` cast, that is, when it is a million or more.
  - The file also holds the concrete scenarios: a repeated genome, two
    disjoint genomes, a half overlap, and two genomes too short for k.

The shingle length k (a static field set to 9 in the source) is a parameter of
every operation.

What the code does where a caller might expect more:

- `calcJaccard` does not signal a failed similarity query.
  - A division by zero or a numeric field overflow raises an `SQLException`.
    The exception is caught and only printed.
  - The method then returns the initial `0.0`.
  - The model keeps both facts. `CalcJaccard` returns the query outcome `r`.
    It also returns `jacValue`, the value the Java method returns
    (`JacValue`).
  - `JacValueRange` shows that this value lies in [0, 1] and reads 0 exactly
    when the files share no shingle or the query failed.
  - `ZeroIsAmbiguous` shows that disjoint files and two files with no shingle
    both read 0.
- `uploadGenomeToDb` returns nothing. Whether it inserted or skipped shows
  only in the tables and in a printed message.
- An upload of an empty shingle set for a pair that has no rows is not
  skipped, because `max(id)` is still 0. It appends nothing, so
  `UploadIdempotent` still holds.

## Model

| member | source | states |
|---|---|---|
| Extraction.JoinLines | src/Shingling.java:93-97 | the StringBuilder loop returns the lines concatenated in order, with no separator |
| Extraction.ConcatAppend | src/Shingling.java:95-97 | joining two lists of lines is joining each and appending the results |
| Extraction.RemoveChar | src/Shingling.java:99 | removing one literal character: the result has no occurrence of it, is no longer than the input, and holds only characters of the input |
| Extraction.RemoveCharAppend | src/Shingling.java:99 | removing a character distributes over concatenation |
| Extraction.RemoveCharAbsent | src/Shingling.java:99 | removing a character that does not occur changes nothing |
| Extraction.Normalize | src/Shingling.java:99 | after the three replaceAll calls no space, line feed or carriage return is left, and the text is no longer |
| Extraction.NormalizeAppend | src/Shingling.java:99 | normalisation distributes over concatenation |
| Extraction.NormalizeChar | src/Shingling.java:99 | a single character is deleted exactly when it is a space, line feed or carriage return, and kept otherwise |
| Extraction.NormalizeKeepsOthers | src/Shingling.java:99 | normalisation equals the independent definition Unstripped: every character that is not stripped survives, in order |
| Extraction.NormalizeClean | src/Shingling.java:99 | text without stripped characters is left unchanged |
| Extraction.NormalizeIdempotent | src/Shingling.java:99 | normalising twice is normalising once |
| Extraction.Genome | src/Shingling.java:93-99 | the genome of a file: its lines joined in order, then stripped of spaces, line feeds and carriage returns |
| Extraction.GenomeAppendLine | src/Shingling.java:93-99 | the genome of a file grows by the normalised last line |
| Extraction.Window | src/Shingling.java:103 | the substring at offset i has length k |
| Extraction.Shingles | src/Shingling.java:101-104 | every shingle has length k |
| Extraction.ShingleMembership | src/Shingling.java:101-104 | a string is a shingle if and only if it is the window at some offset 0..len-k |
| Extraction.WindowsBelowSize | src/Shingling.java:102-104 | the first n offsets give at most n distinct windows |
| Extraction.WindowsBelowExact | src/Shingling.java:102-104 | the first n offsets give exactly n windows if and only if no two of those windows are equal |
| Extraction.ShinglesShort | src/Shingling.java:102 | the shingle set is empty if and only if the genome is shorter than k |
| Extraction.ShinglesSize | src/Shingling.java:101-104 | for a genome of at least k characters there are between 1 and len-k+1 shingles, exactly len-k+1 if and only if no two windows are equal |
| Extraction.ExtractShingles | src/Shingling.java:101-104 | the HashSet loop collects exactly the shingle set |
| Store.MaxOrZero | src/Shingling.java:166-172 | max(...) read with getInt is 0 on an empty table, otherwise a member of the column that no other value exceeds |
| Store.LookupFileId | src/Shingling.java:119-123 | the lookup by name finds nothing exactly when no row has the name, and otherwise returns the id of a row with that name |
| Store.IdsFor | src/Shingling.java:24 | the ids selected for a (file, length) pair are exactly the ids of its rows |
| Store.LookupUnique | src/Shingling.java:119-123 | with distinct names, a registered name resolves to its own row's id |
| Store.ParsedMarker | src/Shingling.java:24 | GET_COUNT_BY_FILE_NAME_AND_LENGTH read with getInt: no row of the pair has an id above it, and when it is not 0 it is the id of one of the pair's rows |
| Store.StoredSet | src/Shingling.java:30 | the sub_gen selection for (file_id, length): the set of shingles of the rows matching the pair |
| Store.Uploaded | src/Shingling.java:118-154 | the tables after uploadGenomeToDb, branch by branch: a known name with max(id) != 0 leaves both tables unchanged; a known name with max(id) = 0 gets the saved block; an unknown name is inserted under max(file_id)+1 and then gets the saved block |
| Store.BlockAppended | src/Shingling.java:161-183 | the sub_gens table after saveSubGensIntoDB: the old rows unchanged, then one row per shingle for (file_id, k), with ids following the old max(id) consecutively and the shingles of the new rows exactly the saved set, each once |
| Store.ParsedMarkerIffRows | src/Shingling.java:125-131 | because every row id is at least 1, the test max(id) != 0 holds exactly when the pair has rows |
| Store.NewFileIdFresh | src/Shingling.java:138-144 | the new file id max(file_id)+1 is positive, is 1 on an empty table, and exceeds every existing id |
| Store.NewFileIdUnused | src/Shingling.java:138-144 | the new file id is not registered and owns no shingle, for any length |
| Store.RegisterFilesWellFormed | src/Shingling.java:146-150 | inserting an unknown name under the new id keeps file ids positive and distinct and names distinct |
| Store.RegisterRowsWellFormed | src/Shingling.java:146-150 | registering a file keeps every shingle row pointing at a registered file |
| Store.RegisterWellFormed | src/Shingling.java:146-150 | registering an unknown name keeps both tables well formed |
| Store.RegisterLookup | src/Shingling.java:146-150 | after the insert, the name resolves to the new id and every other name resolves as before |
| Store.RegisterReady | src/Shingling.java:137-152 | after registering, the tables are well formed, the new id is registered, and it has no shingles for k, so they can be saved |
| Store.UnregisteredHasNoRows | src/Shingling.java:146-152 | an id no file has owns no shingle row |
| Store.BlockIdsFresh | src/Shingling.java:166-182 | the ids ++new_sub_gen_id gives each inserted row exceed every old row id and are positive |
| Store.BlockRowsWellFormed | src/Shingling.java:161-183 | saving into a pair without rows keeps the sub_gens table well formed |
| Store.RowsInStored | src/Shingling.java:30 | every row of a pair contributes its shingle to the pair's selected set |
| Store.NoRowMatches | src/Shingling.java:30 | a pair whose selected set is empty has no row |
| Store.BlockStoredSet | src/Shingling.java:174-182 | after saving, the pair's selected set is exactly the saved set |
| Store.BlockOtherPairs | src/Shingling.java:174-182 | saving leaves the selected set of any other (file, length) pair unchanged |
| Store.BlockOtherPairsAll | src/Shingling.java:174-182 | the same for all other pairs at once |
| Store.BlockAppendedEffects | src/Shingling.java:161-183 | saving into a pair without rows: tables stay well formed, the pair holds exactly the saved set, new ids exceed old ones, other pairs unchanged |
| Store.UploadEffects | src/Shingling.java:109-159 | one upload keeps the tables well formed, only appends rows, leaves the name registered, makes it hold its old shingles if it had any and otherwise the uploaded set, and changes nothing for other names or lengths |
| Store.UploadKnownEffects | src/Shingling.java:122-136 | a registered name keeps its id; its pair keeps its rows if max(id) is not 0, otherwise it gets the uploaded set; other pairs unchanged |
| Store.UploadNewEffects | src/Shingling.java:137-154 | an unknown name is registered under the new id and gets exactly the uploaded set; old rows and other names unchanged |
| Store.UploadNewWellFormed | src/Shingling.java:137-154 | registering and saving for an unknown name keeps the tables well formed |
| Store.UploadNewStored | src/Shingling.java:137-154 | an unknown name resolves to the new id, which then holds exactly the uploaded set |
| Store.UploadNewOthers | src/Shingling.java:137-154 | registering and saving for an unknown name changes no other name's shingles and none of its other lengths |
| Store.NewNameOthersUnchanged | src/Shingling.java:137-154 | when only the new id's pair gains rows, every other (name, length) pair is unchanged |
| Store.LookupInIds | src/Shingling.java:119-123 | a name that resolves, resolves to a registered id |
| Store.UploadIdempotent | src/Shingling.java:125-136 | uploading the same name and set a second time leaves both tables exactly as the first upload left them |
| Store.GenomeDatabase.SaveSubGensIntoDb | src/Shingling.java:161-183 | saveSubGensIntoDB appends one row per shingle, with ids following max(id), keeps the tables well formed, and the pair then holds exactly the set |
| Store.GenomeDatabase.InsertBlock | src/Shingling.java:174-182 | the insertion loop, in any order of the set, appends one row per shingle for (file_id, k) with ids last+1, last+2, ... and changes no old row |
| Store.GenomeDatabase.UploadGenomeToDb | src/Shingling.java:109-159 | uploadGenomeToDb keeps the tables well formed and changes them as Uploaded states for its branch |
| Store.GenomeDatabase.SaveUnlessParsed | src/Shingling.java:122-136 | a registered name: nothing changes when max(id) for (file_id, k) is not 0, otherwise the set is saved |
| Store.GenomeDatabase.RegisterAndSave | src/Shingling.java:137-154 | an unknown name is inserted under max(file_id)+1, then the set is saved under that id |
| Store.AppendRow | src/Shingling.java:176-182 | one loop step extends the block by one row with the next id and a shingle not yet inserted |
| Similarity.JaccardOf | src/Shingling.java:29-37 | J(X, Y) is undefined exactly when both sets are empty; otherwise its union count is at least 1 and bounds both set sizes, and its intersection count is at most either size |
| Similarity.InclusionExclusion | src/Shingling.java:29-37 | intersection count plus union count equals the sum of the set sizes |
| Similarity.JaccardSymmetric | src/Shingling.java:29-37 | swapping the two files gives the same value |
| Similarity.JaccardIdentity | src/Shingling.java:29-37 | a non-empty set compared with itself gives |X|/|X|, that is 1 |
| Similarity.JaccardDisjoint | src/Shingling.java:29-37 | disjoint sets, not both empty, give 0 over |X|+|Y| |
| Similarity.JaccardOneIffEqual | src/Shingling.java:29-37 | when defined, the value is 1 if and only if the two sets are equal |
| Similarity.JaccardZeroIffDisjoint | src/Shingling.java:29-37 | when defined, the value is 0 if and only if the two sets are disjoint |
| Shingling.SimilarityQuery | src/Shingling.java:29-37 | the query overflows exactly when the union has a million or more shingles, divides by zero exactly when both sets are empty, and otherwise answers J(X, Y) with a union count below a million |
| Shingling.JaccardQuery | src/Shingling.java:72-81 | the query for (id1, k) and (id2, k) divides by zero exactly when neither pair has a row |
| Shingling.JacValue | src/Shingling.java:82-88 | the double calcJaccard returns: the query's value when the query answers, the initial 0.0 when it fails |
| Shingling.QuerySymmetric | src/Shingling.java:29-37 | swapping the two files gives the same query outcome, including the failures |
| Shingling.JacValueRange | src/Shingling.java:82-88 | the value calcJaccard returns, the query's value or the initial 0.0 when it failed, lies in [0, 1]; it is 0 exactly when the sets are disjoint or the union overflows the cast, and 1 exactly when the sets are equal, non-empty and below a million |
| Shingling.SelfComparison | src/Shingling.java:29-37 | a non-empty set of fewer than a million shingles compared with itself gives the ratio of its size to its size, that is 1 |
| Shingling.ZeroIsAmbiguous | src/Shingling.java:48-88 | disjoint files and files without shingles both return a value of 0 |
| Shingling.FileIdOrZero | src/Shingling.java:55-70 | the id read for a name is 0 when the lookup finds no row, otherwise the id of a row with that name |
| Shingling.StoredByIdOrZero | src/Shingling.java:55-81 | querying with the default id 0 selects the same set as the name's registered pair, since no file has id 0 |
| Shingling.UploadTwice | src/Shingling.java:46-47 | after both uploads each name holds its old shingles or the uploaded set, and tables stay well formed |
| Shingling.UploadFile | src/Shingling.java:92-107 | uploadFile uploads exactly the shingle set of the normalised joined lines |
| Shingling.CalcJaccard | src/Shingling.java:45-89 | calcJaccard leaves the tables as two uploads in a row leave them, first name1 then name2, each as Uploaded states. It returns the query outcome on the two names' stored sets, and its value. For two different names those sets are their old sets or, when they had none, their files' shingle sets. For one name used twice, both sides are what the two uploads leave for it |
| Shingling.FreshTables | src/Shingling.java:109-154 | an upload into empty tables registers the name under id 1, stores exactly the uploaded set, one row per shingle, with ids 1, 2, ... |
| Shingling.ScenarioRepeated | src/Shingling.java:101-104 | "AAAAAAAAAA" with k=9 has the single shingle "AAAAAAAAA" and similarity 1 with itself |
| Shingling.ScenarioDisjoint | src/Shingling.java:101-104 | "AAAAAAAAA" and "TTTTTTTTT" have one shingle each and similarity 0 over 2 |
| Shingling.ScenarioHalf | src/Shingling.java:101-104 | "AAAAAAAAAT" against "AAAAAAAAAA" with k=9 gives similarity 1 over 2 |
| Shingling.ScenarioTooShort | src/Shingling.java:101-104 | two genomes shorter than k give an undefined similarity |

## Left out

- Reading files (`Files.readAllLines`, UTF-8 decoding): a file is given as its list of lines, and characters are Dafny `char`s, not UTF-16 code units.
- JDBC: the connection, prepared statements and result sets are replaced by functions over the two tables. The schema `genomes` and `DatabaseConnection` are not part of this model.
- `main` and every `System.out.println`: they only print.
- Exceptions. The catch blocks only print a stack trace. A failing statement in the middle of an upload, and the partial batch it would leave behind, are not modelled. The two failures of the similarity query, which the program turns into the value 0.0, are modelled as the outcomes `DivisionByZero` and `NumericFieldOverflow`.
- Shingling.CalcJaccard: the quotient is kept as its two exact counts rather than as PostgreSQL's `numeric` division read back as a Java `double`. The `decimal(8,2)` cast of the integer counts loses nothing. Its one effect, the overflow of a count of a million or more, is modelled. The last digits of the numeric quotient and its conversion to a double are not.
- Any other SQL failure, such as a lost connection or a missing schema, is not modelled. Each of them would also make calcJaccard return 0.0.
- Java `int` overflow of `file_id`, `id` and `++new_sub_gen_id` beyond 2^31-1: the ids are unbounded integers.
- Store.GenomeDatabase.InsertBlock: the HashSet's iteration order is left unspecified. The loop picks any remaining shingle, and its contract holds for every order, so which shingle gets which id is not fixed.
- Concurrency: two programs uploading the same name at once could both read the same `max(file_id)`. Each method runs alone here.
- `replaceAll` takes a regular expression; the three patterns used are single literal characters, so regular-expression semantics are not modelled.
- The static field `k = 9` and the hard-coded file names are parameters.
- Table constraints the database itself might enforce (keys, types) are not modelled; the invariant `WellFormed` is what the program's own statements keep.
