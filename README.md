# Face recognition database reader — query layer

The program reads two SQLite stores that digiKam keeps side by side:

- `recognition.db` holds face identities, their attributes (the `name` attribute is a
  person's display name) and the stored face matrices;
- `digikam4.db` holds the photo catalogue: tags (person tags among them), images, the
  links from images to tags, image information (the creation date), albums and album roots.

`FaceRecognitionDbReader` lists identities and tags, finds the images tagged with a person
name, searches both stores for people by name, and counts rows for a statistics screen.
The console program merges identity and tag names into one list of people and guards its
search commands against blank input.

The model represents each store as a value holding one sequence of rows per table
(`Schema.RecognitionDb`, `Schema.DigikamDb`). Each SQL text is a pure function over those
tables:

- joins are `FlatMap`/`Filter`;
- `SELECT DISTINCT` is `Distinct`, which keeps the first occurrence;
- `ORDER BY` is `SortBy`, a stable insertion sort;
- `LIKE` is `SqlLike.Like`, SQLite's operator with `%`, `_` and ASCII-only case folding;
- `COUNT` is the length of a sequence or the size of a set of keys.

Each C# loop that reads rows is a method with a `while` loop. Its contract says it returns
exactly the records those rows convert to, including the code's null-to-default handling.
The properties the operations promise are lemmas about the query functions, stated against
the tables.

`Path.Combine` is modelled the way .NET implements it on Windows (`DotNetPath`): a rooted
later segment discards what comes before it, and empty segments are skipped. digiKam stores
`Albums.relativePath` with a leading `/`, and `Path.IsPathRooted` accepts that as rooted.
So when the album root path is non-empty, the full path built at
`FaceRecognitionDbReader.cs:121` starts at the relative path and drops the album root.
`DotNetPath.CombineRootedMiddleDropsRoot` and `DotNetPath.CombineExample` state this. The
model keeps the code's behaviour. `DotNetPath.JoinSegments` is a plain in-order join, and
`DotNetPath.CombineIsJoinWhenUnrooted` shows that the two agree whenever the relative path
and the name are not rooted.

## Model

| member | source | states |
|---|---|---|
| FaceRecognitionDbReader.IdentityJoinRows | facerecog_Db_reader/FaceRecognitionDbReader.cs:29-31 | the rows the left join gives one identity: one per `name` attribute, carrying its value, or one with a NULL name when it has none |
| FaceRecognitionDbReader.IdentitiesQuery | facerecog_Db_reader/FaceRecognitionDbReader.cs:28-33 | the identity query: the left join of every `Identities` row, sorted by name with NULL first |
| FaceRecognitionDbReader.TagsQuery | facerecog_Db_reader/FaceRecognitionDbReader.cs:58-62 | the tag query: every `Tags` row, sorted by name |
| FaceRecognitionDbReader.ReadTag | facerecog_Db_reader/FaceRecognitionDbReader.cs:67-74 | one tag row as a `Tag`: a NULL `pid` or `icon` becomes 0, a NULL `iconkde` stays absent, other columns are copied |
| FaceRecognitionDbReader.ListTags | facerecog_Db_reader/FaceRecognitionDbReader.cs:50-78 | what `GetAllTags` returns: the tag query's rows, each read by `ReadTag` |
| FaceRecognitionDbReader.JoinImages | facerecog_Db_reader/FaceRecognitionDbReader.cs:101-107 | the five joins with the `LIKE` filter on the tag name, before DISTINCT: one row per image, matching link, album, root and date |
| FaceRecognitionDbReader.ImagesQuery | facerecog_Db_reader/FaceRecognitionDbReader.cs:89-108 | the image query: DISTINCT over the joined rows, sorted by creation date descending with NULL last |
| FaceRecognitionDbReader.ReadImage | facerecog_Db_reader/FaceRecognitionDbReader.cs:116-133 | one image row as an `Image`: NULL paths read as "", the full path is `Path.Combine(specificPath, relativePath, name)`, other columns are copied |
| FaceRecognitionDbReader.ImagesByPersonName | facerecog_Db_reader/FaceRecognitionDbReader.cs:81-137 | what `GetImagesByPersonName` returns: the image query for `%personName%`, each row read by `ReadImage` |
| FaceRecognitionDbReader.IdentityNamesQuery | facerecog_Db_reader/FaceRecognitionDbReader.cs:150-155 | the identity name search: the distinct values of `name` attributes that are LIKE the pattern |
| FaceRecognitionDbReader.TagNamesQuery | facerecog_Db_reader/FaceRecognitionDbReader.cs:171-176 | the tag name search: the distinct tag names that are LIKE the pattern |
| FaceRecognitionDbReader.CollectStatistics | facerecog_Db_reader/FaceRecognitionDbReader.cs:199-218 | the seven counts `PrintStatistics` shows, each through `ExecuteScalar`: `COUNT(*)` of `Identities`, `FaceMatrices`, `Images`, `Albums` and `Tags`, and `COUNT(DISTINCT ...)` of named identity ids and tagged image ids |
| SqlLike.Like | facerecog_Db_reader/FaceRecognitionDbReader.cs:107 | SQLite's `LIKE`: `%` matches any run, `_` one character, no escape, ASCII letters compared without case |
| DotNetPath.Combine3 | facerecog_Db_reader/FaceRecognitionDbReader.cs:121 | `Path.Combine` of three segments as .NET does it on Windows: empty segments are skipped, a rooted segment discards what precedes it, one separator is inserted where the seam has none |
| FaceRecognitionDbReader.SearchPattern | facerecog_Db_reader/FaceRecognitionDbReader.cs:111 | the pattern bound to the query parameter: the term with a `%` before and after it, unescaped (also at :156 and :177) |
| Strings.Le | facerecog_Db_reader/Program.cs:73 | the one string order used for every name sort: lexicographic by code point, a prefix first; it stands for SQLite's ORDER BY on names and for C#'s `OrderBy(n => n)` |
| DotNetPath.IsPathRooted | facerecog_Db_reader/FaceRecognitionDbReader.cs:121 | `Path.IsPathRooted` on Windows: the path starts with `\` or `/`, or with a drive letter and `:` |
| DotNetPath.Combine2 | facerecog_Db_reader/FaceRecognitionDbReader.cs:121 | `Path.Combine` of two segments: an empty one is skipped, a rooted second one replaces the first, otherwise one separator joins them unless the seam has one |
| Strings.IsNullOrWhiteSpace | facerecog_Db_reader/Program.cs:63-69 | `string.IsNullOrWhiteSpace`: null, empty, or only .NET white-space characters; the same test guards the commands at Program.cs:90 and :120 |
| FaceRecognitionDbReader.GetAllIdentities | facerecog_Db_reader/FaceRecognitionDbReader.cs:20-47 | returns the left join's rows in query order, one `Identity` per row, with a NULL name read as absent |
| FaceRecognitionDbReader.IdentitiesQueryMember | facerecog_Db_reader/FaceRecognitionDbReader.cs:28-33 | a record is in the listing exactly when the left join of some `Identities` row produces it; the ORDER BY adds and drops nothing |
| FaceRecognitionDbReader.IdentityJoinRowsMember | facerecog_Db_reader/FaceRecognitionDbReader.cs:31 | a record is produced for an identity exactly when it carries the identity's id and type and either the value of one of its `name` attributes or, when it has none, no name |
| FaceRecognitionDbReader.IdentityJoinRowsCount | facerecog_Db_reader/FaceRecognitionDbReader.cs:31 | the left join gives an identity one record per `name` attribute, or exactly one when it has none |
| FaceRecognitionDbReader.IdentitiesListed | facerecog_Db_reader/FaceRecognitionDbReader.cs:28-33 | every identity row is listed; one with no `name` attribute is listed as itself with no name; there are at least as many records as identity rows |
| FaceRecognitionDbReader.IdentitiesFromTables | facerecog_Db_reader/FaceRecognitionDbReader.cs:29-42 | each record's id and type are an identity row; a present name is that identity's `name` value; an absent name means no `name` attribute or a NULL one |
| FaceRecognitionDbReader.IdentityNameAbsentIffUnnamed | facerecog_Db_reader/FaceRecognitionDbReader.cs:31-42 | if no `name` value is NULL, a record's name is absent exactly when its identity has no `name` attribute |
| FaceRecognitionDbReader.IdentitiesSortedByName | facerecog_Db_reader/FaceRecognitionDbReader.cs:32 | the listing ascends by name, and records without a name come before all named ones |
| FaceRecognitionDbReader.IdentitiesOnePerRow | facerecog_Db_reader/FaceRecognitionDbReader.cs:31 | with at most one `name` attribute per identity, the listing has exactly one record per identity row |
| FaceRecognitionDbReader.IdentityNameListed | facerecog_Db_reader/FaceRecognitionDbReader.cs:28-42 | a name occurs in the listing exactly when it is the `name` value of an existing identity |
| FaceRecognitionDbReader.IdentityNameLeIsTotalPreorder | facerecog_Db_reader/FaceRecognitionDbReader.cs:32 | the identity sort key, with NULL first, is a total preorder |
| FaceRecognitionDbReader.GetAllTags | facerecog_Db_reader/FaceRecognitionDbReader.cs:50-78 | returns the tag query's rows in order, each converted: a NULL `pid` or `icon` becomes 0, a NULL `iconkde` stays absent |
| FaceRecognitionDbReader.TagListing | facerecog_Db_reader/FaceRecognitionDbReader.cs:58-74 | one `Tag` per `Tags` row, a permutation of the converted rows, ascending by name |
| FaceRecognitionDbReader.TagNameListed | facerecog_Db_reader/FaceRecognitionDbReader.cs:58-71 | a name occurs in the tag listing exactly when some `Tags` row has it |
| FaceRecognitionDbReader.TagNameLeIsTotalPreorder | facerecog_Db_reader/FaceRecognitionDbReader.cs:61 | ordering tags by name is a total preorder |
| FaceRecognitionDbReader.GetImagesByPersonName | facerecog_Db_reader/FaceRecognitionDbReader.cs:81-137 | runs the image query with the pattern `%personName%` and returns its rows converted to `Image` records, in order |
| FaceRecognitionDbReader.ReadImageRows | facerecog_Db_reader/FaceRecognitionDbReader.cs:113-135 | converts every row in order: NULL paths read as "", the full path comes from `Path.Combine`, and a NULL date or hash stays absent |
| FaceRecognitionDbReader.JoinRootsMember | facerecog_Db_reader/FaceRecognitionDbReader.cs:105-106 | the rows joined for an image and album are those with an album root whose id is the album's `albumRoot`, and a date from the image's left-joined information |
| FaceRecognitionDbReader.JoinAlbumsMember | facerecog_Db_reader/FaceRecognitionDbReader.cs:104-106 | for an image, only an `Albums` row whose id is the image's album joins |
| FaceRecognitionDbReader.JoinLinksMember | facerecog_Db_reader/FaceRecognitionDbReader.cs:102-107 | a row is joined for an image exactly when some `ImageTags` link of the image reaches a tag whose name is LIKE the pattern and the row projects the image through its existing album, that album's root and one of its creation dates (NULL when it has none) |
| FaceRecognitionDbReader.ImagesQueryMember | facerecog_Db_reader/FaceRecognitionDbReader.cs:89-108 | a row is in the query result exactly when it projects an image that has a matching tag, an existing album and root, and one of its dates |
| FaceRecognitionDbReader.CreationDatesMember | facerecog_Db_reader/FaceRecognitionDbReader.cs:106 | the left-joined date is the date of one of the image's `ImageInformation` rows, or NULL when it has none |
| FaceRecognitionDbReader.ReadImageDescribes | facerecog_Db_reader/FaceRecognitionDbReader.cs:116-133 | a joined row converts into the record of its image: the image's columns, the album id, the date, and the combined path |
| FaceRecognitionDbReader.ImagesSound | facerecog_Db_reader/FaceRecognitionDbReader.cs:90-121 | every returned image is an `Images` row with a tag LIKE `%personName%`, an existing album and root, its own columns, and the path combined from them |
| FaceRecognitionDbReader.ImagesComplete | facerecog_Db_reader/FaceRecognitionDbReader.cs:101-107 | every image with a matching tag and an existing album and root is returned |
| FaceRecognitionDbReader.TaggedWithTerm | facerecog_Db_reader/FaceRecognitionDbReader.cs:107-111 | for a term without `%` or `_`, an image matches exactly when a linked tag's name contains the term, ignoring ASCII case |
| FaceRecognitionDbReader.UnresolvableImagesExcluded | facerecog_Db_reader/FaceRecognitionDbReader.cs:104-105 | an image with no existing album, or whose album has no existing root, is never returned |
| FaceRecognitionDbReader.NoMatchingTagNoImages | facerecog_Db_reader/FaceRecognitionDbReader.cs:103-107 | when no tag name matches, the result is the empty list |
| FaceRecognitionDbReader.SameIdSameRow | facerecog_Db_reader/FaceRecognitionDbReader.cs:90-106 | with unique keys, two result rows with the same image id are the same row |
| FaceRecognitionDbReader.ImagesUnique | facerecog_Db_reader/FaceRecognitionDbReader.cs:90-106 | with unique keys, DISTINCT leaves each image id at most once, however many matching tags link to the image |
| FaceRecognitionDbReader.NewerOrSameIsTotalPreorder | facerecog_Db_reader/FaceRecognitionDbReader.cs:108 | descending date order with NULL last is a total preorder |
| FaceRecognitionDbReader.ImagesByDate | facerecog_Db_reader/FaceRecognitionDbReader.cs:108 | results are newest first, and images without a date come after all dated ones |
| FaceRecognitionDbReader.ImageDatesFromInformation | facerecog_Db_reader/FaceRecognitionDbReader.cs:106-130 | a present date is the creation date of an `ImageInformation` row of that image; an image with no such row has no date |
| FaceRecognitionDbReader.ImageFullPathIsJoin | facerecog_Db_reader/FaceRecognitionDbReader.cs:116-121 | when the relative path and the name are not rooted, the full path joins root path, relative path and name in order, empty parts contributing nothing |
| FaceRecognitionDbReader.IdentityNamesQueryMember | facerecog_Db_reader/FaceRecognitionDbReader.cs:150-155 | a value is returned by the identity name search exactly when it is a `name` value LIKE the pattern |
| FaceRecognitionDbReader.TagNamesQueryMember | facerecog_Db_reader/FaceRecognitionDbReader.cs:171-176 | a name is returned by the tag name search exactly when some tag has it and it is LIKE the pattern |
| FaceRecognitionDbReader.SearchPeople | facerecog_Db_reader/FaceRecognitionDbReader.cs:141-187 | the result ascends strictly, so it has no duplicates under exact comparison, and holds exactly the matching `name` values and tag names |
| FaceRecognitionDbReader.PersonMatchesTerm | facerecog_Db_reader/FaceRecognitionDbReader.cs:156 | for a term without `%` or `_`, a name matches exactly when it contains the term, ignoring ASCII case |
| FaceRecognitionDbReader.CaseVariantsBothFound | facerecog_Db_reader/FaceRecognitionDbReader.cs:143 | names differing only in case are distinct results: "Ann" and "ANN" are both found for "ann" |
| FaceRecognitionDbReader.ExecuteScalar | facerecog_Db_reader/FaceRecognitionDbReader.cs:228-234 | the query's value when it yields a row; 0, the default of `long`, when it yields no row |
| FaceRecognitionDbReader.StatisticsCounts | facerecog_Db_reader/FaceRecognitionDbReader.cs:199-218 | each count is its table's row count or the number of distinct ids counted, and a distinct count never exceeds its table's rows |
| FaceRecognitionDbReader.TaggedImagesAtMostImages | facerecog_Db_reader/FaceRecognitionDbReader.cs:215-218 | if every `ImageTags.imageid` exists in `Images`, the tagged-image count is at most the image count |
| FaceRecognitionDbReader.NamedIdentitiesAtMostIdentities | facerecog_Db_reader/FaceRecognitionDbReader.cs:199-202 | if every attribute id exists in `Identities`, the named-identity count is at most the identity count |
| SqlLike.SubstringPattern | facerecog_Db_reader/FaceRecognitionDbReader.cs:111 | for `p` without wildcards, `s LIKE '%p%'` holds exactly when `s` contains `p`, ignoring ASCII case |
| SqlLike.LeadingPercent | facerecog_Db_reader/FaceRecognitionDbReader.cs:111 | a leading `%` matches exactly when the rest of the pattern matches some suffix |
| SqlLike.TrailingPercent | facerecog_Db_reader/FaceRecognitionDbReader.cs:111 | a wildcard-free pattern followed by `%` matches exactly the strings that start with it, ignoring ASCII case |
| SqlLike.PercentMatchesAll | facerecog_Db_reader/FaceRecognitionDbReader.cs:111 | `%` matches every string |
| SqlLike.EmptyTermMatchesAll | facerecog_Db_reader/FaceRecognitionDbReader.cs:111 | the empty term gives `%%`, which matches every string |
| SqlLike.UnescapedUnderscore | facerecog_Db_reader/FaceRecognitionDbReader.cs:111 | the term is not escaped, so `_` matches any character: "a_n" finds "Ann", which does not contain "a_n" |
| DotNetPath.CombineIsJoinWhenUnrooted | facerecog_Db_reader/FaceRecognitionDbReader.cs:121 | with no rooted later segment, `Path.Combine` joins the three segments in order and skips empty ones |
| DotNetPath.CombineEndsWithName | facerecog_Db_reader/FaceRecognitionDbReader.cs:121 | the combined path always ends with the (non-empty) image name |
| DotNetPath.CombineRootedName | facerecog_Db_reader/FaceRecognitionDbReader.cs:121 | a rooted image name replaces the whole path |
| DotNetPath.CombineRootedMiddleDropsRoot | facerecog_Db_reader/FaceRecognitionDbReader.cs:121 | a rooted relative path discards the album root path |
| DotNetPath.CombineExample | facerecog_Db_reader/FaceRecognitionDbReader.cs:121 | worked values: a plain relative path is joined under the root; one with a leading `/` drops the root |
| Seqs.Distinct | facerecog_Db_reader/FaceRecognitionDbReader.cs:90 | `SELECT DISTINCT` keeps exactly the rows of its input, each once |
| Seqs.SortBySorted | facerecog_Db_reader/FaceRecognitionDbReader.cs:108 | under a total preorder, ORDER BY yields a sorted permutation of its input |
| Seqs.AddIfAbsent | facerecog_Db_reader/FaceRecognitionDbReader.cs:159-163 | `HashSet.Add` adds exactly the new element and keeps the set free of duplicates |
| Strings.SortedNames | facerecog_Db_reader/FaceRecognitionDbReader.cs:186 | sorting a duplicate-free set of names gives a strictly ascending list of the same names |
| Strings.StrictlyAscendingUnique | facerecog_Db_reader/FaceRecognitionDbReader.cs:186 | a strictly ascending list is determined by its elements, so the sorted result does not depend on the order the names were collected in |
| Program.ListAllPeople | facerecog_Db_reader/Program.cs:51-73 | the merged list ascends strictly, has no blank name, and holds exactly the non-blank identity names and tag names |
| Program.MergeNames | facerecog_Db_reader/Program.cs:59-71 | the two loops collect, each once, every identity name and tag name that is not null, empty or white space only |
| Program.SearchPeopleCommand | facerecog_Db_reader/Program.cs:85-96 | a null or blank term is rejected without a search; otherwise the answer is the `SearchPeople` result |
| Program.FindImagesByPersonCommand | facerecog_Db_reader/Program.cs:115-126 | a null or blank name is rejected without a search; otherwise the answer is exactly the images found for that name |

## Left out

- SQLite plumbing is not modelled: connection strings, `Open`, `ExecuteReader` and disposal. Every store is given as its tables' rows.
- Console output is not modelled. This covers `PrintStatistics`'s printing (its counts are `CollectStatistics`) and the printing in every handler in `Program.cs`.
- The menu loop and `Main` are not modelled, because they read stdin.
- The paging prompts and the export of paths to a file are not modelled. They do console and file I/O and read the clock.
- `FormatFileSize` is not modelled, because it uses `double` arithmetic and format strings.
- The base-directory setup is not modelled: the `USERPROFILE` variable, the database paths built in the constructor, and the unused thumbnails path. The reader's class only holds those paths, so each operation takes its store as a parameter instead.
- `GetDateTime` parsing is not modelled. A date is an abstract, ordered `Timestamp`, an integer.
- Collation: SQLite's ORDER BY uses BINARY collation and C#'s `OrderBy` compares culture-sensitively. Both are modelled by one order, `Strings.Le`, lexicographic by code point.
- The tie order of ORDER BY is not modelled. SQLite leaves the order of equal keys unspecified. The model keeps ties in join order (a stable sort), and no lemma depends on that choice.
- The ORDER BY in the two `SearchPeople` queries is not modelled. Their rows go into a set that is sorted afterwards, so the order cannot affect the result.
- Integer widths are not modelled. Ids and counts are unbounded `int`s, which leaves out the 32- and 64-bit limits and the exception `GetInt32` throws on a NULL or out-of-range column.
- NULL in a column the code reads without an `IsDBNull` test is not modelled: `GetString` on `Tags.name` (FaceRecognitionDbReader.cs:71) and on `Images.name` (:118), and `GetInt64` on `Images.fileSize` (:131), throw on NULL and the whole call fails. The model types these columns as never NULL, so it does not capture that failure.
- FaceRecognitionDbReader.ExecuteScalar: a count query that yields a SQL NULL (rather than no row) makes `(T)result` throw on `DBNull`; the model has no such case, since `COUNT` never yields NULL.
- FaceRecognitionDbReader.ImagesUnique: holds only under `UniqueKeys` (unique image, album and album-root ids, and at most one `ImageInformation` row per image). Without these, DISTINCT can leave one image several times.
- Program.SearchPeopleCommand: that a blank term ends the command before any query runs shows only as the `Rejected` reply. The stores are immutable values, so the model cannot observe that no query ran.
- Program.FindImagesByPersonCommand: the same holds; that no image query runs for a blank name appears only as the `Rejected` reply.
- `Path.Combine` follows .NET on Windows only; on Unix `\` is not a separator.
