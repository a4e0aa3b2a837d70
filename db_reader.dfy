/**
 * The query layer of the face-recognition database reader. Every public operation runs one or
 * two SQL queries and copies the rows it reads into records. Each SQL text is modelled by a
 * pure function over the tables (selection, join, DISTINCT, ORDER BY); each C# reader loop is
 * a method proved to return exactly the records that function's rows convert to; the
 * properties the operations promise are lemmas about those functions.
 */
module FaceRecognitionDbReader {
  import opened Wrappers
  import opened Seqs
  import opened Strings
  import opened SqlLike
  import opened DotNetPath
  import opened Schema

  // ===================================================================================
  // GetAllIdentities: every identity paired with each of its `name` attributes (or with no
  // name when it has none), ascending by name with the nameless first.
  // ===================================================================================

  /** The `name` attribute rows of identity `id`. */
  function NameAttributes(db: RecognitionDb, id: int): seq<IdentityAttributeRow> {
    Filter(db.identityAttributes, (ia: IdentityAttributeRow) => ia.id == id && ia.attribute == "name")
  }

  predicate HasNameAttribute(db: RecognitionDb, id: int) {
    exists ia :: ia in db.identityAttributes && ia.id == id && ia.attribute == "name"
  }

  /** The LEFT JOIN rows of one identity: one per name attribute, or one with a NULL name. */
  function IdentityJoinRows(db: RecognitionDb, i: IdentityRow): seq<Identity> {
    var attributes := NameAttributes(db, i.id);
    if attributes == [] then [Identity(i.id, i.identityType, None)]
    else Map(attributes, (ia: IdentityAttributeRow) => Identity(i.id, i.identityType, ia.value))
  }

  /** Ascending names in SQLite's order, where NULL sorts before every value. */
  predicate NameLe(a: Option<string>, b: Option<string>) {
    a.None? || (b.Some? && Le(a.value, b.value))
  }

  predicate IdentityNameLe(x: Identity, y: Identity) {
    NameLe(x.name, y.name)
  }

  /** The rows of the identity query, in order. */
  function IdentitiesQuery(db: RecognitionDb): seq<Identity> {
    SortBy(FlatMap(db.identities, (i: IdentityRow) => IdentityJoinRows(db, i)), IdentityNameLe)
  }

  /** Reads the identity query's rows into `Identity` records. */
  method GetAllIdentities(db: RecognitionDb) returns (identities: seq<Identity>)
    ensures identities == IdentitiesQuery(db)
  {
    var rows := IdentitiesQuery(db);
    identities := [];
    var i := 0;
    while i < |rows|
      invariant 0 <= i <= |rows|
      invariant identities == rows[..i]
    {
      var name := if rows[i].name.None? then None else Some(rows[i].name.value);
      identities := identities + [Identity(rows[i].id, rows[i].identityType, name)];
      i := i + 1;
    }
  }

  lemma IdentityNameLeIsTotalPreorder()
    ensures TotalPreorder(IdentityNameLe)
  {
    forall x: Identity, y: Identity ensures IdentityNameLe(x, y) || IdentityNameLe(y, x) {
      if x.name.Some? && y.name.Some? {
        LeTotal(x.name.value, y.name.value);
      }
    }
    forall x: Identity, y: Identity, z: Identity | IdentityNameLe(x, y) && IdentityNameLe(y, z)
      ensures IdentityNameLe(x, z)
    {
      if x.name.Some? {
        LeTransitive(x.name.value, y.name.value, z.name.value);
      }
    }
  }

  /** A record is a row of the identity query exactly when the left join produces it. */
  lemma IdentitiesQueryMember(db: RecognitionDb, x: Identity)
    ensures x in IdentitiesQuery(db) <==>
      exists i :: i in db.identities && x in IdentityJoinRows(db, i)
  {
    SortByMember(FlatMap(db.identities, (i: IdentityRow) => IdentityJoinRows(db, i)), IdentityNameLe, x);
  }

  /** The rows the left join produces for one identity, described without the join. */
  lemma IdentityJoinRowsMember(db: RecognitionDb, i: IdentityRow, x: Identity)
    ensures x in IdentityJoinRows(db, i) <==>
      && x.id == i.id && x.identityType == i.identityType
      && (if HasNameAttribute(db, i.id)
          then IdentityAttributeRow(i.id, "name", x.name) in db.identityAttributes
          else x.name.None?)
  {
    var attributes := NameAttributes(db, i.id);
    if HasNameAttribute(db, i.id) {
      var ia :| ia in db.identityAttributes && ia.id == i.id && ia.attribute == "name";
      assert ia in attributes;
      if x.id == i.id && x.identityType == i.identityType && IdentityAttributeRow(i.id, "name", x.name) in db.identityAttributes {
        var ia' := IdentityAttributeRow(i.id, "name", x.name);
        assert ia' in attributes;
        assert x == Identity(i.id, i.identityType, ia'.value);
      }
    } else {
      FirstIsMember(attributes);
    }
  }

  /**
   * How many records the left join gives one identity: one per `name` attribute, or exactly
   * one (with no name) when it has none.
   */
  lemma IdentityJoinRowsCount(db: RecognitionDb, i: IdentityRow)
    ensures |IdentityJoinRows(db, i)| == if HasNameAttribute(db, i.id) then |NameAttributes(db, i.id)| else 1
  {
    var attributes := NameAttributes(db, i.id);
    if HasNameAttribute(db, i.id) {
      var ia :| ia in db.identityAttributes && ia.id == i.id && ia.attribute == "name";
      assert ia in attributes;
    } else {
      FirstIsMember(attributes);
    }
  }

  /**
   * The left join loses no identity: every identity row is listed, one with no `name`
   * attribute is listed exactly as itself with no name, and the listing has at least as many
   * records as there are identity rows.
   */
  lemma IdentitiesListed(db: RecognitionDb)
    ensures forall i :: i in db.identities ==>
      exists x :: x in IdentitiesQuery(db) && x.id == i.id && x.identityType == i.identityType
    ensures forall i :: i in db.identities && !HasNameAttribute(db, i.id) ==>
      Identity(i.id, i.identityType, None) in IdentitiesQuery(db)
    ensures |IdentitiesQuery(db)| >= |db.identities|
  {
    forall i | i in db.identities
      ensures exists x :: x in IdentitiesQuery(db) && x.id == i.id && x.identityType == i.identityType
      ensures !HasNameAttribute(db, i.id) ==> Identity(i.id, i.identityType, None) in IdentitiesQuery(db)
    {
      var rows := IdentityJoinRows(db, i);
      assert |rows| >= 1;
      IdentityJoinRowsMember(db, i, rows[0]);
      IdentitiesQueryMember(db, rows[0]);
      if !HasNameAttribute(db, i.id) {
        IdentityJoinRowsMember(db, i, Identity(i.id, i.identityType, None));
        IdentitiesQueryMember(db, Identity(i.id, i.identityType, None));
      }
    }
    var f := (i: IdentityRow) => IdentityJoinRows(db, i);
    FlatMapAtLeastOneEach(db.identities, f);
  }

  /**
   * Every listed record comes from the tables: its id and type are an identity row, its name,
   * when present, is that identity's `name` attribute value, and it is absent only when the
   * identity has no `name` attribute or has one whose value is NULL.
   */
  lemma IdentitiesFromTables(db: RecognitionDb)
    ensures forall x :: x in IdentitiesQuery(db) ==>
      && IdentityRow(x.id, x.identityType) in db.identities
      && (x.name.Some? ==> IdentityAttributeRow(x.id, "name", x.name) in db.identityAttributes)
      && (x.name.None? ==>
            !HasNameAttribute(db, x.id) || IdentityAttributeRow(x.id, "name", None) in db.identityAttributes)
  {
    forall x | x in IdentitiesQuery(db)
      ensures IdentityRow(x.id, x.identityType) in db.identities
      ensures x.name.Some? ==> IdentityAttributeRow(x.id, "name", x.name) in db.identityAttributes
      ensures x.name.None? ==>
            !HasNameAttribute(db, x.id) || IdentityAttributeRow(x.id, "name", None) in db.identityAttributes
    {
      IdentitiesQueryMember(db, x);
      var i :| i in db.identities && x in IdentityJoinRows(db, i);
      IdentityJoinRowsMember(db, i, x);
      assert i == IdentityRow(x.id, x.identityType);
    }
  }

  /** `n` is the `name` value of an identity that exists in the recognition store. */
  ghost predicate IdentityNamed(db: RecognitionDb, n: string) {
    exists i, ia :: i in db.identities && ia in db.identityAttributes
                    && ia.id == i.id && ia.attribute == "name" && ia.value == Some(n)
  }

  /** A name appears in the identity listing exactly when it is the `name` value of an existing identity. */
  lemma IdentityNameListed(db: RecognitionDb, n: string)
    ensures (exists x :: x in IdentitiesQuery(db) && x.name == Some(n)) <==> IdentityNamed(db, n)
  {
    if exists x :: x in IdentitiesQuery(db) && x.name == Some(n) {
      var x :| x in IdentitiesQuery(db) && x.name == Some(n);
      IdentitiesFromTables(db);
      var ia := IdentityAttributeRow(x.id, "name", x.name);
      assert IdentityRow(x.id, x.identityType) in db.identities && ia in db.identityAttributes;
    }
    if IdentityNamed(db, n) {
      var i, ia :| i in db.identities && ia in db.identityAttributes
                   && ia.id == i.id && ia.attribute == "name" && ia.value == Some(n);
      var x := Identity(i.id, i.identityType, Some(n));
      IdentityJoinRowsMember(db, i, x);
      IdentitiesQueryMember(db, x);
    }
  }

  /**
   * When every `name` attribute has a value, a listed identity has no name exactly when it has
   * no `name` attribute.
   */
  lemma IdentityNameAbsentIffUnnamed(db: RecognitionDb)
    requires forall ia :: ia in db.identityAttributes && ia.attribute == "name" ==> ia.value.Some?
    ensures forall x :: x in IdentitiesQuery(db) ==> (x.name.None? <==> !HasNameAttribute(db, x.id))
  {
    forall x | x in IdentitiesQuery(db) ensures x.name.None? <==> !HasNameAttribute(db, x.id) {
      IdentitiesQueryMember(db, x);
      var i :| i in db.identities && x in IdentityJoinRows(db, i);
      IdentityJoinRowsMember(db, i, x);
      assert HasNameAttribute(db, x.id) ==>
        IdentityAttributeRow(i.id, "name", x.name) in db.identityAttributes;
    }
  }

  /**
   * The listing ascends by name and the records without a name come first, as SQLite places
   * NULLs first in an ascending sort.
   */
  lemma IdentitiesSortedByName(db: RecognitionDb)
    ensures SortedBy(IdentitiesQuery(db), IdentityNameLe)
    ensures forall j, k :: 0 <= j < k < |IdentitiesQuery(db)| && IdentitiesQuery(db)[k].name.None? ==>
      IdentitiesQuery(db)[j].name.None?
  {
    IdentityNameLeIsTotalPreorder();
    SortBySorted(FlatMap(db.identities, (i: IdentityRow) => IdentityJoinRows(db, i)), IdentityNameLe);
  }

  /** With at most one `name` attribute per identity, the listing has one record per identity row. */
  lemma IdentitiesOnePerRow(db: RecognitionDb)
    requires forall i :: i in db.identities ==> |NameAttributes(db, i.id)| <= 1
    ensures |IdentitiesQuery(db)| == |db.identities|
  {
    var f := (i: IdentityRow) => IdentityJoinRows(db, i);
    FlatMapExactlyOneEach(db.identities, f);
  }

  // ===================================================================================
  // GetAllTags: every tag with all its columns, ascending by name.
  // ===================================================================================

  predicate TagRowNameLe(x: TagRow, y: TagRow) {
    Le(x.name, y.name)
  }

  predicate TagNameLe(x: Tag, y: Tag) {
    Le(x.name, y.name)
  }

  function TagsQuery(db: DigikamDb): seq<TagRow> {
    SortBy(db.tags, TagRowNameLe)
  }

  /** One row into a `Tag`: a NULL `pid` or `icon` reads as 0, a NULL `iconkde` stays absent. */
  function ReadTag(row: TagRow): Tag {
    Tag(row.id, row.pid.GetOr(0), row.name, row.icon.GetOr(0), row.iconkde)
  }

  /** What `GetAllTags` returns. */
  function ListTags(db: DigikamDb): seq<Tag> {
    Map(TagsQuery(db), ReadTag)
  }

  method GetAllTags(db: DigikamDb) returns (tags: seq<Tag>)
    ensures tags == ListTags(db)
  {
    var rows := TagsQuery(db);
    tags := [];
    var i := 0;
    while i < |rows|
      invariant 0 <= i <= |rows|
      invariant |tags| == i
      invariant forall k :: 0 <= k < i ==> tags[k] == ReadTag(rows[k])
    {
      var row := rows[i];
      var pid := if row.pid.None? then 0 else row.pid.value;
      var icon := if row.icon.None? then 0 else row.icon.value;
      var iconKde := if row.iconkde.None? then None else Some(row.iconkde.value);
      tags := tags + [Tag(row.id, pid, row.name, icon, iconKde)];
      i := i + 1;
    }
  }

  lemma TagNameLeIsTotalPreorder()
    ensures TotalPreorder(TagNameLe)
  {
    forall x: Tag, y: Tag ensures TagNameLe(x, y) || TagNameLe(y, x) {
      LeTotal(x.name, y.name);
    }
    forall x: Tag, y: Tag, z: Tag | TagNameLe(x, y) && TagNameLe(y, z) ensures TagNameLe(x, z) {
      LeTransitive(x.name, y.name, z.name);
    }
  }

  /**
   * `GetAllTags` returns one `Tag` per `Tags` row, each converted by `ReadTag` and nothing else,
   * in ascending order of name.
   */
  lemma TagListing(db: DigikamDb)
    ensures |ListTags(db)| == |db.tags|
    ensures multiset(ListTags(db)) == multiset(Map(db.tags, ReadTag))
    ensures SortedBy(ListTags(db), TagNameLe)
  {
    MapSortBy(db.tags, TagRowNameLe, ReadTag, TagNameLe);
    TagNameLeIsTotalPreorder();
    SortBySorted(Map(db.tags, ReadTag), TagNameLe);
  }

  /** A name appears in the tag listing exactly when some `Tags` row has it. */
  lemma TagNameListed(db: DigikamDb, n: string)
    ensures (exists t :: t in ListTags(db) && t.name == n) <==> exists row :: row in db.tags && row.name == n
  {
    if exists row :: row in db.tags && row.name == n {
      var row :| row in db.tags && row.name == n;
      SortByMember(db.tags, TagRowNameLe, row);
      assert ReadTag(row) in ListTags(db);
    }
    if exists t :: t in ListTags(db) && t.name == n {
      var t :| t in ListTags(db) && t.name == n;
      var row :| row in TagsQuery(db) && t == ReadTag(row);
      SortByMember(db.tags, TagRowNameLe, row);
    }
  }

  // ===================================================================================
  // GetImagesByPersonName: the images linked to a tag whose name matches the pattern and
  // whose album and album root exist, each with its creation date if it has one, without
  // repeated rows, newest first with the undated last.
  // ===================================================================================

  /** One row of the image query. */
  datatype ImageQueryRow = ImageQueryRow(
    id: int,
    album: int,
    name: string,
    status: int,
    category: int,
    creationDate: Option<Timestamp>,
    fileSize: int,
    uniqueHash: Option<string>,
    specificPath: Option<string>,
    relativePath: Option<string>)

  /** The term the reader binds to `@personName` and `@pattern`: the input wrapped in `%`. */
  function SearchPattern(term: string): string {
    "%" + term + "%"
  }

  /** The selected columns of one joined combination of rows. */
  function Project(im: ImageRow, a: AlbumRow, ar: AlbumRootRow, date: Option<Timestamp>): ImageQueryRow {
    ImageQueryRow(im.id, a.id, im.name, im.status, im.category, date, im.fileSize, im.uniqueHash,
                  ar.specificPath, a.relativePath)
  }

  /** The left join with the image information: the creation date of each of the image's rows, or NULL if it has none. */
  function CreationDates(db: DigikamDb, imageId: int): seq<Option<Timestamp>> {
    var infos := Filter(db.imageInformation, (ii: ImageInformationRow) => ii.imageid == imageId);
    if infos == [] then [None] else Map(infos, (ii: ImageInformationRow) => ii.creationDate)
  }

  function JoinRoots(db: DigikamDb, im: ImageRow, a: AlbumRow): seq<ImageQueryRow> {
    FlatMap(Filter(db.albumRoots, (ar: AlbumRootRow) => ar.id == a.albumRoot),
            (ar: AlbumRootRow) => Map(CreationDates(db, im.id), (d: Option<Timestamp>) => Project(im, a, ar, d)))
  }

  function JoinAlbums(db: DigikamDb, im: ImageRow): seq<ImageQueryRow> {
    FlatMap(Filter(db.albums, (a: AlbumRow) => im.album == Some(a.id)), (a: AlbumRow) => JoinRoots(db, im, a))
  }

  /** The matching tags one image-tag link reaches; each one repeats the image's rows. */
  function JoinTag(db: DigikamDb, pattern: string, im: ImageRow, it: ImageTagRow): seq<ImageQueryRow> {
    FlatMap(Filter(db.tags, (t: TagRow) => t.id == it.tagid && Like(t.name, pattern)),
            (t: TagRow) => JoinAlbums(db, im))
  }

  function JoinLinks(db: DigikamDb, pattern: string, im: ImageRow): seq<ImageQueryRow> {
    FlatMap(Filter(db.imageTags, (it: ImageTagRow) => it.imageid == im.id),
            (it: ImageTagRow) => JoinTag(db, pattern, im, it))
  }

  /** The joined and filtered rows before DISTINCT: one per combination of matching rows. */
  function JoinImages(db: DigikamDb, pattern: string): seq<ImageQueryRow> {
    FlatMap(db.images, (im: ImageRow) => JoinLinks(db, pattern, im))
  }

  /** Descending dates in SQLite's order, where NULL sorts after every value. */
  predicate NewerOrSame(a: Option<Timestamp>, b: Option<Timestamp>) {
    b.None? || (a.Some? && a.value >= b.value)
  }

  predicate RowNewerOrSame(x: ImageQueryRow, y: ImageQueryRow) {
    NewerOrSame(x.creationDate, y.creationDate)
  }

  predicate ImageNewerOrSame(x: Image, y: Image) {
    NewerOrSame(x.modificationDate, y.modificationDate)
  }

  /** The rows of the image query, in order. */
  function ImagesQuery(db: DigikamDb, pattern: string): seq<ImageQueryRow> {
    SortBy(Distinct(JoinImages(db, pattern)), RowNewerOrSame)
  }

  /** One row into an `Image`: NULL paths read as "", and the full path is combined from them. */
  function ReadImage(row: ImageQueryRow): Image {
    Image(row.id, row.album, row.name, row.status, row.category, row.creationDate, row.fileSize,
          row.uniqueHash, Combine3(row.specificPath.GetOr(""), row.relativePath.GetOr(""), row.name))
  }

  /** What `GetImagesByPersonName(personName)` returns. */
  function ImagesByPersonName(db: DigikamDb, personName: string): seq<Image> {
    Map(ImagesQuery(db, SearchPattern(personName)), ReadImage)
  }

  method GetImagesByPersonName(db: DigikamDb, personName: string) returns (images: seq<Image>)
    ensures images == ImagesByPersonName(db, personName)
  {
    var rows := ImagesQuery(db, "%" + personName + "%");
    images := ReadImageRows(rows);
  }

  /** The `while (reader.Read())` loop of `GetImagesByPersonName`. */
  method ReadImageRows(rows: seq<ImageQueryRow>) returns (images: seq<Image>)
    ensures images == Map(rows, ReadImage)
  {
    images := [];
    var i := 0;
    while i < |rows|
      invariant 0 <= i <= |rows|
      invariant |images| == i
      invariant forall k :: 0 <= k < i ==> images[k] == ReadImage(rows[k])
    {
      var row := rows[i];
      var specificPath := if row.specificPath.None? then "" else row.specificPath.value;
      var relativePath := if row.relativePath.None? then "" else row.relativePath.value;
      var imageName := row.name;
      var fullPath := Combine3(specificPath, relativePath, imageName);
      images := images + [Image(row.id, row.album, imageName, row.status, row.category,
                                row.creationDate, row.fileSize, row.uniqueHash, fullPath)];
      i := i + 1;
    }
  }

  // ----- what the image join produces -----

  /** Image `imageId` has an `ImageTags` link to a tag whose name is LIKE `pattern`. */
  ghost predicate TaggedWith(db: DigikamDb, pattern: string, imageId: int) {
    exists it, t :: it in db.imageTags && t in db.tags && it.imageid == imageId && it.tagid == t.id
                    && Like(t.name, pattern)
  }

  /** Image `im` lies in album `a`, which lies under root `ar`. */
  ghost predicate Resolves(db: DigikamDb, im: ImageRow, a: AlbumRow, ar: AlbumRootRow) {
    a in db.albums && ar in db.albumRoots && im.album == Some(a.id) && ar.id == a.albumRoot
  }

  /** `row` selects the columns of image `im` through a resolved album and root, and one of its dates. */
  ghost predicate RowOf(db: DigikamDb, im: ImageRow, row: ImageQueryRow) {
    exists a, ar :: Resolves(db, im, a, ar) && row.creationDate in CreationDates(db, im.id)
                    && row == Project(im, a, ar, row.creationDate)
  }

  lemma JoinRootsMember(db: DigikamDb, im: ImageRow, a: AlbumRow, row: ImageQueryRow)
    ensures row in JoinRoots(db, im, a) <==>
      exists ar :: ar in db.albumRoots && ar.id == a.albumRoot && row.creationDate in CreationDates(db, im.id)
                   && row == Project(im, a, ar, row.creationDate)
  {
  }

  lemma JoinAlbumsMember(db: DigikamDb, im: ImageRow, row: ImageQueryRow)
    ensures row in JoinAlbums(db, im) <==> RowOf(db, im, row)
  {
    if row in JoinAlbums(db, im) {
      var a :| a in db.albums && im.album == Some(a.id) && row in JoinRoots(db, im, a);
      JoinRootsMember(db, im, a, row);
    }
    if RowOf(db, im, row) {
      var a, ar :| Resolves(db, im, a, ar) && row.creationDate in CreationDates(db, im.id)
                   && row == Project(im, a, ar, row.creationDate);
      JoinRootsMember(db, im, a, row);
      assert a in Filter(db.albums, (a: AlbumRow) => im.album == Some(a.id));
    }
  }

  lemma JoinLinksMember(db: DigikamDb, pattern: string, im: ImageRow, row: ImageQueryRow)
    ensures row in JoinLinks(db, pattern, im) <==> TaggedWith(db, pattern, im.id) && RowOf(db, im, row)
  {
    JoinAlbumsMember(db, im, row);
    if row in JoinLinks(db, pattern, im) {
      var it :| it in db.imageTags && it.imageid == im.id && row in JoinTag(db, pattern, im, it);
      var t :| t in db.tags && t.id == it.tagid && Like(t.name, pattern) && row in JoinAlbums(db, im);
    }
    if TaggedWith(db, pattern, im.id) && RowOf(db, im, row) {
      var it, t :| it in db.imageTags && t in db.tags && it.imageid == im.id && it.tagid == t.id
                   && Like(t.name, pattern);
      assert t in Filter(db.tags, (t: TagRow) => t.id == it.tagid && Like(t.name, pattern));
      assert row in JoinTag(db, pattern, im, it);
      assert it in Filter(db.imageTags, (it: ImageTagRow) => it.imageid == im.id);
    }
  }

  /** A row is in the image query's result exactly when the join produces it. */
  lemma ImagesQueryMember(db: DigikamDb, pattern: string, row: ImageQueryRow)
    ensures row in ImagesQuery(db, pattern) <==>
      exists im :: im in db.images && TaggedWith(db, pattern, im.id) && RowOf(db, im, row)
  {
    SortByMember(Distinct(JoinImages(db, pattern)), RowNewerOrSame, row);
    if row in JoinImages(db, pattern) {
      var im :| im in db.images && row in JoinLinks(db, pattern, im);
      JoinLinksMember(db, pattern, im, row);
    }
    if im :| im in db.images && TaggedWith(db, pattern, im.id) && RowOf(db, im, row) {
      JoinLinksMember(db, pattern, im, row);
    }
  }

  /** The left join's date for an image: a date of one of its `ImageInformation` rows, or NULL if it has none. */
  lemma CreationDatesMember(db: DigikamDb, imageId: int, d: Option<Timestamp>)
    ensures d in CreationDates(db, imageId) <==>
      if exists ii :: ii in db.imageInformation && ii.imageid == imageId
      then ImageInformationRow(imageId, d) in db.imageInformation
      else d.None?
  {
    var infos := Filter(db.imageInformation, (ii: ImageInformationRow) => ii.imageid == imageId);
    if exists ii :: ii in db.imageInformation && ii.imageid == imageId {
      var ii :| ii in db.imageInformation && ii.imageid == imageId;
      assert ii in infos;
      if ImageInformationRow(imageId, d) in db.imageInformation {
        assert ImageInformationRow(imageId, d) in infos;
      }
    } else {
      FirstIsMember(infos);
    }
  }

  // ----- the properties GetImagesByPersonName promises -----

  /**
   * `x` is the record the reader builds for image row `im` in album `a` under root `ar`: the
   * image's own columns, the album id, one of its creation dates, and the full path combined
   * from the root's path, the album's relative path and the image name (NULL paths as "").
   */
  ghost predicate DescribesImage(db: DigikamDb, x: Image, im: ImageRow, a: AlbumRow, ar: AlbumRootRow) {
    && Resolves(db, im, a, ar)
    && x.id == im.id && x.album == a.id && x.name == im.name
    && x.status == im.status && x.category == im.category
    && x.fileSize == im.fileSize && x.uniqueHash == im.uniqueHash
    && x.modificationDate in CreationDates(db, im.id)
    && x.fullPath == Combine3(ar.specificPath.GetOr(""), a.relativePath.GetOr(""), im.name)
  }

  lemma ReadImageDescribes(db: DigikamDb, im: ImageRow, a: AlbumRow, ar: AlbumRootRow, row: ImageQueryRow)
    requires Resolves(db, im, a, ar) && row.creationDate in CreationDates(db, im.id)
    requires row == Project(im, a, ar, row.creationDate)
    ensures DescribesImage(db, ReadImage(row), im, a, ar)
  {
  }

  /**
   * Every image returned for `personName` is an `Images` row linked to a tag whose name is
   * LIKE `%personName%`, whose album and album root both exist, and whose record carries that
   * row's columns and the path combined from that album and root.
   */
  lemma ImagesSound(db: DigikamDb, personName: string)
    ensures forall x :: x in ImagesByPersonName(db, personName) ==>
      exists im, a, ar :: im in db.images && TaggedWith(db, SearchPattern(personName), im.id)
                          && DescribesImage(db, x, im, a, ar)
  {
    var pattern := SearchPattern(personName);
    forall x | x in ImagesByPersonName(db, personName)
      ensures exists im, a, ar :: im in db.images && TaggedWith(db, pattern, im.id)
                                  && DescribesImage(db, x, im, a, ar)
    {
      var row :| row in ImagesQuery(db, pattern) && x == ReadImage(row);
      ImagesQueryMember(db, pattern, row);
      var im :| im in db.images && TaggedWith(db, pattern, im.id) && RowOf(db, im, row);
      var a, ar :| Resolves(db, im, a, ar) && row.creationDate in CreationDates(db, im.id)
                   && row == Project(im, a, ar, row.creationDate);
      ReadImageDescribes(db, im, a, ar, row);
    }
  }

  /**
   * Every `Images` row linked to a tag whose name is LIKE `%personName%`, and whose album and
   * album root exist, is returned.
   */
  lemma ImagesComplete(db: DigikamDb, personName: string)
    ensures forall im, a, ar :: im in db.images && Resolves(db, im, a, ar)
                                && TaggedWith(db, SearchPattern(personName), im.id) ==>
      exists x :: x in ImagesByPersonName(db, personName) && DescribesImage(db, x, im, a, ar)
  {
    var pattern := SearchPattern(personName);
    forall im, a, ar | im in db.images && Resolves(db, im, a, ar) && TaggedWith(db, pattern, im.id)
      ensures exists x :: x in ImagesByPersonName(db, personName) && DescribesImage(db, x, im, a, ar)
    {
      var dates := CreationDates(db, im.id);
      assert dates[0] in dates;
      var row := Project(im, a, ar, dates[0]);
      assert RowOf(db, im, row);
      ImagesQueryMember(db, pattern, row);
      ReadImageDescribes(db, im, a, ar, row);
      assert ReadImage(row) in ImagesByPersonName(db, personName);
    }
  }

  /**
   * For a term without `%` or `_`, "matches" means what it says: the tag's name contains the
   * term, ignoring ASCII case.
   */
  lemma TaggedWithTerm(db: DigikamDb, term: string, imageId: int)
    requires NoWildcards(term)
    ensures TaggedWith(db, SearchPattern(term), imageId) <==>
      exists it, t :: it in db.imageTags && t in db.tags && it.imageid == imageId && it.tagid == t.id
                      && ContainsIgnoringAsciiCase(t.name, term)
  {
    forall t: TagRow ensures Like(t.name, SearchPattern(term)) <==> ContainsIgnoringAsciiCase(t.name, term) {
      SubstringPattern(t.name, term);
    }
  }

  /** An image none of whose rows has an existing album under an existing root is never returned. */
  lemma UnresolvableImagesExcluded(db: DigikamDb, personName: string, imageId: int)
    requires forall im, a, ar :: im in db.images && im.id == imageId ==> !Resolves(db, im, a, ar)
    ensures forall x :: x in ImagesByPersonName(db, personName) ==> x.id != imageId
  {
    ImagesSound(db, personName);
  }

  /** When no tag name matches, the result is empty (an empty list, not an error). */
  lemma NoMatchingTagNoImages(db: DigikamDb, personName: string)
    requires forall t :: t in db.tags ==> !Like(t.name, SearchPattern(personName))
    ensures ImagesByPersonName(db, personName) == []
  {
    ImagesSound(db, personName);
    var r := ImagesByPersonName(db, personName);
    FirstIsMember(r);
  }

  /** Keys are unique: image, album and album-root ids, and at most one `ImageInformation` row per image. */
  ghost predicate UniqueKeys(db: DigikamDb) {
    && (forall x, y :: x in db.images && y in db.images && x.id == y.id ==> x == y)
    && (forall x, y :: x in db.albums && y in db.albums && x.id == y.id ==> x == y)
    && (forall x, y :: x in db.albumRoots && y in db.albumRoots && x.id == y.id ==> x == y)
    && (forall x, y :: x in db.imageInformation && y in db.imageInformation && x.imageid == y.imageid ==> x == y)
  }

  lemma SameIdSameRow(db: DigikamDb, pattern: string, r1: ImageQueryRow, r2: ImageQueryRow)
    requires UniqueKeys(db)
    requires r1 in ImagesQuery(db, pattern) && r2 in ImagesQuery(db, pattern) && r1.id == r2.id
    ensures r1 == r2
  {
    ImagesQueryMember(db, pattern, r1);
    ImagesQueryMember(db, pattern, r2);
    var im1 :| im1 in db.images && TaggedWith(db, pattern, im1.id) && RowOf(db, im1, r1);
    var im2 :| im2 in db.images && TaggedWith(db, pattern, im2.id) && RowOf(db, im2, r2);
    var a1, ar1 :| Resolves(db, im1, a1, ar1) && r1.creationDate in CreationDates(db, im1.id)
                   && r1 == Project(im1, a1, ar1, r1.creationDate);
    var a2, ar2 :| Resolves(db, im2, a2, ar2) && r2.creationDate in CreationDates(db, im2.id)
                   && r2 == Project(im2, a2, ar2, r2.creationDate);
    assert im1 == im2;
    assert a1 == a2;
    assert ar1 == ar2;
    CreationDatesMember(db, im1.id, r1.creationDate);
    CreationDatesMember(db, im1.id, r2.creationDate);
  }

  /**
   * With unique keys, DISTINCT leaves each image id at most once, however many matching tags
   * link to the image.
   */
  lemma ImagesUnique(db: DigikamDb, personName: string)
    requires UniqueKeys(db)
    ensures forall j, k :: 0 <= j < k < |ImagesByPersonName(db, personName)| ==>
      ImagesByPersonName(db, personName)[j].id != ImagesByPersonName(db, personName)[k].id
  {
    var pattern := SearchPattern(personName);
    var rows := ImagesQuery(db, pattern);
    var r := ImagesByPersonName(db, personName);
    PermutationKeepsNoDuplicates(Distinct(JoinImages(db, pattern)), rows);
    forall j, k | 0 <= j < k < |r| ensures r[j].id != r[k].id {
      if r[j].id == r[k].id {
        SameIdSameRow(db, pattern, rows[j], rows[k]);
      }
    }
  }

  lemma NewerOrSameIsTotalPreorder()
    ensures TotalPreorder(RowNewerOrSame)
  {
  }

  /**
   * The images come newest first, and those without a creation date (no `ImageInformation`
   * row, or a NULL date) come last, as SQLite places NULLs last in a descending sort.
   */
  lemma ImagesByDate(db: DigikamDb, personName: string)
    ensures SortedBy(ImagesByPersonName(db, personName), ImageNewerOrSame)
    ensures forall j, k :: 0 <= j < k < |ImagesByPersonName(db, personName)|
                           && ImagesByPersonName(db, personName)[j].modificationDate.None? ==>
      ImagesByPersonName(db, personName)[k].modificationDate.None?
  {
    var pattern := SearchPattern(personName);
    NewerOrSameIsTotalPreorder();
    SortBySorted(Distinct(JoinImages(db, pattern)), RowNewerOrSame);
  }

  /**
   * A returned image's date is the creation date of an `ImageInformation` row of that image,
   * and it is absent when the image has no such row.
   */
  lemma ImageDatesFromInformation(db: DigikamDb, personName: string)
    ensures forall x :: x in ImagesByPersonName(db, personName) ==>
      && (x.modificationDate.Some? ==> ImageInformationRow(x.id, x.modificationDate) in db.imageInformation)
      && ((forall ii :: ii in db.imageInformation ==> ii.imageid != x.id) ==> x.modificationDate.None?)
  {
    ImagesSound(db, personName);
    forall x | x in ImagesByPersonName(db, personName)
      ensures x.modificationDate.Some? ==> ImageInformationRow(x.id, x.modificationDate) in db.imageInformation
      ensures (forall ii :: ii in db.imageInformation ==> ii.imageid != x.id) ==> x.modificationDate.None?
    {
      var im, a, ar :| im in db.images && TaggedWith(db, SearchPattern(personName), im.id)
                       && DescribesImage(db, x, im, a, ar);
      CreationDatesMember(db, im.id, x.modificationDate);
    }
  }

  /**
   * When neither the album's relative path nor the image name is rooted, the full path is the
   * root path, the relative path and the name joined in order, empty segments contributing nothing.
   */
  lemma ImageFullPathIsJoin(db: DigikamDb, x: Image, im: ImageRow, a: AlbumRow, ar: AlbumRootRow)
    requires DescribesImage(db, x, im, a, ar)
    requires !IsPathRooted(a.relativePath.GetOr("")) && !IsPathRooted(im.name)
    ensures x.fullPath == JoinSegments([ar.specificPath.GetOr(""), a.relativePath.GetOr(""), im.name])
  {
    CombineIsJoinWhenUnrooted(ar.specificPath.GetOr(""), a.relativePath.GetOr(""), im.name);
  }

  // ===================================================================================
  // SearchPeople: the matching `name` values of the recognition store and the matching tag
  // names of the digiKam store, gathered into one set of names that is then sorted.
  // ===================================================================================

  /** The name values the identity search returns (a NULL value is never LIKE anything). */
  function IdentityNamesQuery(db: RecognitionDb, pattern: string): seq<Option<string>> {
    Distinct(Map(Filter(db.identityAttributes,
                        (ia: IdentityAttributeRow) => ia.attribute == "name" && ia.value.Some? && Like(ia.value.value, pattern)),
                 (ia: IdentityAttributeRow) => ia.value))
  }

  /** The tag names the tag search returns. */
  function TagNamesQuery(db: DigikamDb, pattern: string): seq<string> {
    Distinct(Map(Filter(db.tags, (t: TagRow) => Like(t.name, pattern)), (t: TagRow) => t.name))
  }

  /** `n` is a `name` attribute value in the recognition store. */
  ghost predicate IdentityNameValue(db: RecognitionDb, n: string) {
    exists ia :: ia in db.identityAttributes && ia.attribute == "name" && ia.value == Some(n)
  }

  /** `n` is the name of a tag in the digiKam store. */
  ghost predicate TagName(db: DigikamDb, n: string) {
    exists t :: t in db.tags && t.name == n
  }

  /** What `SearchPeople(term)` finds: a name value or a tag name that is LIKE `%term%`. */
  ghost predicate PersonMatches(rdb: RecognitionDb, ddb: DigikamDb, term: string, n: string) {
    Like(n, SearchPattern(term)) && (IdentityNameValue(rdb, n) || TagName(ddb, n))
  }

  lemma IdentityNamesQueryMember(db: RecognitionDb, pattern: string, n: string)
    ensures Some(n) in IdentityNamesQuery(db, pattern) <==> Like(n, pattern) && IdentityNameValue(db, n)
  {
    var p := (ia: IdentityAttributeRow) => ia.attribute == "name" && ia.value.Some? && Like(ia.value.value, pattern);
    if IdentityNameValue(db, n) && Like(n, pattern) {
      var ia :| ia in db.identityAttributes && ia.attribute == "name" && ia.value == Some(n);
      assert ia in Filter(db.identityAttributes, p);
    }
  }

  lemma TagNamesQueryMember(db: DigikamDb, pattern: string, n: string)
    ensures n in TagNamesQuery(db, pattern) <==> Like(n, pattern) && TagName(db, n)
  {
    var p := (t: TagRow) => Like(t.name, pattern);
    if TagName(db, n) && Like(n, pattern) {
      var t :| t in db.tags && t.name == n;
      assert t in Filter(db.tags, p);
    }
  }

  /**
   * Runs both searches into one set of names and sorts it: the result ascends strictly (so no
   * name appears twice by exact, case-sensitive comparison) and holds exactly the matching
   * identity name values and tag names.
   */
  method SearchPeople(rdb: RecognitionDb, ddb: DigikamDb, searchPattern: string) returns (names: seq<string>)
    ensures StrictlyAscending(names)
    ensures forall n :: n in names <==> PersonMatches(rdb, ddb, searchPattern, n)
  {
    var pattern := "%" + searchPattern + "%";
    var peopleNames: seq<string> := [];

    var values := IdentityNamesQuery(rdb, pattern);
    var i := 0;
    while i < |values|
      invariant 0 <= i <= |values|
      invariant NoDuplicates(peopleNames)
      invariant forall n :: n in peopleNames <==> Some(n) in values[..i]
    {
      if values[i].Some? {
        peopleNames := AddIfAbsent(peopleNames, values[i].value);
      }
      assert values[..i + 1] == values[..i] + [values[i]];
      i := i + 1;
    }
    assert values[..i] == values;

    var tagNames := TagNamesQuery(ddb, pattern);
    var j := 0;
    while j < |tagNames|
      invariant 0 <= j <= |tagNames|
      invariant NoDuplicates(peopleNames)
      invariant forall n :: n in peopleNames <==> Some(n) in values || n in tagNames[..j]
    {
      peopleNames := AddIfAbsent(peopleNames, tagNames[j]);
      assert tagNames[..j + 1] == tagNames[..j] + [tagNames[j]];
      j := j + 1;
    }
    assert tagNames[..j] == tagNames;

    names := SortBy(peopleNames, Le);
    SortedNames(peopleNames);
    forall n ensures n in names <==> PersonMatches(rdb, ddb, searchPattern, n) {
      IdentityNamesQueryMember(rdb, pattern, n);
      TagNamesQueryMember(ddb, pattern, n);
    }
  }

  /** For a term without `%` or `_`, a name matches exactly when it contains the term, ignoring ASCII case. */
  lemma PersonMatchesTerm(rdb: RecognitionDb, ddb: DigikamDb, term: string, n: string)
    requires NoWildcards(term)
    ensures PersonMatches(rdb, ddb, term, n) <==>
      ContainsIgnoringAsciiCase(n, term) && (IdentityNameValue(rdb, n) || TagName(ddb, n))
  {
    SubstringPattern(n, term);
  }

  /**
   * The search does not fold case in its result: two names that differ only in case are both
   * found by a term that matches them.
   */
  lemma CaseVariantsBothFound()
    ensures PersonMatches(RecognitionDb([], [], []),
                          DigikamDb([TagRow(1, None, "Ann", None, None), TagRow(2, None, "ANN", None, None)], [], [], [], [], []),
                          "ann", "Ann")
    ensures PersonMatches(RecognitionDb([], [], []),
                          DigikamDb([TagRow(1, None, "Ann", None, None), TagRow(2, None, "ANN", None, None)], [], [], [], [], []),
                          "ann", "ANN")
    ensures "Ann" != "ANN"
  {
    var ddb := DigikamDb([TagRow(1, None, "Ann", None, None), TagRow(2, None, "ANN", None, None)], [], [], [], [], []);
    assert ddb.tags[0] in ddb.tags && ddb.tags[1] in ddb.tags;
    SubstringPattern("Ann", "ann");
    SubstringPattern("ANN", "ann");
    assert OccursAt("Ann", "ann", 0);
    assert OccursAt("ANN", "ann", 0);
  }

  // ===================================================================================
  // PrintStatistics: seven scalar counts (the printing is not modelled)
  // ===================================================================================

  /**
   * `ExecuteScalar<long>`: the first column of the first row, or `default(long)`, which is 0,
   * when the query yields no row (`None`).
   */
  function ExecuteScalar(result: Option<int>): (r: int)
    ensures result.Some? ==> r == result.value
    ensures result.None? ==> r == 0
  {
    if result.Some? then result.value else 0
  }

  /** The seven counts `PrintStatistics` shows. */
  datatype Statistics = Statistics(
    identitiesCount: int,
    namedIdentities: int,
    faceCount: int,
    imageCount: int,
    albumCount: int,
    tagCount: int,
    taggedImages: int)

  /** `COUNT(*)`: always one row, holding the number of rows. */
  function CountRows<T>(rows: seq<T>): Option<int> {
    Some(|rows|)
  }

  /** The distinct ids of identities that have a `name` attribute: the named-identity count. */
  function NamedIdentityIds(db: RecognitionDb): set<int> {
    set ia | ia in db.identityAttributes && ia.attribute == "name" :: ia.id
  }

  /** The distinct image ids that have a tag link: the tagged-image count. */
  function TaggedImageIds(db: DigikamDb): set<int> {
    set it | it in db.imageTags :: it.imageid
  }

  function CollectStatistics(rdb: RecognitionDb, ddb: DigikamDb): Statistics {
    Statistics(
      ExecuteScalar(CountRows(rdb.identities)),
      ExecuteScalar(Some(|NamedIdentityIds(rdb)|)),
      ExecuteScalar(CountRows(rdb.faceMatrices)),
      ExecuteScalar(CountRows(ddb.images)),
      ExecuteScalar(CountRows(ddb.albums)),
      ExecuteScalar(CountRows(ddb.tags)),
      ExecuteScalar(Some(|TaggedImageIds(ddb)|)))
  }

  /**
   * Each count is the size of its table, or of the set of distinct ids it counts, and neither
   * distinct count exceeds the number of rows of the table it is drawn from.
   */
  lemma StatisticsCounts(rdb: RecognitionDb, ddb: DigikamDb)
    ensures CollectStatistics(rdb, ddb).identitiesCount == |rdb.identities|
    ensures CollectStatistics(rdb, ddb).faceCount == |rdb.faceMatrices|
    ensures CollectStatistics(rdb, ddb).imageCount == |ddb.images|
    ensures CollectStatistics(rdb, ddb).albumCount == |ddb.albums|
    ensures CollectStatistics(rdb, ddb).tagCount == |ddb.tags|
    ensures CollectStatistics(rdb, ddb).namedIdentities ==
      |set ia | ia in rdb.identityAttributes && ia.attribute == "name" :: ia.id|
    ensures CollectStatistics(rdb, ddb).taggedImages == |set it | it in ddb.imageTags :: it.imageid|
    ensures CollectStatistics(rdb, ddb).namedIdentities <= |rdb.identityAttributes|
    ensures CollectStatistics(rdb, ddb).taggedImages <= |ddb.imageTags|
  {
    var named := Filter(rdb.identityAttributes, (ia: IdentityAttributeRow) => ia.attribute == "name");
    assert NamedIdentityIds(rdb) == Keys(named, (ia: IdentityAttributeRow) => ia.id);
    assert TaggedImageIds(ddb) == Keys(ddb.imageTags, (it: ImageTagRow) => it.imageid);
  }

  /** When every `ImageTags` row names an existing image, no more images are tagged than exist. */
  lemma TaggedImagesAtMostImages(rdb: RecognitionDb, ddb: DigikamDb)
    requires forall it :: it in ddb.imageTags ==> exists im :: im in ddb.images && im.id == it.imageid
    ensures CollectStatistics(rdb, ddb).taggedImages <= CollectStatistics(rdb, ddb).imageCount
  {
    var imageIds := Keys(ddb.images, (im: ImageRow) => im.id);
    assert TaggedImageIds(ddb) <= imageIds;
    SubsetCardinality(TaggedImageIds(ddb), imageIds);
  }

  /** When every attribute row belongs to an existing identity, no more identities are named than exist. */
  lemma NamedIdentitiesAtMostIdentities(rdb: RecognitionDb, ddb: DigikamDb)
    requires forall ia :: ia in rdb.identityAttributes ==> exists i :: i in rdb.identities && i.id == ia.id
    ensures CollectStatistics(rdb, ddb).namedIdentities <= CollectStatistics(rdb, ddb).identitiesCount
  {
    var identityIds := Keys(rdb.identities, (i: IdentityRow) => i.id);
    assert NamedIdentityIds(rdb) <= identityIds;
    SubsetCardinality(NamedIdentityIds(rdb), identityIds);
  }
}
