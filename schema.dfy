/**
 * The two SQLite stores as in-memory tables, and the record types the reader returns.
 * A column the reader tests with `IsDBNull` is an `Option`, and so is a nullable column a join
 * condition tests, such as `Images.album`: a NULL there fails the inner join, so only rows that
 * joined reach the reader. The other columns the reader reads directly are not `Option`s.
 */
module Schema {
  import opened Wrappers

  /** Dates are an abstract, totally ordered value: a timestamp. */
  type Timestamp = int

  // ----- recognition.db -----

  /** `Identities(id, type)`; the column `type` is called `identityType` here, `type` being a Dafny keyword. */
  datatype IdentityRow = IdentityRow(id: int, identityType: int)

  /** One attribute of an identity; `attribute = "name"` carries its display name. */
  datatype IdentityAttributeRow = IdentityAttributeRow(id: int, attribute: string, value: Option<string>)

  /** A stored face descriptor; only ever counted. */
  datatype FaceMatrixRow = FaceMatrixRow(id: int, identity: int)

  datatype RecognitionDb = RecognitionDb(
    identities: seq<IdentityRow>,
    identityAttributes: seq<IdentityAttributeRow>,
    faceMatrices: seq<FaceMatrixRow>)

  // ----- digikam4.db -----

  datatype TagRow = TagRow(id: int, pid: Option<int>, name: string, icon: Option<int>, iconkde: Option<string>)

  datatype ImageRow = ImageRow(
    id: int,
    album: Option<int>,
    name: string,
    status: int,
    category: int,
    fileSize: int,
    uniqueHash: Option<string>)

  datatype ImageInformationRow = ImageInformationRow(imageid: int, creationDate: Option<Timestamp>)

  datatype ImageTagRow = ImageTagRow(imageid: int, tagid: int)

  datatype AlbumRow = AlbumRow(id: int, albumRoot: int, relativePath: Option<string>)

  datatype AlbumRootRow = AlbumRootRow(id: int, specificPath: Option<string>)

  datatype DigikamDb = DigikamDb(
    tags: seq<TagRow>,
    images: seq<ImageRow>,
    imageInformation: seq<ImageInformationRow>,
    imageTags: seq<ImageTagRow>,
    albums: seq<AlbumRow>,
    albumRoots: seq<AlbumRootRow>)

  // ----- records returned to callers -----

  datatype Identity = Identity(id: int, identityType: int, name: Option<string>)

  datatype Tag = Tag(id: int, pid: int, name: string, icon: int, iconKde: Option<string>)

  datatype Image = Image(
    id: int,
    album: int,
    name: string,
    status: int,
    category: int,
    modificationDate: Option<Timestamp>,
    fileSize: int,
    uniqueHash: Option<string>,
    fullPath: string)
}
