/**
 * The Core Data object graph of the photo-sharing app: photos with their thumbnail and full
 * image data, tags and ratings, plus the persistent-history records that Core Data writes for
 * every saved transaction.  Identities are plain numbers; relationships are stored once, on the
 * side that owns the foreign key (a rating names its photo, a tag names the set of its photos).
 */
module Schema {
  import opened Wrappers

  /** A managed object id.  Fresh ids come from the graph's counter. */
  type ObjectId = nat
  /** The `uuid` attribute of a tag; only its ordering matters to the model. */
  type Uuid = nat
  /** A CloudKit record zone id. */
  type ZoneId = string
  /** A persistent history token. */
  type Token = nat

  /** Swift's Int16, the type of a rating value. */
  newtype Int16 = x: int | -0x8000 <= x < 0x8000

  /** The author every context of this app stamps on its transactions (TransactionAuthor.app). */
  const AppAuthor: string := "app"
  /** Entity names as Core Data reports them in history changes. */
  const TagEntity: string := "Tag"
  const PhotoEntity: string := "Photo"

  datatype Photo = Photo(uniqueName: string)
  datatype Thumbnail = Thumbnail(data: seq<bv8>, photo: ObjectId)
  datatype PhotoData = PhotoData(data: seq<bv8>, photo: ObjectId)
  datatype Rating = Rating(value: Int16, photo: ObjectId)

  /**
   * One row of the Tag table.  `name` is optional in the data model; `zone` is the record zone
   * CloudKit reports for the tag's record (None while it is not mirrored to a shared zone);
   * `photos` is the many-to-many relationship to photos.
   */
  datatype Tag = Tag(id: ObjectId, name: Option<string>, uuid: Uuid, zone: Option<ZoneId>,
                     photos: set<ObjectId>)

  /**
   * The object graph a context sees across both persistent stores.  Tags are kept as a table in
   * row order, because a fetch hands them back in that order before any sort applies.
   */
  datatype Graph = Graph(photos: map<ObjectId, Photo>,
                         thumbnails: map<ObjectId, Thumbnail>,
                         photoData: map<ObjectId, PhotoData>,
                         ratings: map<ObjectId, Rating>,
                         tags: seq<Tag>,
                         nextId: ObjectId)

  /** No two rows of the tag table share an object id. */
  predicate UniqueIds(tags: seq<Tag>) {
    forall i, j :: 0 <= i < j < |tags| ==> tags[i].id != tags[j].id
  }

  /** Ids are below the counter, relationships point at existing photos, tag ids are unique. */
  predicate Valid(g: Graph) {
    && (forall id :: id in g.photos ==> id < g.nextId)
    && (forall id :: id in g.thumbnails ==> id < g.nextId && g.thumbnails[id].photo in g.photos)
    && (forall id :: id in g.photoData ==> id < g.nextId && g.photoData[id].photo in g.photos)
    && (forall id :: id in g.ratings ==> id < g.nextId && g.ratings[id].photo in g.photos)
    && (forall t :: t in g.tags ==> t.id < g.nextId && t.photos <= g.photos.Keys)
    && UniqueIds(g.tags)
  }

  datatype ChangeType = Insert | Update | Delete
  /** One change of a history transaction: the changed object and its entity name. */
  datatype Change = Change(objectId: ObjectId, entity: string, changeType: ChangeType)
  /**
   * A persistent history transaction.  `changes` is optional, as in NSPersistentHistoryTransaction,
   * and `author` is the transaction author of the context that saved it.
   */
  datatype Transaction = Transaction(token: Token, author: Option<string>, changes: Option<seq<Change>>)
}
