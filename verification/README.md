# Persistence core of the Core Data + CloudKit photo-sharing app, in Dafny

This project models the persistence layer of a photo-sharing app. The app keeps photos, tags and
ratings in Core Data and mirrors them to CloudKit through two persistent stores: a private store
for what the user owns and a shared store for what others share with them. The model covers:

- **Tag deduplication** (`Deduplicate`, with the table helpers in `TagTable`). When peers create
  a tag with the same name in the same record zone, every peer settles the duplicates the same
  way. The duplicate with the smallest uuid wins, the losers' photos move to the winner, and the
  losers are deleted.
- **Persistent-history processing** (`History`). A remote-change notification names a store. The
  app fetches that store's history after the store's saved token, leaving out its own
  transactions. It posts the batch, moves the token to the last transaction, and, for the private
  store only, deduplicates the newly inserted tags.
- **Photo and rating mutations** (`Photos`, with the properties of adding and deleting in
  `PhotoProperties`, and `Ratings`). These cover adding a photo, with its
  thumbnail, its image data and its tags (a tag is reused by name). They also cover deleting a
  photo, adding and deleting ratings, and picking the photo-related transactions out of a
  change notification.
- **Sharing** (`Sharing`). This covers which store a share lives in and share lookup by title.
  It also covers `shareObject`, which deduplicates the moved tags when a photo joins an existing
  share and configures a new share otherwise, plus adding and removing participants.
- **Core Data helpers** (`CoreDataHelper`). These cover store membership of an object, the
  `save(with:)` change guard, the app-authored task context and fetching the shares of several
  stores.

Entities are immutable datatypes (`Schema`): photos, thumbnails, image data and ratings are maps
keyed by object id, and the tags are a table of rows kept in fetch order. Every CloudKit or
mirroring call is an oracle whose reply is a parameter of the operation that makes it. Such calls
include `share(_:to:)`, `fetchParticipants`, `persistUpdatedShare`, the history fetch failing, a
save failing, a store-scoped count failing and the random UUIDs.

## Model

| member | source | states |
|---|---|---|
| CoreDataHelper.Contains | Persistence/CoreDataHelper.swift:14-24 | A store contains an object exactly when the object has a context, the store-scoped count succeeds and the store holds the object. A missing context or a failed count gives false. |
| CoreDataHelper.PersistentStoreOf | Persistence/CoreDataHelper.swift:29-37 | The result is the shared store exactly when the shared store contains the object. It is the private store exactly when the shared one does not and the private one does. It is None exactly when neither does. A count that throws counts as not containing. |
| CoreDataHelper.NewTaskContext | Persistence/CoreDataHelper.swift:75-79 | A task context starts without changes and stamps its writes with the author "app". |
| CoreDataHelper.Save | Persistence/CoreDataHelper.swift:56-64 | A transaction is written exactly when the context has changes and the save does not fail. A failed save is absorbed and leaves the context as it was. A successful save leaves no changes behind. |
| CoreDataHelper.SaveTwiceWritesOnce | Persistence/CoreDataHelper.swift:56-64 | A second save right after a successful one writes nothing. |
| CoreDataHelper.FetchShares | Persistence/CoreDataHelper.swift:84-96 | The fetch succeeds exactly when every store's fetch succeeds, and it then holds exactly the shares of all stores. On failure it throws the error of the first store that failed. |
| CoreDataHelper.FetchSharesOfBothStores | Persistence/CoreDataHelper.swift:84-96 | For the private and shared store, the result is the private shares followed by the shared ones. It fails exactly when either store fails, with the private store's error if that one failed. |
| TagTable.Lookup | Persistence/PersistenceController+Deduplicate.swift:43 | Looking up an object id finds a row with that id, or reports that no row has it. |
| TagTable.NamedRows | Persistence/PersistenceController+Deduplicate.swift:51-53 | The fetch `name == %@` returns exactly the rows with that name. It keeps ids unique. |
| TagTable.NamedRowsAppend | Persistence/PersistenceController+Deduplicate.swift:51-53 | The fetch filters row by row: over two tables joined it returns the rows of the first, then those of the second, so it keeps table order. |
| TagTable.ZoneRows | Persistence/PersistenceController+Deduplicate.swift:63-66 | The zone filter keeps exactly the rows of that zone, where two nil zones are equal, and it keeps the uuid order. |
| TagTable.SortByUuidPermutes | Persistence/PersistenceController+Deduplicate.swift:52 | The uuid sort returns a permutation of its input: every row occurs as often as before. |
| TagTable.SortByUuidSorted | Persistence/PersistenceController+Deduplicate.swift:52 | The uuid sort yields ascending uuids and keeps distinct rows distinct. |
| TagTable.SortedHeadIsMinimal | Persistence/PersistenceController+Deduplicate.swift:75 | The first row of a uuid-sorted list has the smallest uuid. |
| TagTable.WithoutId | Persistence/PersistenceController+Deduplicate.swift:91 | Deleting a tag removes exactly the rows with its id and keeps ids unique. |
| TagTable.AddPhotosToRows | Persistence/PersistenceController+Deduplicate.swift:84-90 | Adding photos to the winner's row gives the winner those photos and leaves every other row as it was. |
| Deduplicate.DeduplicateTag | Persistence/PersistenceController+Deduplicate.swift:38-78 | Deduplicating one candidate changes only the tag table. |
| Deduplicate.DeduplicateAndWait | Persistence/PersistenceController+Deduplicate.swift:19-33 | Deduplicating a list of candidates changes only the tag table. |
| Deduplicate.PlanForSkips | Persistence/PersistenceController+Deduplicate.swift:43-77 | A candidate that is gone or has no name gets no plan, and a plan always has at least one loser. Deduplicate.PlanNoneIff and Deduplicate.PlanShape state the rest. |
| Deduplicate.RemoveDuplicates | Persistence/PersistenceController+Deduplicate.swift:83-93 | The merge loop changes no row except the winner's. Every other row afterwards was in the table before. Deduplicate.RemoveDuplicatesEffect states the full effect. |
| Deduplicate.DuplicatesFacts | Persistence/PersistenceController+Deduplicate.swift:51-66 | The duplicate group is exactly the rows with the candidate's name and zone. It holds no repeats and is in ascending uuid order. |
| Deduplicate.PlanNoneIff | Persistence/PersistenceController+Deduplicate.swift:43-70 | For a live, named candidate, nothing is merged exactly when at most one tag has its name and zone. This holds whether the name fetch or the zone filter finds fewer than two. |
| Deduplicate.PlanShape | Persistence/PersistenceController+Deduplicate.swift:68-77 | The winner and the losers are in the candidate's group and together cover all of it. The winner's uuid is at most every loser's, and the losers are distinct from the winner. |
| Deduplicate.RemoveDuplicatesEffect | Persistence/PersistenceController+Deduplicate.swift:83-93 | After the merge, the winner holds its own photos plus every loser's. No loser remains. Every other row is kept, and no other row appears. |
| Deduplicate.PhotosOfMembership | Persistence/PersistenceController+Deduplicate.swift:84-90 | A photo is moved to the winner exactly when it belonged to some loser. |
| Deduplicate.DeduplicateTagEffect | Persistence/PersistenceController+Deduplicate.swift:38-93 | For a candidate with duplicates, the winner is the group's smallest uuid. Afterwards the name and zone hold exactly one tag, and that tag has every photo of the group. All rows outside the group are unchanged. |
| Deduplicate.SettledIsNoop | Persistence/PersistenceController+Deduplicate.swift:43-70 | A candidate that is deleted, nameless, or has no duplicate in its zone leaves the graph unchanged. |
| Deduplicate.DeduplicateSettles | Persistence/PersistenceController+Deduplicate.swift:38-93 | After deduplicating a candidate, its name and zone hold at most one tag. |
| Deduplicate.DeduplicateKeepsSettled | Persistence/PersistenceController+Deduplicate.swift:38-93 | Deduplicating one candidate never undoes another candidate's settled state. |
| Deduplicate.DeduplicateAndWaitSettles | Persistence/PersistenceController+Deduplicate.swift:19-33 | After the pass, every candidate is settled, ids stay unique, and whatever was settled before stays settled. |
| Deduplicate.AllSettledIsNoop | Persistence/PersistenceController+Deduplicate.swift:28-31 | A pass over candidates that are all settled changes nothing. |
| Deduplicate.DeduplicateAndWaitIdempotent | Persistence/PersistenceController+Deduplicate.swift:28-31 | Running the pass a second time on the same ids changes nothing. |
| Deduplicate.DeduplicateTagKeepsGroups | Persistence/PersistenceController+Deduplicate.swift:83-93 | One pass never empties a group: for every row before, some row of the same name and zone holds all of its photos afterwards. |
| Deduplicate.DeduplicateAndWaitKeepsGroups | Persistence/PersistenceController+Deduplicate.swift:19-33 | The whole pass never empties a group or loses a photo from it. |
| Deduplicate.DeduplicateAndWaitKeepsOthers | Persistence/PersistenceController+Deduplicate.swift:63-66 | A row outside the name-and-zone group of every candidate survives the pass unchanged. This includes same-named tags in other zones. |
| Deduplicate.DeduplicateTagOnlyMerges | Persistence/PersistenceController+Deduplicate.swift:83-93 | After one merge, every row was there before or has the candidate's name and zone. |
| Deduplicate.DeduplicateAndWaitOnlyMerges | Persistence/PersistenceController+Deduplicate.swift:19-33 | The pass adds no row outside the candidates' groups: every row afterwards was there before or has some candidate's name and zone. |
| Deduplicate.DeduplicationConverges | Persistence/PersistenceController+Deduplicate.swift:51-76 | Two peers holding the same rows in any order, with distinct uuids, pick the same winner and end with the same rows. |
| Deduplicate.DeduplicateTagValid | Persistence/PersistenceController+Deduplicate.swift:83-93 | The merge keeps the graph well formed. |
| Deduplicate.DeduplicateAndWaitValid | Persistence/PersistenceController+Deduplicate.swift:19-33 | The whole pass keeps the graph well formed. |
| History.TokenKeyInjective | Persistence/PersistenceController+History.swift:139-151 | Different stores never share a "HistoryToken" key. |
| History.HistoryToken | Persistence/PersistenceController+History.swift:139-145 | The token read for a store is the one saved under its key. None, meaning fetch from the beginning, is returned exactly when nothing was saved. |
| History.UpdateHistoryToken | Persistence/PersistenceController+History.swift:147-151 | After an update, reading the store's token gives the new token, and every other store reads what it read before. |
| History.AffectedStores | Persistence/PersistenceController+History.swift:76-81 | A request for a known store is scoped to that single store. |
| History.FetchFrom | Persistence/PersistenceController+History.swift:71-75 | Fetching from one store returns exactly its transactions that are after the token and not authored by "app". |
| History.FetchHistory | Persistence/PersistenceController+History.swift:69-83 | The fetch returns exactly the transactions of the stores in scope that are after the token and not authored by "app". |
| History.TagInserts | Persistence/PersistenceController+History.swift:122-126 | Collecting from one transaction yields exactly the ids of its Tag-entity insert changes. |
| History.NewTagIds | Persistence/PersistenceController+History.swift:118-127 | The candidates are exactly the ids of Tag inserts in transactions that have changes. |
| History.NewTagIdsAppend | Persistence/PersistenceController+History.swift:121-127 | The candidates of a batch are those of its parts, in transaction order. |
| History.StoreRemoteChange | Persistence/PersistenceController+History.swift:15-27 | A notification without a store UUID, or with a UUID that is neither store's identifier, changes nothing. One naming a known store runs history processing for that store. |
| History.RemoteChangePostsEvent | Persistence/PersistenceController+History.swift:15-27 | A notification posts an event exactly when it names a known store and the fetch succeeds. The event carries that store's new transactions. |
| History.PerformHistoryProcessing | Persistence/PersistenceController+History.swift:64-131 | A failed fetch changes nothing. Otherwise exactly one event is appended to those posted before. Only the graph's tag table can change. History.ProcessingEffect and History.ProcessingKeepsTags state the rest. |
| History.ProcessingKeepsTags | Persistence/PersistenceController+History.swift:118-130 | The deduplication a run starts keeps every row outside the groups of the newly inserted tags, and adds no row outside them. No group is emptied or loses a photo. |
| History.ProcessingEffect | Persistence/PersistenceController+History.swift:64-131 | A failed fetch changes nothing; otherwise one event with the store's non-app transactions is posted, the token moves to the last one, and new tags of the private store are deduplicated (details below). |
| History.ReplayIsIdempotent | Persistence/PersistenceController+History.swift:99-104 | When a store commits tokens in increasing order, processing the same store again fetches nothing. It only posts an empty event and leaves tokens and graph as they were. |
| History.TaskContextWritesAreNeverFetched | Persistence/PersistenceController+History.swift:73-74 | What a task context saves carries the author "app", and no history fetch ever returns it. |
| Photos.FirstNamed | Persistence/PersistenceController+Photo.swift:30 | `tagIfExists` finds the first row with the name. It finds nothing exactly when no row has the name. |
| Photos.TagNames | Persistence/PersistenceController+Photo.swift:29-34 | Each name reuses the first row with it, or else one new tag is created per name. The photo joins every named tag, and existing rows change only by gaining the photo. |
| Photos.AddPhoto | Persistence/PersistenceController+Photo.swift:16-38 | The photo, its thumbnail and its image data are stored at the next three ids and linked to each other, and ratings are unchanged (details below). |
| PhotoProperties.AddPhotoObjects | Persistence/PersistenceController+Photo.swift:16-28 | On a valid graph there is exactly one new photo, existing photos are untouched, and exactly one thumbnail and one image data refer to the new photo. |
| PhotoProperties.AddPhotoKeepsValid | Persistence/PersistenceController+Photo.swift:16-38 | Adding a photo to a valid graph keeps it valid: ids stay below the counter, links point at stored photos, and tag ids stay unique. |
| PhotoProperties.AddPhotoTagged | Persistence/PersistenceController+Photo.swift:29-34 | The tag table after the add keeps every old row or adds the photo to it, and changes only the first row with a listed name. New rows have fresh listed names and the photo. Every listed name is covered. |
| PhotoProperties.AddPhotoTags | Persistence/PersistenceController+Photo.swift:29-34 | Every listed name ends on a tag holding the new photo, with existing tags reused first and new tags only for new names (details below). |
| Photos.DeletePhoto | Persistence/PersistenceController+Photo.swift:40-47 | The photo is removed with its thumbnail, image data and ratings, and every tag loses it; an absent photo changes nothing (details below). |
| PhotoProperties.DeleteLeavesNoTrace | Persistence/PersistenceController+Photo.swift:43 | After a delete, no photo, thumbnail, image data, rating or tag refers to the photo. |
| PhotoProperties.DeleteUndoesAdd | Persistence/PersistenceController+Photo.swift:16-47 | Deleting a photo just added restores photos, thumbnails, image data, ratings and the old tags. Tags the add created are left empty. With no tag names, only the id counter differs. |
| Photos.AppendOnFirstPhotoChange | Persistence/PersistenceController+Photo.swift:55-58 | The inner loop appends the transaction once when some change is to a Photo, and otherwise not at all. |
| Photos.CollectPhotoTransactions | Persistence/PersistenceController+Photo.swift:54-59 | The outer loop keeps the results it starts from, then appends exactly the transactions that have changes and touch a Photo. |
| Photos.PhotoTransactions | Persistence/PersistenceController+Photo.swift:50-62 | Exactly the transactions with a Photo change are kept, in order, and a missing list gives none (details below). |
| Photos.PhotoTransactionsSingle | Persistence/PersistenceController+Photo.swift:54-59 | A single transaction is kept exactly when it has changes and one of them is to a Photo. |
| Photos.PhotoTransactionsAppend | Persistence/PersistenceController+Photo.swift:54-59 | The filter splits over concatenation, so transactions come out in input order, each at most once. |
| Ratings.AddRating | Persistence/PersistenceController+Rating.swift:15-23 | A rating for a stored photo is added at the next id and nothing else changes; an absent photo changes nothing (details below). |
| Ratings.DeleteRating | Persistence/PersistenceController+Rating.swift:25-33 | Exactly that rating is removed and every other rating stays (details below). |
| Ratings.DeleteRatingUndoesAdd | Persistence/PersistenceController+Rating.swift:15-33 | Deleting the rating just added gives the graph back, apart from the id counter. |
| Sharing.ShareStore | Persistence/PersistenceController+Share.swift:340-360 | The private store if its shares hold the share's zone, else the shared store if its shares do, else none (details below). |
| Sharing.ShareStoreOfFetchedShare | Persistence/PersistenceController+Share.swift:343-356 | A share fetched from the private store resolves to it. A share fetched from the shared store resolves to it exactly when no private share has its zone. |
| Sharing.FirstWithTitle | Persistence/PersistenceController+Share.swift:250 | `first(where:)` returns a share with the title that no earlier share has. It returns nothing exactly when no share has the title. |
| Sharing.ShareWithTitle | Persistence/PersistenceController+Share.swift:247-252 | The first share with the title, private shares first, and none exactly when a fetch fails or no share has it (details below). |
| Sharing.ShareTitles | Persistence/PersistenceController+Share.swift:255-259 | The titles of all shares, private first, in fetch order. The empty list when the fetch fails. |
| Sharing.TitleListedIffFound | Persistence/PersistenceController+Share.swift:247-259 | A title is among `shareTitles()` exactly when `share(with:)` finds a share for it, given that each share's title reads the same every time (see Left out). |
| Sharing.Configure | Persistence/PersistenceController+Share.swift:262-264 | Configuring sets the system title to "A cool photo 2" and changes nothing else. |
| Sharing.CreateNewShare | Persistence/PersistenceController+Share.swift:21-31 | A new share is returned exactly when the container creates one, and it comes back configured. |
| Sharing.TagIds | Persistence/PersistenceController+Share.swift:202 | The filtered ids are exactly the Tag-entity ids among the moved objects. There are none when no list came back. |
| Sharing.ShareObject | Persistence/PersistenceController+Share.swift:188-220 | A failure is passed through unchanged; a new share is configured; joining an existing share changes only the tag table (details below). |
| Sharing.ShareObjectSettlesMovedTags | Persistence/PersistenceController+Share.swift:197-204 | Joining an existing share leaves every moved tag settled, with at most one tag per name and zone. Tags settled before stay settled. Every row outside the moved tags' name-and-zone groups is kept and no row appears outside them, no group is emptied or loses a photo, and a valid graph stays valid. |
| Sharing.AddToShare | Persistence/PersistenceController+Share.swift:285 | The participant is present afterwards, replacing one of the same identity in place or appended, and everybody else stays (details below). |
| Sharing.RemoveFromShare | Persistence/PersistenceController+Share.swift:302 | Exactly the entries with the participant's identity leave the share. |
| Sharing.RemoveUndoesAdd | Persistence/PersistenceController+Share.swift:285-302 | Adding someone new to a share and then removing them gives the share back. |
| Sharing.AddToShareIdempotent | Persistence/PersistenceController+Share.swift:285 | Adding the same participant twice is adding them once. |
| Sharing.AddParticipant | Persistence/PersistenceController+Share.swift:268-294 | Exactly the looked-up participant joins or exactly the listed ones leave, and the updated share is persisted (details below). |
| Sharing.RemoveAll | Persistence/PersistenceController+Share.swift:301-303 | Exactly the participants whose identity is listed leave the share. |
| Sharing.DeleteParticipants | Persistence/PersistenceController+Share.swift:297-314 | Exactly the participants whose identity is listed leave, everybody else stays, and the updated share is persisted to the private store with the persist reply passed to the completion (details below). |
| Sharing.DeleteUndoesAddParticipant | Persistence/PersistenceController+Share.swift:268-314 | Deleting a participant that a successful lookup just added, who was not in the share before, leaves the share as it was. |
| Sharing.StringValue | Persistence/PersistenceController+Share.swift:318-322 | Every status has one of the four names, because its raw value is always 0 to 3. |
| Sharing.StringValueRoundTrip | Persistence/PersistenceController+Share.swift:318-322 | Reading a status's name back gives the status, so the four names are distinct. |
| Sharing.ParseStatusRoundTrip | Persistence/PersistenceController+Share.swift:318-322 | Each of the four names is the name of exactly the status it reads back as. |
| Sharing.PurgeTarget | Persistence/PersistenceController+Share.swift:225-235 | The purge targets the share's zone in the store given, else in the store the share lives in. It targets nothing when neither is known. |

Details for the rows above that point here:

- **History.ProcessingEffect (the processing run).**
  - A failed fetch changes nothing.
  - Otherwise exactly one event is posted, even for an empty batch.
  - The event holds only that store's transactions and none authored by "app".
  - The token becomes the last transaction's token exactly when the batch is non-empty, and no other store's token moves.
  - The graph changes only for a non-empty batch of the private store with new tags, and only in its tag table.
  - Every new tag is then settled.
  - With unique tag ids, every row outside the new tags' name-and-zone groups is kept, no row appears outside them, and no group is emptied or loses a photo (proved in History.ProcessingKeepsTags).
- **Photos.AddPhoto (the added photo).**
  - A photo with the given name is stored at the next object id.
  - A thumbnail and an image data object, carrying the given bytes and linked to the photo, are stored at the two ids after it.
  - Ratings are unchanged.
  - PhotoProperties.AddPhotoKeepsValid adds that a valid graph stays valid.
  - PhotoProperties.AddPhotoTagged adds that the tag table is the one the tag loop builds, with all of that loop's guarantees.
- **PhotoProperties.AddPhotoTags (the tags of an added photo).**
  - Every listed name ends up on a tag holding the new photo.
  - An existing tag changes only by gaining the photo, and only when it is the first tag with a listed name.
  - New tags are created only for names no tag had, at most one per name, with no zone and only the new photo.
- **Photos.DeletePhoto (the deleted photo).**
  - A photo not in the graph is left alone.
  - Otherwise the photo is removed.
  - Its thumbnail, image data and ratings are deleted with it (cascade).
  - Every tag loses the photo (nullify).
  - Nothing else changes, and a valid graph stays valid.
- **Photos.PhotoTransactions (the photo transactions).**
  - A missing transactions entry gives the empty list.
  - Otherwise a transaction is kept exactly when it has changes and one of them is to a Photo.
- **Ratings.AddRating (the added rating).**
  - A photo not in the graph is left alone.
  - Otherwise one rating with the next id is added, holding the value and linked to the photo.
  - Nothing else changes, and the photo's ratings gain exactly that id.
  - Other photos' ratings are unchanged.
- **Ratings.DeleteRating (the deleted rating).**
  - A rating not in the graph is left alone.
  - Otherwise exactly that rating is removed.
  - Every other rating, of any photo, stays.
  - A valid graph stays valid.
- **Sharing.ShareStore (the store of a share).**
  - It is the private store exactly when the private store's fetched shares include the share's zone.
  - Otherwise it is the shared store exactly when the shared store's shares include the zone.
  - Otherwise it is nothing.
  - A store whose fetch throws is passed over.
- **Sharing.ShareWithTitle (the lookup by title).**
  - The share found has the title and comes from the private or shared shares.
  - A shared-store share is found only when no private share has the title.
  - It is the first share with the title in fetch order, private shares first. Shares created in the same minute get the same title, so this picks among them.
  - Nothing is found exactly when a fetch fails or no share has the title.
- **Sharing.ShareObject (sharing an object).**
  - On a failure, the completion gets the container's share and error, the graph is unchanged and nothing is persisted.
  - On success, the completion gets the persist reply.
  - A new share is persisted configured, with no deduplication.
  - An existing share is persisted as returned, and only tags change.
  - The graph is unchanged when no tags were moved.
  - Sharing.ShareObjectSettlesMovedTags states what deduplicating the moved tags does to the tag table.
- **Sharing.AddToShare (adding a participant to a share).**
  - The participant is in the share afterwards, and everybody with another identity stays.
  - Somebody new is appended.
  - An identity already present is replaced in place.
  - Unique identities stay unique.
- **Sharing.AddParticipant and Sharing.DeleteParticipants (the participant operations).**
  - When the add's lookup fails or finds nobody, the share is untouched, nothing is persisted, and the completion gets the share and the lookup error.
  - Otherwise the first match joins as a private user with the requested permission, and the others stay.
  - Nobody else joins: every participant afterwards is the one who joined or was there before.
  - Deleting participants removes every listed participant and keeps everybody else.
  - Both persist the updated share to the private store and hand the persist reply to the completion.

## Left out

- SwiftUI views, UICloudSharingController and SWCollaborationView presentation, and the sharing-controller delegate callbacks (Persistence/PersistenceController+Share.swift:34-175) are left out. They are UI on frameworks whose behaviour is not part of this model.
- `historyQueue`, `perform`/`performAndWait` and `processHistoryAsynchronously` are left out. Every operation is modelled as atomic and sequential.
- Container and store setup, merge policies and query generations are left out. They are framework configuration.
- NotificationCenter posting is modelled as an appended `History.Event`. The `NSKeyedArchiver` encoding of tokens is modelled as a map from key to token.
- `CKShare.title` is a field of `Share` rather than derived. It depends on DateFormatter output and random UUIDs.
- Sharing.TitleListedIffFound: the if-and-only-if assumes a share's title is the same on every read. The source guarantees that only for shares with a creation date. A share whose `creationDate` is nil gets a fresh `Share-<UUID>` title on each read (PersistenceController+Share.swift:329-331). Such a share is listed by `shareTitles()` but never found by `share(with:)`, so for it only the found-implies-listed direction holds.
- `existingShare(photo:)` is left out. Its result is the first entry of an unordered dictionary returned by `fetchShares(matching:)`, and it feeds only UI code.
- `mergeTransactions(_:to:)` is left out. It merges changes into the view context, which has no state in this model.
- The internals of `share(_:to:)`, `fetchParticipants`, `persistUpdatedShare`, `purgeObjectsAndRecordsInZone` and `recordID(for:)` are left out. Their replies are parameters, and a tag's record zone is a field of the tag.
- Sharing.ShareObject: the move of the object graph into the share's record zone, which `share(_:to:)` performs, is not modelled. The graph `ShareObject` receives is the graph as the container leaves it: every moved tag's zone is already the share's zone. Deduplication and Sharing.ShareObjectSettlesMovedTags are stated over that graph.
- Deduplicate.DeduplicateTag: a failing duplicate fetch (`try?` at line 54) would skip the candidate. That case is not modelled; the fetch is taken to succeed.
- Deduplicate.DeduplicateAndWait: the task context's final save is taken to succeed. Its failure would discard the merge, as `CoreDataHelper.Save` shows for any context.
- Photos.AddPhoto and Ratings.AddRating model the graph their context saves. The save itself is `CoreDataHelper.Save`.
- Photos.DeletePhoto: the delete rules of the data model are not part of the sources. Thumbnail, image data and ratings are assumed to cascade, and tags to nullify.
- Photos.FirstNamed: `Tag.tagIfExists(with:context:)` is not part of the sources. It is assumed to return the first tag with that name, including tags inserted earlier in the same context.
- Sharing.AddToShare and Sharing.RemoveFromShare: CloudKit's own add and remove rules are not part of the sources. Participants are matched by user identity: an add replaces a present identity in place and otherwise appends, and a remove drops every entry with that identity.
- Sharing.ShareObject: the failure branch force-unwraps the error in its log message. A container reply with neither a share nor an error would trap, so the model requires that such a reply never occurs.
- The objects each persistent store holds are not updated by the graph mutations. `CoreDataHelper.Contains` and `PersistentStoreOf` take the store contents as given.
- History.FetchHistory: a transaction with no author is fetched, because `author != "app"` holds for it.
