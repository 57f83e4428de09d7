/**
 * Properties of adding and deleting a photo (PersistenceController+Photo.swift): what `AddPhoto`
 * creates, how it links the tags, and that `DeletePhoto` takes back what `AddPhoto` added.
 */
module PhotoProperties {
  import opened Wrappers
  import opened Schema
  import opened Photos

  /**
   * On a valid graph `AddPhoto` creates one new photo, leaving every existing photo as it was,
   * and exactly one thumbnail and one image data object refer to it.
   */
  lemma AddPhotoObjects(g: Graph, photoData: seq<bv8>, thumbnailData: seq<bv8>, tagNames: seq<string>,
                        uniqueName: string, uuids: seq<Uuid>)
    requires Valid(g) && |uuids| >= |tagNames|
    ensures var r := AddPhoto(g, photoData, thumbnailData, tagNames, uniqueName, uuids);
      && g.nextId !in g.photos && r.photos.Keys == g.photos.Keys + {g.nextId}
      && (forall id :: id in g.photos ==> r.photos[id] == g.photos[id])
      && (forall id :: id in r.thumbnails && r.thumbnails[id].photo == g.nextId <==> id == g.nextId + 1)
      && (forall id :: id in r.photoData && r.photoData[id].photo == g.nextId <==> id == g.nextId + 2)
  {
    var r := AddPhoto(g, photoData, thumbnailData, tagNames, uniqueName, uuids);
    NewPhotoObjects(g, r.photos, r.thumbnails, r.photoData, Photo(uniqueName), thumbnailData, photoData);
  }

  /** The object maps of a valid graph after storing a photo and its two data objects at fresh ids. */
  lemma NewPhotoObjects(g: Graph, photos: map<ObjectId, Photo>, thumbnails: map<ObjectId, Thumbnail>,
                        photoData: map<ObjectId, PhotoData>, photo: Photo, thumbnailData: seq<bv8>, imageData: seq<bv8>)
    requires Valid(g)
    requires photos == g.photos[g.nextId := photo]
    requires thumbnails == g.thumbnails[g.nextId + 1 := Thumbnail(thumbnailData, g.nextId)]
    requires photoData == g.photoData[g.nextId + 2 := PhotoData(imageData, g.nextId)]
    ensures g.nextId !in g.photos && photos.Keys == g.photos.Keys + {g.nextId} && photos[g.nextId] == photo
    ensures forall id :: id in thumbnails && thumbnails[id].photo == g.nextId <==> id == g.nextId + 1
    ensures forall id :: id in photoData && photoData[id].photo == g.nextId <==> id == g.nextId + 2
    ensures thumbnails[g.nextId + 1].data == thumbnailData && photoData[g.nextId + 2].data == imageData
    ensures forall id :: id in g.photos ==> photos[id] == g.photos[id]
    ensures forall id :: id in g.thumbnails ==> thumbnails[id] == g.thumbnails[id]
    ensures forall id :: id in g.photoData ==> photoData[id] == g.photoData[id]
  {
    assert g.nextId !in g.photos && g.nextId + 1 !in g.thumbnails && g.nextId + 2 !in g.photoData;
    OnlyNewThumbnailLinks(g, thumbnails, thumbnailData);
    OnlyNewPhotoDataLinks(g, photoData, imageData);
  }

  /** On a valid graph the one thumbnail referring to the next id is the one stored at the next id + 1. */
  lemma OnlyNewThumbnailLinks(g: Graph, thumbnails: map<ObjectId, Thumbnail>, data: seq<bv8>)
    requires Valid(g) && thumbnails == g.thumbnails[g.nextId + 1 := Thumbnail(data, g.nextId)]
    ensures forall id :: id in thumbnails && thumbnails[id].photo == g.nextId <==> id == g.nextId + 1
  {
    forall id | id in thumbnails && id != g.nextId + 1
      ensures thumbnails[id].photo != g.nextId
    {
      assert id in g.thumbnails;
    }
  }

  /** On a valid graph the one image data object referring to the next id is the one stored at the next id + 2. */
  lemma OnlyNewPhotoDataLinks(g: Graph, photoData: map<ObjectId, PhotoData>, data: seq<bv8>)
    requires Valid(g) && photoData == g.photoData[g.nextId + 2 := PhotoData(data, g.nextId)]
    ensures forall id :: id in photoData && photoData[id].photo == g.nextId <==> id == g.nextId + 2
  {
    forall id | id in photoData && id != g.nextId + 2
      ensures photoData[id].photo != g.nextId
    {
      assert id in g.photoData;
    }
  }

  /** The table `AddPhoto` leaves is the one its tag loop builds, with all that loop guarantees. */
  lemma AddPhotoTagged(g: Graph, photoData: seq<bv8>, thumbnailData: seq<bv8>, tagNames: seq<string>,
                       uniqueName: string, uuids: seq<Uuid>)
    requires |uuids| >= |tagNames|
    ensures TaggedAll(g.tags, tagNames, g.nextId, g.nextId + 3,
                      AddPhoto(g, photoData, thumbnailData, tagNames, uniqueName, uuids).tags)
  {
    assert AddPhoto(g, photoData, thumbnailData, tagNames, uniqueName, uuids).tags
        == TagNames(g.tags, tagNames, g.nextId, g.nextId + 3, uuids);
  }

  /** Adding a photo to a valid graph leaves a valid graph. */
  lemma AddPhotoKeepsValid(g: Graph, photoData: seq<bv8>, thumbnailData: seq<bv8>, tagNames: seq<string>,
                           uniqueName: string, uuids: seq<Uuid>)
    requires Valid(g) && |uuids| >= |tagNames|
    ensures Valid(AddPhoto(g, photoData, thumbnailData, tagNames, uniqueName, uuids))
  {
    AddPhotoTagged(g, photoData, thumbnailData, tagNames, uniqueName, uuids);
    AddPhotoValid(g, AddPhoto(g, photoData, thumbnailData, tagNames, uniqueName, uuids), g.nextId);
  }

  /**
   * The tags after `AddPhoto`: every listed name is carried by a tag holding the new photo; an
   * existing tag changes only by gaining the photo, and only when it is the first tag carrying a
   * listed name; a tag is created only for a listed name that no existing tag carries, and at
   * most one per name.
   */
  lemma AddPhotoTags(g: Graph, photoData: seq<bv8>, thumbnailData: seq<bv8>, tagNames: seq<string>,
                     uniqueName: string, uuids: seq<Uuid>)
    requires |uuids| >= |tagNames|
    ensures var r := AddPhoto(g, photoData, thumbnailData, tagNames, uniqueName, uuids);
      && (forall name :: name in tagNames ==> exists t :: t in r.tags && t.name == Some(name) && g.nextId in t.photos)
      && |g.tags| <= |r.tags|
      && (forall i :: 0 <= i < |g.tags| ==>
            r.tags[i] == g.tags[i] || r.tags[i] == g.tags[i].(photos := g.tags[i].photos + {g.nextId}))
      && (forall i :: 0 <= i < |g.tags| && r.tags[i] != g.tags[i] ==>
            exists name :: name in tagNames && FirstNamed(g.tags, name) == Some(i))
      && (forall i :: |g.tags| <= i < |r.tags| ==>
            && r.tags[i].name.Some? && r.tags[i].name.value in tagNames
            && (forall t :: t in g.tags ==> t.name != r.tags[i].name)
            && (forall j :: |g.tags| <= j < i ==> r.tags[j].name != r.tags[i].name)
            && r.tags[i].zone == None && r.tags[i].photos == {g.nextId})
  {
    var r := AddPhoto(g, photoData, thumbnailData, tagNames, uniqueName, uuids);
    var p := g.nextId;
    AddPhotoTagged(g, photoData, thumbnailData, tagNames, uniqueName, uuids);
    assert Covers(tagNames, r.tags, p);
    forall name | name in tagNames
      ensures exists t :: t in r.tags && t.name == Some(name) && p in t.photos
    {
      var i :| 0 <= i < |r.tags| && r.tags[i].name == Some(name) && p in r.tags[i].photos;
      assert r.tags[i] in r.tags;
    }
    assert NewNamesFresh(g.tags, tagNames, r.tags);
    forall i, t | |g.tags| <= i < |r.tags| && t in g.tags
      ensures t.name != r.tags[i].name
    {
      var j :| 0 <= j < |g.tags| && g.tags[j] == t;
      assert r.tags[j].name == g.tags[j].name;
    }
  }

  /** After a delete nothing in the graph refers to the photo any more. */
  lemma DeleteLeavesNoTrace(g: Graph, p: ObjectId)
    requires Valid(g)
    ensures var r := DeletePhoto(g, p);
      && p !in r.photos
      && (forall id :: id in r.thumbnails ==> r.thumbnails[id].photo != p)
      && (forall id :: id in r.photoData ==> r.photoData[id].photo != p)
      && (forall id :: id in r.ratings ==> r.ratings[id].photo != p)
      && (forall t :: t in r.tags ==> p !in t.photos)
  {
    var r := DeletePhoto(g, p);
    if p in g.photos {
      forall t | t in r.tags
        ensures p !in t.photos
      {
        var i :| 0 <= i < |r.tags| && r.tags[i] == t;
      }
    } else {
      forall t | t in r.tags
        ensures p !in t.photos
      {
        assert t.photos <= g.photos.Keys;
      }
    }
  }

  /**
   * Deleting the photo just added undoes the add: photos, thumbnails, image data and ratings are
   * back as they were, the existing tags are back as they were, and any tag the add created is
   * left without photos.  With no tag names only the id counter has moved.
   */
  lemma DeleteUndoesAdd(g: Graph, photoData: seq<bv8>, thumbnailData: seq<bv8>, tagNames: seq<string>,
                        uniqueName: string, uuids: seq<Uuid>)
    requires Valid(g) && |uuids| >= |tagNames|
    ensures var r := DeletePhoto(AddPhoto(g, photoData, thumbnailData, tagNames, uniqueName, uuids), g.nextId);
      && r.photos == g.photos && r.thumbnails == g.thumbnails && r.photoData == g.photoData && r.ratings == g.ratings
      && |g.tags| <= |r.tags| && r.tags[..|g.tags|] == g.tags
      && (forall t :: t in r.tags[|g.tags|..] ==> t.photos == {})
      && (tagNames == [] ==> r == g.(nextId := g.nextId + 3))
  {
    var p := g.nextId;
    var a := AddPhoto(g, photoData, thumbnailData, tagNames, uniqueName, uuids);
    AddPhotoTagged(g, photoData, thumbnailData, tagNames, uniqueName, uuids);
    if tagNames == [] {
      assert a.tags == g.tags;
    }
    DeleteUndoesFreshPhoto(g, a, p);
  }

  /** Deleting a photo added on top of a valid graph, described by what the add did. */
  lemma DeleteUndoesFreshPhoto(g: Graph, a: Graph, p: ObjectId)
    requires Valid(g) && p == g.nextId
    requires p in a.photos && a.photos == g.photos[p := a.photos[p]]
    requires p + 1 in a.thumbnails && a.thumbnails == g.thumbnails[p + 1 := a.thumbnails[p + 1]]
    requires a.thumbnails[p + 1].photo == p
    requires p + 2 in a.photoData && a.photoData == g.photoData[p + 2 := a.photoData[p + 2]]
    requires a.photoData[p + 2].photo == p
    requires a.ratings == g.ratings
    requires KeepsRows(g.tags, a.tags, p) && NewRows(g.tags, a.tags, p, p + 3)
    requires a.nextId == p + 3 + (|a.tags| - |g.tags|)
    ensures var r := DeletePhoto(a, p);
      && r.photos == g.photos && r.thumbnails == g.thumbnails && r.photoData == g.photoData && r.ratings == g.ratings
      && |g.tags| <= |r.tags| && r.tags[..|g.tags|] == g.tags
      && (forall t :: t in r.tags[|g.tags|..] ==> t.photos == {})
      && (|a.tags| == |g.tags| ==> r == g.(nextId := p + 3))
  {
    DeleteFreshObjects(g, a, p);
    DeleteFreshTags(g, a, p);
  }

  /** Deleting a photo added on top of a valid graph removes exactly its own three objects. */
  lemma DeleteFreshObjects(g: Graph, a: Graph, p: ObjectId)
    requires Valid(g) && p == g.nextId
    requires p in a.photos && a.photos == g.photos[p := a.photos[p]]
    requires p + 1 in a.thumbnails && a.thumbnails == g.thumbnails[p + 1 := a.thumbnails[p + 1]]
    requires a.thumbnails[p + 1].photo == p
    requires p + 2 in a.photoData && a.photoData == g.photoData[p + 2 := a.photoData[p + 2]]
    requires a.photoData[p + 2].photo == p
    requires a.ratings == g.ratings
    ensures var r := DeletePhoto(a, p);
      r.photos == g.photos && r.thumbnails == g.thumbnails && r.photoData == g.photoData && r.ratings == g.ratings
  {
    var r := DeletePhoto(a, p);
    assert p !in g.photos;
    assert r.photos == g.photos;
    assert r.thumbnails == g.thumbnails;
    assert r.photoData == g.photoData;
    assert r.ratings == g.ratings;
  }

  /** Deleting a photo added on top of a valid graph gives back the old tags and empties the new ones. */
  lemma DeleteFreshTags(g: Graph, a: Graph, p: ObjectId)
    requires Valid(g) && p == g.nextId && p in a.photos
    requires KeepsRows(g.tags, a.tags, p) && NewRows(g.tags, a.tags, p, p + 3)
    ensures var r := DeletePhoto(a, p);
      && |g.tags| <= |r.tags| && r.tags[..|g.tags|] == g.tags
      && (forall t :: t in r.tags[|g.tags|..] ==> t.photos == {})
      && (|a.tags| == |g.tags| ==> r.tags == g.tags)
  {
    var r := DeletePhoto(a, p);
    assert r.tags[..|g.tags|] == g.tags by {
      forall i | 0 <= i < |g.tags|
        ensures r.tags[i] == g.tags[i]
      {
        assert g.tags[i] in g.tags;
      }
    }
    forall t | t in r.tags[|g.tags|..]
      ensures t.photos == {}
    {
      var i :| |g.tags| <= i < |r.tags| && r.tags[i] == t;
    }
  }
}
