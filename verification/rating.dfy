/**
 * Rating management (PersistenceController+Rating.swift): adding a rating to a photo and
 * deleting a rating.  An object without a managed object context, that is one absent from the
 * graph, is left alone by both.
 */
module Ratings {
  import opened Schema

  /** The ids of the ratings of a photo. */
  function RatingsOf(g: Graph, photo: ObjectId): (r: set<ObjectId>)
    ensures forall id :: id in r <==> id in g.ratings && g.ratings[id].photo == photo
  {
    set id | id in g.ratings && g.ratings[id].photo == photo
  }

  /**
   * `addRating(value:relateTo:)`: one new rating, with the next object id, holding the value and
   * linked to the photo; nothing happens when the photo is not in the graph.
   */
  function AddRating(g: Graph, value: Int16, photo: ObjectId): (r: Graph)
    ensures photo !in g.photos ==> r == g
    ensures photo in g.photos ==>
      && r == g.(ratings := r.ratings, nextId := g.nextId + 1)
      && g.nextId in r.ratings && r.ratings[g.nextId] == Rating(value, photo)
      && (forall id :: id != g.nextId ==> (id in r.ratings <==> id in g.ratings))
      && (forall id :: id in g.ratings && id != g.nextId ==> r.ratings[id] == g.ratings[id])
    ensures Valid(g) ==> Valid(r)
    ensures Valid(g) && photo in g.photos ==> RatingsOf(r, photo) == RatingsOf(g, photo) + {g.nextId}
    ensures Valid(g) ==> forall other :: other != photo ==> RatingsOf(r, other) == RatingsOf(g, other)
  {
    if photo !in g.photos then g
    else g.(ratings := g.ratings[g.nextId := Rating(value, photo)], nextId := g.nextId + 1)
  }

  /**
   * `deleteRating(_:)`: removes exactly that rating; every other rating, of the same photo or
   * not, stays; nothing happens when the rating is not in the graph.
   */
  function DeleteRating(g: Graph, rating: ObjectId): (r: Graph)
    ensures rating !in g.ratings ==> r == g
    ensures r == g.(ratings := r.ratings)
    ensures rating !in r.ratings
    ensures forall id :: id != rating ==> (id in r.ratings <==> id in g.ratings)
    ensures forall id :: id in r.ratings ==> r.ratings[id] == g.ratings[id]
    ensures forall photo :: RatingsOf(r, photo) == RatingsOf(g, photo) - {rating}
    ensures Valid(g) ==> Valid(r)
  {
    if rating !in g.ratings then g
    else g.(ratings := g.ratings - {rating})
  }

  /** Deleting the rating just added gives the graph back; only the id counter has moved. */
  lemma DeleteRatingUndoesAdd(g: Graph, value: Int16, photo: ObjectId)
    requires Valid(g)
    ensures DeleteRating(AddRating(g, value, photo), g.nextId)
      == g.(nextId := if photo in g.photos then g.nextId + 1 else g.nextId)
  {
    var a := AddRating(g, value, photo);
    if photo in g.photos {
      assert g.nextId !in g.ratings;
      assert DeleteRating(a, g.nextId).ratings == g.ratings;
    }
  }
}
