/**
 * Photo management (PersistenceController+Photo.swift): adding a photo with its thumbnail, its
 * full image data and its tags, deleting a photo, and picking the photo-related transactions
 * out of a store-change notification.
 */
module Photos {
  import opened Wrappers
  import opened Schema

  /**
   * The index of the first row carrying `name`.  `Tag.tagIfExists(with:context:)` answers with
   * the row at this index; the fetch sees the tags inserted earlier in the same context.
   */
  function FirstNamed(tags: seq<Tag>, name: string): (r: Option<nat>)
    ensures r.Some? ==> r.value < |tags| && tags[r.value].name == Some(name)
    ensures r.Some? ==> forall j :: 0 <= j < r.value ==> tags[j].name != Some(name)
    ensures r.None? <==> forall t :: t in tags ==> t.name != Some(name)
  {
    if |tags| == 0 then None
    else if tags[0].name == Some(name) then Some(0)
    else
      assert forall t :: t in tags ==> t == tags[0] || t in tags[1..];
      match FirstNamed(tags[1..], name)
      case None => None
      case Some(i) => Some(i + 1)
  }

  /** `a`'s rows carry the same names, at the same indices, as the first rows of `b`. */
  predicate SameNames(a: seq<Tag>, b: seq<Tag>) {
    |a| <= |b| && forall i :: 0 <= i < |a| ==> b[i].name == a[i].name
  }

  /** Changing photos or appending rows keeps every name found where it was found. */
  lemma FirstNamedStable(a: seq<Tag>, b: seq<Tag>, name: string)
    requires SameNames(a, b)
    ensures FirstNamed(a, name).Some? ==> FirstNamed(b, name) == FirstNamed(a, name)
    ensures forall i :: FirstNamed(b, name) == Some(i) && i < |a| ==> FirstNamed(a, name) == Some(i)
  {
  }

  /** The rows of `tags` are still there, each unchanged or with `p` added to its photos. */
  predicate KeepsRows(tags: seq<Tag>, r: seq<Tag>, p: ObjectId) {
    |tags| <= |r| && forall i :: 0 <= i < |tags| ==> r[i] == tags[i] || r[i] == tags[i].(photos := tags[i].photos + {p})
  }

  /** Only a row that is the first carrying one of the names has changed. */
  predicate ChangesOnlyFirstNamed(tags: seq<Tag>, names: seq<string>, r: seq<Tag>)
    requires |tags| <= |r|
  {
    forall i :: 0 <= i < |tags| && r[i] != tags[i] ==> exists name :: name in names && FirstNamed(tags, name) == Some(i)
  }

  /** The rows after those of `tags` are new: consecutive ids from `firstId`, no zone, only `p`. */
  predicate NewRows(tags: seq<Tag>, r: seq<Tag>, p: ObjectId, firstId: ObjectId) {
    forall i :: |tags| <= i < |r| ==> r[i].id == firstId + (i - |tags|) && r[i].zone == None && r[i].photos == {p}
  }

  /** Every new row carries one of the names, and one that no earlier row carries. */
  predicate NewNamesFresh(tags: seq<Tag>, names: seq<string>, r: seq<Tag>) {
    forall i :: |tags| <= i < |r| ==>
      r[i].name.Some? && r[i].name.value in names && forall j :: 0 <= j < i ==> r[j].name != r[i].name
  }

  /** Every name is carried by a row whose photos include `p`. */
  predicate Covers(names: seq<string>, r: seq<Tag>, p: ObjectId) {
    forall name :: name in names ==> exists i :: 0 <= i < |r| && r[i].name == Some(name) && p in r[i].photos
  }

  /** What the tag loop of `addPhoto` guarantees about the table `r` it leaves behind. */
  predicate TaggedAll(tags: seq<Tag>, names: seq<string>, p: ObjectId, firstId: ObjectId, r: seq<Tag>) {
    && KeepsRows(tags, r, p)
    && ChangesOnlyFirstNamed(tags, names, r)
    && NewRows(tags, r, p, firstId)
    && NewNamesFresh(tags, names, r)
    && Covers(names, r, p)
  }

  /**
   * The loop over the tag names: each name reuses the first row carrying it, or else appends a
   * new tag (id from `firstId`, uuid from `uuids`, no zone) with that name; either way the photo
   * `p` joins the tag's photos.
   */
  function TagNames(tags: seq<Tag>, names: seq<string>, p: ObjectId, firstId: ObjectId, uuids: seq<Uuid>): (r: seq<Tag>)
    requires |uuids| >= |names|
    decreases |names|
    ensures TaggedAll(tags, names, p, firstId, r)
  {
    if |names| == 0 then tags
    else
      var name := names[0];
      match FirstNamed(tags, name)
      case Some(k) =>
        var next := tags[k := tags[k].(photos := tags[k].photos + {p})];
        var r := TagNames(next, names[1..], p, firstId, uuids[1..]);
        TagNamesReuseStep(tags, k, next, r, names, p, firstId);
        r
      case None =>
        var next := tags + [Tag(firstId, Some(name), uuids[0], None, {p})];
        var r := TagNames(next, names[1..], p, firstId + 1, uuids[1..]);
        TagNamesCreateStep(tags, next, r, names, p, firstId);
        r
  }

  /** The step of `TagNames` that reuses the row at index `k`. */
  lemma TagNamesReuseStep(tags: seq<Tag>, k: nat, next: seq<Tag>, r: seq<Tag>, names: seq<string>, p: ObjectId,
                          firstId: ObjectId)
    requires |names| > 0 && FirstNamed(tags, names[0]) == Some(k)
    requires next == tags[k := tags[k].(photos := tags[k].photos + {p})]
    requires TaggedAll(next, names[1..], p, firstId, r)
    ensures TaggedAll(tags, names, p, firstId, r)
  {
    assert SameNames(tags, next) && SameNames(next, tags);
    assert KeepsRows(tags, r, p) by {
      forall i | 0 <= i < |tags|
        ensures r[i] == tags[i] || r[i] == tags[i].(photos := tags[i].photos + {p})
      {
        assert r[i] == next[i] || r[i] == next[i].(photos := next[i].photos + {p});
      }
    }
    assert ChangesOnlyFirstNamed(tags, names, r) by {
      forall i | 0 <= i < |tags| && r[i] != tags[i]
        ensures exists name :: name in names && FirstNamed(tags, name) == Some(i)
      {
        if i == k {
          assert names[0] in names;
        } else {
          assert r[i] != next[i];
          var name :| name in names[1..] && FirstNamed(next, name) == Some(i);
          FirstNamedStable(next, tags, name);
          assert name in names;
        }
      }
    }
    assert NewNamesFresh(tags, names, r) by {
      forall i | |tags| <= i < |r|
        ensures r[i].name.Some? && r[i].name.value in names
      {
        assert r[i].name.value in names[1..];
      }
    }
    assert Covers(names, r, p) by {
      ReusedRowCovers(tags, k, next, r, names[0], p);
      forall name | name in names
        ensures exists i :: 0 <= i < |r| && r[i].name == Some(name) && p in r[i].photos
      {
        if name != names[0] {
          assert name in names[1..];
        }
      }
    }
  }

  /** The reused row keeps its name and holds `p` after the rest of the loop. */
  lemma ReusedRowCovers(tags: seq<Tag>, k: nat, next: seq<Tag>, r: seq<Tag>, name: string, p: ObjectId)
    requires k < |tags| && tags[k].name == Some(name)
    requires next == tags[k := tags[k].(photos := tags[k].photos + {p})]
    requires KeepsRows(next, r, p)
    ensures k < |r| && r[k] == next[k]
  {
    assert next[k].(photos := next[k].photos + {p}) == next[k];
  }

  /** The step of `TagNames` that appends a new tag. */
  lemma TagNamesCreateStep(tags: seq<Tag>, next: seq<Tag>, r: seq<Tag>, names: seq<string>, p: ObjectId, firstId: ObjectId)
    requires |names| > 0 && FirstNamed(tags, names[0]).None?
    requires |next| == |tags| + 1 && next[..|tags|] == tags
    requires next[|tags|] == Tag(firstId, Some(names[0]), next[|tags|].uuid, None, {p})
    requires TaggedAll(next, names[1..], p, firstId + 1, r)
    ensures TaggedAll(tags, names, p, firstId, r)
  {
    assert SameNames(tags, next);
    assert forall i :: 0 <= i < |tags| ==> next[i] == tags[i];
    assert KeepsRows(tags, r, p) by {
      forall i | 0 <= i < |tags|
        ensures r[i] == tags[i] || r[i] == tags[i].(photos := tags[i].photos + {p})
      {
        assert r[i] == next[i] || r[i] == next[i].(photos := next[i].photos + {p});
      }
    }
    assert r[|tags|] == next[|tags|];
    assert ChangesOnlyFirstNamed(tags, names, r) by {
      forall i | 0 <= i < |tags| && r[i] != tags[i]
        ensures exists name :: name in names && FirstNamed(tags, name) == Some(i)
      {
        var name :| name in names[1..] && FirstNamed(next, name) == Some(i);
        FirstNamedStable(tags, next, name);
        assert name in names;
      }
    }
    assert NewRows(tags, r, p, firstId) by {
      forall i | |tags| <= i < |r|
        ensures r[i].id == firstId + (i - |tags|) && r[i].zone == None && r[i].photos == {p}
      {
        if i > |tags| {
          assert r[i].id == firstId + 1 + (i - |next|);
        }
      }
    }
    assert NewNamesFresh(tags, names, r) by {
      forall i | |tags| <= i < |r|
        ensures r[i].name.Some? && r[i].name.value in names && forall j :: 0 <= j < i ==> r[j].name != r[i].name
      {
        if i == |tags| {
          assert names[0] in names;
          forall j | 0 <= j < i
            ensures r[j].name != r[i].name
          {
            assert r[j].name == tags[j].name;
            assert tags[j] in tags;
          }
        } else {
          assert r[i].name.value in names[1..];
        }
      }
    }
    assert Covers(names, r, p) by {
      forall name | name in names
        ensures exists i :: 0 <= i < |r| && r[i].name == Some(name) && p in r[i].photos
      {
        if name == names[0] {
          assert r[|tags|].name == Some(name) && p in r[|tags|].photos;
        } else {
          assert name in names[1..];
        }
      }
    }
  }

  /**
   * `addPhoto(photoData:thumbnailData:tagNames:context:)`, as the graph its context saves.  The
   * photo takes the next object id, its thumbnail and its image data the two after it, and the
   * tags it creates the ones after those.  `uniqueName` stands for `UUID().uuidString` and
   * `uuids` for the uuids of the tags the loop may create.
   */
  function AddPhoto(g: Graph, photoData: seq<bv8>, thumbnailData: seq<bv8>, tagNames: seq<string>,
                    uniqueName: string, uuids: seq<Uuid>): (r: Graph)
    requires |uuids| >= |tagNames|
    ensures r.photos == g.photos[g.nextId := Photo(uniqueName)]
    ensures r.thumbnails == g.thumbnails[g.nextId + 1 := Thumbnail(thumbnailData, g.nextId)]
    ensures r.photoData == g.photoData[g.nextId + 2 := PhotoData(photoData, g.nextId)]
    ensures r.ratings == g.ratings
    ensures r.nextId == g.nextId + 3 + (|r.tags| - |g.tags|)
  {
    var p := g.nextId;
    var tags := TagNames(g.tags, tagNames, p, p + 3, uuids);
    Graph(g.photos[p := Photo(uniqueName)],
          g.thumbnails[p + 1 := Thumbnail(thumbnailData, p)],
          g.photoData[p + 2 := PhotoData(photoData, p)],
          g.ratings,
          tags,
          p + 3 + (|tags| - |g.tags|))
  }

  /** The graph `AddPhoto` builds is valid whenever the graph it started from is. */
  lemma AddPhotoValid(g: Graph, r: Graph, p: ObjectId)
    requires Valid(g) && p == g.nextId
    requires p in r.photos && r.photos == g.photos[p := r.photos[p]]
    requires p + 1 in r.thumbnails && r.thumbnails == g.thumbnails[p + 1 := r.thumbnails[p + 1]]
    requires r.thumbnails[p + 1].photo == p
    requires p + 2 in r.photoData && r.photoData == g.photoData[p + 2 := r.photoData[p + 2]]
    requires r.photoData[p + 2].photo == p
    requires r.ratings == g.ratings
    requires KeepsRows(g.tags, r.tags, p) && NewRows(g.tags, r.tags, p, p + 3)
    requires r.nextId == p + 3 + (|r.tags| - |g.tags|)
    ensures Valid(r)
  {
    forall t | t in r.tags
      ensures t.id < r.nextId && t.photos <= r.photos.Keys
    {
      var i :| 0 <= i < |r.tags| && r.tags[i] == t;
      if i < |g.tags| {
        assert g.tags[i] in g.tags;
      }
    }
    forall i, j | 0 <= i < j < |r.tags|
      ensures r.tags[i].id != r.tags[j].id
    {
      if j < |g.tags| {
        assert r.tags[i].id == g.tags[i].id && r.tags[j].id == g.tags[j].id;
      } else if i < |g.tags| {
        assert g.tags[i] in g.tags;
      }
    }
  }

  /**
   * `delete(photo:)`: a photo without a context (absent from the graph) is left alone; otherwise
   * the photo goes, its thumbnail, image data and ratings are deleted with it and every tag
   * forgets it.
   */
  function DeletePhoto(g: Graph, p: ObjectId): (r: Graph)
    ensures p !in g.photos ==> r == g
    ensures p in g.photos ==>
      && r.photos == g.photos - {p}
      && (forall id :: id in r.thumbnails <==> id in g.thumbnails && g.thumbnails[id].photo != p)
      && (forall id :: id in r.photoData <==> id in g.photoData && g.photoData[id].photo != p)
      && (forall id :: id in r.ratings <==> id in g.ratings && g.ratings[id].photo != p)
      && |r.tags| == |g.tags|
      && (forall i :: 0 <= i < |g.tags| ==> r.tags[i] == g.tags[i].(photos := g.tags[i].photos - {p}))
      && r.nextId == g.nextId
    ensures forall id :: id in r.thumbnails ==> r.thumbnails[id] == g.thumbnails[id]
    ensures forall id :: id in r.photoData ==> r.photoData[id] == g.photoData[id]
    ensures forall id :: id in r.ratings ==> r.ratings[id] == g.ratings[id]
    ensures Valid(g) ==> Valid(r)
  {
    if p !in g.photos then g
    else
      var r := Graph(g.photos - {p},
                     map id | id in g.thumbnails && g.thumbnails[id].photo != p :: g.thumbnails[id],
                     map id | id in g.photoData && g.photoData[id].photo != p :: g.photoData[id],
                     map id | id in g.ratings && g.ratings[id].photo != p :: g.ratings[id],
                     seq(|g.tags|, i requires 0 <= i < |g.tags| => g.tags[i].(photos := g.tags[i].photos - {p})),
                     g.nextId);
      assert Valid(g) ==> Valid(r) by {
        if Valid(g) {
          forall t | t in r.tags
            ensures t.id < r.nextId && t.photos <= r.photos.Keys
          {
            var i :| 0 <= i < |r.tags| && r.tags[i] == t;
            assert g.tags[i] in g.tags;
          }
          assert UniqueIds(r.tags) by {
            forall i, j | 0 <= i < j < |r.tags|
              ensures r.tags[i].id != r.tags[j].id
            {
              assert r.tags[i].id == g.tags[i].id && r.tags[j].id == g.tags[j].id;
            }
          }
        }
      }
      r
  }

  /** A transaction touches a photo when it has changes and one of them is to a Photo object. */
  predicate TouchesPhoto(tx: Transaction) {
    tx.changes.Some? && exists ch :: ch in tx.changes.value && ch.entity == PhotoEntity
  }

  /**
   * The inner loop over one transaction's changes: at the first Photo change the transaction is
   * appended and the loop breaks, so it is appended at most once.
   */
  function AppendOnFirstPhotoChange(results: seq<Transaction>, tx: Transaction, changes: seq<Change>): (r: seq<Transaction>)
    ensures r == results + (if exists ch :: ch in changes && ch.entity == PhotoEntity then [tx] else [])
  {
    if |changes| == 0 then results
    else if changes[0].entity == PhotoEntity then results + [tx]
    else
      assert forall ch :: ch in changes <==> ch == changes[0] || ch in changes[1..];
      AppendOnFirstPhotoChange(results, tx, changes[1..])
  }

  /** The outer loop: transactions with nil changes are skipped. */
  function CollectPhotoTransactions(results: seq<Transaction>, txs: seq<Transaction>): (r: seq<Transaction>)
    decreases |txs|
    ensures |results| <= |r| && r[..|results|] == results
    ensures forall tx :: tx in r[|results|..] <==> tx in txs && TouchesPhoto(tx)
  {
    if |txs| == 0 then results
    else
      var tx := txs[0];
      var next := if tx.changes.Some? then AppendOnFirstPhotoChange(results, tx, tx.changes.value) else results;
      var r := CollectPhotoTransactions(next, txs[1..]);
      assert forall t :: t in txs <==> t == tx || t in txs[1..];
      assert r[|results|..] == next[|results|..] + r[|next|..];
      r
  }

  /**
   * `photoTransactions(from:)`: `userInfo` is the notification's transactions entry, None when it
   * is missing or of another type.
   */
  function PhotoTransactions(userInfo: Option<seq<Transaction>>): (r: seq<Transaction>)
    ensures userInfo.None? ==> r == []
    ensures forall tx :: tx in r <==> userInfo.Some? && tx in userInfo.value && TouchesPhoto(tx)
  {
    match userInfo
    case None => []
    case Some(txs) => CollectPhotoTransactions([], txs)
  }

  /** The filter works transaction by transaction: one transaction is kept exactly when it touches a photo. */
  lemma PhotoTransactionsSingle(tx: Transaction)
    ensures PhotoTransactions(Some([tx])) == if TouchesPhoto(tx) then [tx] else []
  {
    assert CollectPhotoTransactions([], [tx]) == CollectPhotoTransactions(
      if tx.changes.Some? then AppendOnFirstPhotoChange([], tx, tx.changes.value) else [], []);
  }

  /** Continuing the outer loop from a prefix of results appends the results of the rest. */
  lemma {:induction false} CollectAppend(results: seq<Transaction>, txs: seq<Transaction>)
    ensures CollectPhotoTransactions(results, txs) == results + CollectPhotoTransactions([], txs)
    decreases |txs|
  {
    if |txs| > 0 {
      var tx := txs[0];
      var step := if tx.changes.Some? then AppendOnFirstPhotoChange([], tx, tx.changes.value) else [];
      var next := if tx.changes.Some? then AppendOnFirstPhotoChange(results, tx, tx.changes.value) else results;
      assert next == results + step;
      CollectAppend(next, txs[1..]);
      CollectAppend(step, txs[1..]);
    }
  }

  /** Running the outer loop over `a + b` is running it over `a`, then over `b`. */
  lemma {:induction false} CollectConcat(results: seq<Transaction>, a: seq<Transaction>, b: seq<Transaction>)
    ensures CollectPhotoTransactions(results, a + b)
      == CollectPhotoTransactions(CollectPhotoTransactions(results, a), b)
    decreases |a|
  {
    if |a| == 0 {
      assert a + b == b;
    } else {
      var tx := a[0];
      var next := if tx.changes.Some? then AppendOnFirstPhotoChange(results, tx, tx.changes.value) else results;
      assert (a + b)[0] == tx && (a + b)[1..] == a[1..] + b;
      CollectConcat(next, a[1..], b);
    }
  }

  /**
   * The filter keeps input order and splits over concatenation, so with the single-transaction
   * case it returns each touching transaction once, in the order it arrived.
   */
  lemma PhotoTransactionsAppend(a: seq<Transaction>, b: seq<Transaction>)
    ensures PhotoTransactions(Some(a + b)) == PhotoTransactions(Some(a)) + PhotoTransactions(Some(b))
  {
    CollectConcat([], a, b);
    CollectAppend(CollectPhotoTransactions([], a), b);
  }
}
