/**
 * Queries over the Tag table that the deduplication and photo code share: lookup by object id,
 * the fetch of same-named tags, the record-zone filter, row deletion and the stable sort by uuid
 * that a fetch request with an ascending `uuid` sort descriptor performs.
 */
module TagTable {
  import opened Wrappers
  import opened Schema

  /** No value occurs twice in a sequence of rows. */
  predicate Distinct(s: seq<Tag>) {
    forall i, j :: 0 <= i < j < |s| ==> s[i] != s[j]
  }

  /** Every row of `s` has a uuid of at least `u`. */
  predicate LowerBound(u: Uuid, s: seq<Tag>) {
    forall t :: t in s ==> u <= t.uuid
  }

  /** Rows in ascending uuid order. */
  predicate SortedByUuid(s: seq<Tag>) {
    |s| <= 1 || (LowerBound(s[0].uuid, s[1..]) && SortedByUuid(s[1..]))
  }

  /** A tag belongs to the duplicate group of a name and a record zone (None equals None). */
  predicate InGroup(t: Tag, name: string, zone: Option<ZoneId>) {
    t.name == Some(name) && t.zone == zone
  }

  /** At most one row of the table belongs to the group: the group has converged. */
  predicate AtMostOne(tags: seq<Tag>, name: string, zone: Option<ZoneId>) {
    forall t1, t2 :: t1 in tags && t2 in tags && InGroup(t1, name, zone) && InGroup(t2, name, zone) ==> t1 == t2
  }

  lemma UniqueIdsDistinct(tags: seq<Tag>)
    requires UniqueIds(tags)
    ensures Distinct(tags)
  {
  }

  /** In a table with unique ids a row is determined by its id. */
  lemma RowsDeterminedById(tags: seq<Tag>, t1: Tag, t2: Tag)
    requires UniqueIds(tags)
    requires t1 in tags && t2 in tags && t1.id == t2.id
    ensures t1 == t2
  {
    var i :| 0 <= i < |tags| && tags[i] == t1;
    var j :| 0 <= j < |tags| && tags[j] == t2;
  }

  /** Distinct rows taken from a table with unique ids have unique ids themselves. */
  lemma DistinctRowsHaveUniqueIds(tags: seq<Tag>, s: seq<Tag>)
    requires UniqueIds(tags) && Distinct(s)
    requires forall t :: t in s ==> t in tags
    ensures UniqueIds(s)
  {
    forall i, j | 0 <= i < j < |s|
      ensures s[i].id != s[j].id
    {
      if s[i].id == s[j].id {
        RowsDeterminedById(tags, s[i], s[j]);
      }
    }
  }

  /** The row with the given id, as `context.object(with:)` followed by `as? Tag` finds it. */
  function Lookup(tags: seq<Tag>, id: ObjectId): (r: Option<Tag>)
    ensures r.Some? ==> r.value in tags && r.value.id == id
    ensures r.None? <==> forall t :: t in tags ==> t.id != id
  {
    if |tags| == 0 then None
    else if tags[0].id == id then Some(tags[0])
    else
      assert forall t :: t in tags ==> t == tags[0] || t in tags[1..];
      Lookup(tags[1..], id)
  }

  lemma LookupFinds(tags: seq<Tag>, t: Tag)
    requires UniqueIds(tags)
    requires t in tags
    ensures Lookup(tags, t.id) == Some(t)
  {
    RowsDeterminedById(tags, t, Lookup(tags, t.id).value);
  }

  /** The rows whose name equals `name`, in table order (the fetch's predicate `name == %@`). */
  function NamedRows(tags: seq<Tag>, name: string): (r: seq<Tag>)
    ensures forall t :: t in r <==> t in tags && t.name == Some(name)
    ensures |r| <= |tags|
    ensures Distinct(tags) ==> Distinct(r)
    ensures UniqueIds(tags) ==> UniqueIds(r)
  {
    if |tags| == 0 then []
    else
      assert forall t :: t in tags <==> t == tags[0] || t in tags[1..];
      var rest := NamedRows(tags[1..], name);
      if tags[0].name == Some(name) then [tags[0]] + rest else rest
  }

  /** The name filter works row by row, so the rows it keeps stay in table order. */
  lemma {:induction false} NamedRowsAppend(a: seq<Tag>, b: seq<Tag>, name: string)
    ensures NamedRows(a + b, name) == NamedRows(a, name) + NamedRows(b, name)
    decreases |a|
  {
    if |a| > 0 {
      assert (a + b)[1..] == a[1..] + b;
      NamedRowsAppend(a[1..], b, name);
    } else {
      assert a + b == b;
    }
  }

  /** The rows in record zone `zone`, in the order given (two absent zones are equal). */
  function ZoneRows(s: seq<Tag>, zone: Option<ZoneId>): (r: seq<Tag>)
    ensures forall t :: t in r <==> t in s && t.zone == zone
    ensures |r| <= |s|
    ensures Distinct(s) ==> Distinct(r)
    ensures SortedByUuid(s) ==> SortedByUuid(r)
  {
    if |s| == 0 then []
    else
      assert forall t :: t in s <==> t == s[0] || t in s[1..];
      var rest := ZoneRows(s[1..], zone);
      if s[0].zone == zone then [s[0]] + rest else rest
  }

  /** The table without the row of the given id (a deleted object is gone from every fetch). */
  function WithoutId(tags: seq<Tag>, id: ObjectId): (r: seq<Tag>)
    ensures forall t :: t in r <==> t in tags && t.id != id
    ensures UniqueIds(tags) ==> UniqueIds(r)
  {
    if |tags| == 0 then []
    else
      assert forall t :: t in tags <==> t == tags[0] || t in tags[1..];
      var rest := WithoutId(tags[1..], id);
      if tags[0].id != id then [tags[0]] + rest else rest
  }

  /** The table with `photos` added to the row of id `winner`; every other row is unchanged. */
  function AddPhotosTo(tags: seq<Tag>, winner: ObjectId, photos: set<ObjectId>): (r: seq<Tag>)
    ensures |r| == |tags|
    ensures forall i :: 0 <= i < |tags| ==>
      r[i] == (if tags[i].id == winner then tags[i].(photos := tags[i].photos + photos) else tags[i])
  {
    seq(|tags|, i requires 0 <= i < |tags| =>
      if tags[i].id == winner then tags[i].(photos := tags[i].photos + photos) else tags[i])
  }

  /** Adding photos to one row keeps ids unique and every other row as it was. */
  lemma AddPhotosToRows(tags: seq<Tag>, winner: Tag, photos: set<ObjectId>)
    requires UniqueIds(tags) && winner in tags
    ensures UniqueIds(AddPhotosTo(tags, winner.id, photos))
    ensures winner.(photos := winner.photos + photos) in AddPhotosTo(tags, winner.id, photos)
    ensures forall t :: t in AddPhotosTo(tags, winner.id, photos) && t.id != winner.id ==> t in tags
    ensures forall t :: t in tags && t.id != winner.id ==> t in AddPhotosTo(tags, winner.id, photos)
  {
    var r := AddPhotosTo(tags, winner.id, photos);
    var k :| 0 <= k < |tags| && tags[k] == winner;
    assert r[k] == winner.(photos := winner.photos + photos);
    forall t | t in r && t.id != winner.id
      ensures t in tags
    {
      var i :| 0 <= i < |r| && r[i] == t;
      assert tags[i] == t;
    }
    forall t | t in tags && t.id != winner.id
      ensures t in r
    {
      var i :| 0 <= i < |tags| && tags[i] == t;
      assert r[i] == t;
    }
  }

  /** Insert a row before the first row whose uuid is not smaller; earlier equal rows stay first. */
  function InsertByUuid(x: Tag, s: seq<Tag>): (r: seq<Tag>)
    ensures |r| == |s| + 1
    ensures forall t :: t in r <==> t == x || t in s
  {
    if |s| == 0 || x.uuid <= s[0].uuid then [x] + s
    else
      assert forall t :: t in s <==> t == s[0] || t in s[1..];
      [s[0]] + InsertByUuid(x, s[1..])
  }

  /** Stable insertion sort by ascending uuid. */
  function SortByUuid(s: seq<Tag>): (r: seq<Tag>)
    ensures |r| == |s|
    ensures forall t :: t in r <==> t in s
  {
    if |s| == 0 then []
    else
      assert forall t :: t in s <==> t == s[0] || t in s[1..];
      InsertByUuid(s[0], SortByUuid(s[1..]))
  }

  /** Inserting a row adds exactly one occurrence of it. */
  lemma {:induction false} InsertPermutes(x: Tag, s: seq<Tag>)
    ensures multiset(InsertByUuid(x, s)) == multiset(s) + multiset{x}
  {
    if |s| > 0 && s[0].uuid < x.uuid {
      InsertPermutes(x, s[1..]);
      assert s == [s[0]] + s[1..];
    }
  }

  /** The uuid sort is a permutation: every row occurs as often as before. */
  lemma {:induction false} SortByUuidPermutes(s: seq<Tag>)
    ensures multiset(SortByUuid(s)) == multiset(s)
  {
    if |s| > 0 {
      SortByUuidPermutes(s[1..]);
      InsertPermutes(s[0], SortByUuid(s[1..]));
      assert s == [s[0]] + s[1..];
    }
  }

  lemma {:induction false} InsertSorted(x: Tag, s: seq<Tag>)
    requires SortedByUuid(s)
    ensures SortedByUuid(InsertByUuid(x, s))
  {
    if |s| == 0 || x.uuid <= s[0].uuid {
      var r := InsertByUuid(x, s);
      assert r[1..] == s;
      forall t | t in s
        ensures x.uuid <= t.uuid
      {
        if t != s[0] {
          assert t in s[1..];
        }
      }
    } else {
      InsertSorted(x, s[1..]);
      var r := InsertByUuid(x, s);
      assert r[1..] == InsertByUuid(x, s[1..]);
    }
  }

  lemma {:induction false} InsertDistinct(x: Tag, s: seq<Tag>)
    requires Distinct(s) && x !in s
    ensures Distinct(InsertByUuid(x, s))
  {
    var r := InsertByUuid(x, s);
    if |s| == 0 || x.uuid <= s[0].uuid {
      assert r == [x] + s;
      forall i, j | 0 <= i < j < |r|
        ensures r[i] != r[j]
      {
        if i == 0 {
          assert r[j] == s[j - 1];
        } else {
          assert r[i] == s[i - 1] && r[j] == s[j - 1];
        }
      }
    } else {
      var rest := InsertByUuid(x, s[1..]);
      assert Distinct(s[1..]) by {
        forall i, j | 0 <= i < j < |s[1..]|
          ensures s[1..][i] != s[1..][j]
        {
          assert s[1..][i] == s[i + 1] && s[1..][j] == s[j + 1];
        }
      }
      assert x !in s[1..];
      InsertDistinct(x, s[1..]);
      assert r == [s[0]] + rest;
      assert s[0] !in s[1..];
      assert s[0] !in rest;
      forall i, j | 0 <= i < j < |r|
        ensures r[i] != r[j]
      {
        if i == 0 {
          assert r[j] == rest[j - 1];
        } else {
          assert r[i] == rest[i - 1] && r[j] == rest[j - 1];
        }
      }
    }
  }

  /** The sort orders the rows by uuid and keeps them distinct. */
  lemma {:induction false} SortByUuidSorted(s: seq<Tag>)
    ensures SortedByUuid(SortByUuid(s))
    ensures Distinct(s) ==> Distinct(SortByUuid(s))
  {
    if |s| > 0 {
      SortByUuidSorted(s[1..]);
      InsertSorted(s[0], SortByUuid(s[1..]));
      if Distinct(s) {
        assert Distinct(s[1..]) by {
          forall i, j | 0 <= i < j < |s[1..]|
            ensures s[1..][i] != s[1..][j]
          {
            assert s[1..][i] == s[i + 1] && s[1..][j] == s[j + 1];
          }
        }
        assert s[0] !in s[1..];
        InsertDistinct(s[0], SortByUuid(s[1..]));
      }
    }
  }

  /** The head of a sorted sequence has the smallest uuid of all its rows. */
  lemma SortedHeadIsMinimal(s: seq<Tag>)
    requires SortedByUuid(s) && |s| > 0
    ensures forall t :: t in s ==> s[0].uuid <= t.uuid
  {
    forall t | t in s
      ensures s[0].uuid <= t.uuid
    {
      if t != s[0] {
        assert t in s[1..];
      }
    }
  }
}
